/** Machine word sizes and the option type shared by all components. */
module Common {

  const TT63 := 0x8000_0000_0000_0000
  const TT64 := 0x1_0000_0000_0000_0000
  const TT255 := 0x8000_0000_0000_0000_0000_0000_0000_0000_0000_0000_0000_0000_0000_0000_0000_0000
  const TT256 := 0x1_0000_0000_0000_0000_0000_0000_0000_0000_0000_0000_0000_0000_0000_0000_0000_0000

  /** The value an int holds after arithmetic that may have wrapped around. */
  function ToInt64(x: int): int
  {
    var u := x % TT64;
    if u >= TT63 then u - TT64 else u
  }

  datatype Option<+T> = None | Some(value: T)
}
