/** The contract ABI codec of accounts/abi: the encoding as a function of type
    and value, and the decoder that follows offsets through the buffer. */
module AbiCodec {
  import opened Common
  import opened Words
  import opened AbiTypes

  // ----- encoding -----

  function RightPad(s: Bytes, len: nat): Bytes
  {
    if len <= |s| then s else s + Zeros(len - |s|)
  }

  function LeftPad(s: Bytes, len: nat): Bytes
  {
    if len <= |s| then s else Zeros(len - |s|) + s
  }

  /** Length word, then the bytes padded to whole words. */
  function PackBytes(s: Bytes): Bytes
  {
    Word(|s|) + RightPad(s, (|s| + 31) / 32 * 32)
  }

  function PackElement(t: Type, v: Value): Bytes
    requires HasShape(t, v) && !IsComposite(t)
  {
    match t
    case IntT(_) => Word(v.n)
    case UintT(_) => Word(v.n)
    case BoolT => Word(if v.b then 1 else 0)
    case StringT => PackBytes(v.bytes)
    case BytesT => PackBytes(v.bytes)
    case AddressT => LeftPad(v.bytes, 32)
    case FixedBytesT(_) => RightPad(v.bytes, 32)
    case FunctionT => RightPad(v.bytes, 32)
    case _ => []
  }

  /** enc(X) of the formal specification of the encoding. */
  function Enc(t: Type, v: Value): Bytes
    requires HasShape(t, v)
    decreases v, 1
  {
    if !IsComposite(t) then PackElement(t, v)
    else (if t.SliceT? then Word(|v.items|) else []) + EncAll(Components(t, |v.items|), v.items)
  }

  /** All heads, then all tails; offsets count from the start of the heads. */
  function EncAll(ts: seq<Type>, vs: seq<Value>): Bytes
    requires HaveShapes(ts, vs)
    decreases vs, 1
  {
    Heads(ts, vs, HeadSize(ts)) + Tails(ts, vs)
  }

  /** head(X): the encoding itself, or the offset of the tail. */
  function Head(t: Type, v: Value, offset: nat): Bytes
    requires HasShape(t, v)
    decreases v, 2
  {
    if IsDynamic(t) then Word(offset) else Enc(t, v)
  }

  /** tail(X): the encoding of a dynamic value, nothing otherwise. */
  function Tail(t: Type, v: Value): Bytes
    requires HasShape(t, v)
    decreases v, 2
  {
    if IsDynamic(t) then Enc(t, v) else []
  }

  /** Heads of the components, when the next tail starts at `offset`. */
  function Heads(ts: seq<Type>, vs: seq<Value>, offset: nat): Bytes
    requires HaveShapes(ts, vs)
    decreases vs, 0
  {
    if ts == [] then []
    else Head(ts[0], vs[0], offset) + Heads(ts[1..], vs[1..], offset + |Tail(ts[0], vs[0])|)
  }

  function Tails(ts: seq<Type>, vs: seq<Value>): Bytes
    requires HaveShapes(ts, vs)
    decreases vs, 0
  {
    if ts == [] then []
    else Tail(ts[0], vs[0]) + Tails(ts[1..], vs[1..])
  }

  // ----- decoding -----

  function ReadInteger(t: Type, b: Bytes): int
    requires |b| == 32 && (t.IntT? || t.UintT?)
  {
    if t.UintT? then
      if IsMachineSize(t.size) then FromBE(b[32 - t.size / 8..]) else FromBE(b)
    else
      if IsMachineSize(t.size) then
        var u := FromBE(b[32 - t.size / 8..]);
        if u >= HalfRange(t.size) then u - 2 * HalfRange(t.size) else u
      else
        var u := FromBE(b);
        if u / TT255 % 2 == 1 then -(TT256 - 1 - u + 1) else u
  }

  function ReadBool(word: Bytes): Result<Value>
    requires |word| == 32
  {
    if exists i :: 0 <= i < 31 && word[i] != 0 then Err(BadBool)
    else if word[31] == 0 then Ok(Bool(false))
    else if word[31] == 1 then Ok(Bool(true))
    else Err(BadBool)
  }

  function ReadFunction(word: Bytes): Result<Value>
    requires |word| == 32
  {
    if FromBE(word[24..32]) != 0 then Err(BadFunction) else Ok(Raw(word[0..24]))
  }

  /** Where a length-prefixed value starts, and its length.
      A number of more than 63 bits is one that is at least 2^63. */
  function LengthPrefixPointsTo(index: nat, output: Bytes): (r: Result<(nat, nat)>)
    requires index + 32 <= |output|
    ensures r.Ok? ==> 32 <= r.value.0 && r.value.0 + r.value.1 <= |output|
  {
    var offsetEnd := FromBE(output[index..index + 32]) + 32;
    if offsetEnd > |output| then Err(OffsetOverBoundary)
    else if offsetEnd >= TT63 then Err(OffsetTooLarge)
    else
      var length := FromBE(output[offsetEnd - 32..offsetEnd]);
      if offsetEnd + length >= TT63 then Err(LengthTooLarge)
      else if offsetEnd + length > |output| then Err(LengthInsufficient)
      else Ok((offsetEnd, length))
  }

  function TuplePointsTo(index: nat, output: Bytes): (r: Result<nat>)
    requires index + 32 <= |output|
    ensures r.Ok? ==> r.value <= |output|
  {
    var offset := FromBE(output[index..index + 32]);
    if offset > |output| then Err(OffsetOverBoundary)
    else if offset >= TT63 then Err(OffsetTooLarge)
    else Ok(offset)
  }

  /** toGoType: the value of type `t` whose head is at `index`. Recursion is on
      the type alone, whatever offsets the buffer contains. */
  function Decode(index: nat, t: Type, output: Bytes): Result<Value>
    requires WellFormed(t)
    decreases t, 0
  {
    if index + 32 > |output| then Err(LengthInsufficient)
    else
      var word := output[index..index + 32];
      match t
      case TupleT(elems) =>
        var begin :- if IsDynamic(t) then TuplePointsTo(index, output) else Ok(index);
        var vs :- DecodeTuple(elems, output[begin..], 0);
        Ok(List(vs))
      case SliceT(elem) =>
        var (begin, length) :- LengthPrefixPointsTo(index, output);
        DecodeElements(elem, length, output[begin..])
      case ArrayT(elem, len) =>
        if IsDynamic(elem) then
          var offset := FromBE(word[24..]);
          if offset > |output| then Err(OffsetOverBoundary)
          else DecodeElements(elem, len, output[offset..])
        else DecodeElements(elem, len, output[index..])
      case StringT =>
        var (begin, length) :- LengthPrefixPointsTo(index, output);
        Ok(Raw(output[begin..begin + length]))
      case BytesT =>
        var (begin, length) :- LengthPrefixPointsTo(index, output);
        Ok(Raw(output[begin..begin + length]))
      case IntT(_) => Ok(Num(ReadInteger(t, word)))
      case UintT(_) => Ok(Num(ReadInteger(t, word)))
      case BoolT => ReadBool(word)
      case AddressT => Ok(Raw(word[12..]))
      case FixedBytesT(size) => Ok(Raw(word[0..size]))
      case FunctionT => ReadFunction(word)
  }

  /** The check before elements are read. The source compares 32*n as an int,
      which wraps around: a count it lets through by mistake is of 2^58 elements
      or more, and the source fails when it asks for an array of them, unless they
      take no memory. */
  function ElementsError(n: nat, room: nat): (e: Option<Error>)
    ensures room < TT63 ==> (e.None? <==> 32 * n <= room)
  {
    if ToInt64(32 * n) > room then Some(LengthInsufficient)
    else if 32 * n >= TT63 then Some(TooManyElements)
    else None
  }

  /** forEachUnpack from the start of `output`. */
  function DecodeElements(elem: Type, n: nat, output: Bytes): Result<Value>
    requires WellFormed(elem)
    decreases elem, n + 1
  {
    var e := ElementsError(n, |output|);
    if e.Some? then Err(e.value)
    else
      var vs :- DecodeRepeated(elem, n, output, 0);
      Ok(List(vs))
  }

  function DecodeRepeated(elem: Type, n: nat, output: Bytes, index: nat): Result<seq<Value>>
    requires WellFormed(elem)
    decreases elem, n
  {
    if n == 0 then Ok([])
    else
      var v :- Decode(index, elem, output);
      var vs :- DecodeRepeated(elem, n - 1, output, index + TypeSize(elem));
      Ok([v] + vs)
  }

  /** forTupleUnpack: each component's head follows the previous one's. */
  function DecodeTuple(ts: seq<Type>, output: Bytes, index: nat): Result<seq<Value>>
    requires forall i :: 0 <= i < |ts| ==> WellFormed(ts[i])
    decreases ts, 0
  {
    if ts == [] then Ok([])
    else
      var v :- Decode(index, ts[0], output);
      var vs :- DecodeTuple(ts[1..], output, index + TypeSize(ts[0]));
      Ok([v] + vs)
  }
}
