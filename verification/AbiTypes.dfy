/** The ABI type language of accounts/abi/type.go and its Go values, without
    reflection: a struct or an array is a sequence of values. */
module AbiTypes {
  import opened Common
  import opened Words

  datatype Type =
    | IntT(size: nat)
    | UintT(size: nat)
    | BoolT
    | StringT
    | BytesT
    | AddressT
    | FixedBytesT(size: nat)
    | FunctionT
    | SliceT(elem: Type)
    | ArrayT(elem: Type, len: nat)
    | TupleT(elems: seq<Type>)

  datatype Value =
    | Num(n: int)
    | Bool(b: bool)
    | Raw(bytes: Bytes)
    | List(items: seq<Value>)

  datatype Error =
    | ArgumentCountMismatch
    | TypeMismatch
    | LengthInsufficient
    | OffsetOverBoundary
    | OffsetTooLarge
    | LengthTooLarge
    | BadBool
    | BadFunction
    | TooManyElements

  datatype Result<+T> = Ok(value: T) | Err(error: Error) {
    predicate IsFailure() { Err? }

    function PropagateFailure<U>(): Result<U>
      requires Err?
    {
      Err(error)
    }

    function Extract(): T
      requires Ok?
    {
      value
    }
  }

  /** Types whose encoding is placed in the tail and referenced by an offset. */
  predicate IsDynamic(t: Type)
  {
    match t
    case StringT => true
    case BytesT => true
    case SliceT(_) => true
    case ArrayT(elem, _) => IsDynamic(elem)
    case TupleT(elems) => exists i :: 0 <= i < |elems| && IsDynamic(elems[i])
    case _ => false
  }

  /** Bytes a type occupies in the head: its own size, or one offset word. */
  function TypeSize(t: Type): nat
  {
    if t.ArrayT? && !IsDynamic(t.elem) then
      if t.elem.ArrayT? || t.elem.TupleT? then t.len * TypeSize(t.elem) else t.len * 32
    else if t.TupleT? && !IsDynamic(t) then
      HeadSize(t.elems)
    else
      32
  }

  function HeadSize(ts: seq<Type>): nat
  {
    if ts == [] then 0 else TypeSize(ts[0]) + HeadSize(ts[1..])
  }

  function Repeat(t: Type, n: nat): (ts: seq<Type>)
    ensures |ts| == n
    ensures forall i :: 0 <= i < n ==> ts[i] == t
  {
    seq(n, _ => t)
  }

  /** What NewType can build: bytes1 to bytes32 at every leaf, and counts of
      components that fit an int. */
  predicate WellFormed(t: Type)
  {
    match t
    case FixedBytesT(size) => 1 <= size <= 32
    case SliceT(elem) => WellFormed(elem)
    case ArrayT(elem, len) => len < TT63 && WellFormed(elem)
    case TupleT(elems) => |elems| < TT63 && forall i :: 0 <= i < |elems| ==> WellFormed(elems[i])
    case _ => true
  }

  predicate AllWellFormed(ts: seq<Type>)
  {
    forall i :: 0 <= i < |ts| ==> WellFormed(ts[i])
  }

  /** Integer types that are Go machine integers; all others are *big.Int. */
  predicate IsMachineSize(size: nat)
  {
    size == 8 || size == 16 || size == 32 || size == 64
  }

  function HalfRange(size: nat): (r: int)
    requires IsMachineSize(size)
  {
    if size == 8 then 0x80 else if size == 16 then 0x8000 else if size == 32 then 0x8000_0000 else TT63
  }

  /** Slices, arrays and tuples. */
  predicate IsComposite(t: Type)
  {
    t.SliceT? || t.ArrayT? || t.TupleT?
  }

  /** The types of the n components of a composite value. */
  function Components(t: Type, n: nat): (ts: seq<Type>)
    requires IsComposite(t)
    ensures !t.TupleT? ==> |ts| == n
  {
    if t.TupleT? then t.elems else Repeat(t.elem, n)
  }

  /** The Go value has the Go type of `t`: what typeCheck lets through. A slice
      has as many elements as an int can count. */
  predicate HasShape(t: Type, v: Value)
    decreases v
  {
    if IsComposite(t) then
      && v.List? && |v.items| < TT63
      && (t.ArrayT? ==> |v.items| == t.len)
      && var ts := Components(t, |v.items|);
         |ts| == |v.items| && forall i :: 0 <= i < |ts| ==> HasShape(ts[i], v.items[i])
    else match t
    case IntT(size) => v.Num? && (IsMachineSize(size) ==> -HalfRange(size) <= v.n < HalfRange(size))
    case UintT(size) => v.Num? && (IsMachineSize(size) ==> 0 <= v.n < 2 * HalfRange(size))
    case BoolT => v.Bool?
    case StringT => v.Raw? && |v.bytes| < TT63
    case BytesT => v.Raw? && |v.bytes| < TT63
    case AddressT => v.Raw? && |v.bytes| == 20
    case FixedBytesT(size) => v.Raw? && |v.bytes| == size
    case FunctionT => v.Raw? && |v.bytes| == 24
    case _ => false
  }

  predicate HaveShapes(ts: seq<Type>, vs: seq<Value>)
  {
    |ts| == |vs| && forall i :: 0 <= i < |ts| ==> HasShape(ts[i], vs[i])
  }

  /** Every number is in the 256-bit range of its type. */
  predicate InRange(t: Type, v: Value)
    requires HasShape(t, v)
    decreases v
  {
    if IsComposite(t) then
      var ts := Components(t, |v.items|);
      forall i :: 0 <= i < |ts| ==> InRange(ts[i], v.items[i])
    else match t
    case IntT(_) => -TT255 <= v.n < TT255
    case UintT(_) => 0 <= v.n < TT256
    case _ => true
  }

  predicate AreInRange(ts: seq<Type>, vs: seq<Value>)
    requires HaveShapes(ts, vs)
  {
    forall i :: 0 <= i < |ts| ==> InRange(ts[i], vs[i])
  }

  /** The value after its big integers are taken into the 256-bit range. */
  function Wrapped(t: Type, v: Value): (w: Value)
    requires HasShape(t, v)
    ensures HasShape(t, w) && InRange(t, w)
    decreases v, 0
  {
    if IsComposite(t) then List(WrappedAll(Components(t, |v.items|), v.items))
    else match t
    case IntT(_) => Num(Signed(U256(v.n)))
    case UintT(_) => Num(U256(v.n))
    case _ => v
  }

  function WrappedAll(ts: seq<Type>, vs: seq<Value>): (ws: seq<Value>)
    requires HaveShapes(ts, vs)
    ensures HaveShapes(ts, ws) && AreInRange(ts, ws)
    decreases vs, 0
  {
    if ts == [] then [] else [Wrapped(ts[0], vs[0])] + WrappedAll(ts[1..], vs[1..])
  }

  /** The two's complement reading of a 256-bit number. */
  function Signed(x: nat): int
  {
    if x >= TT255 then x - TT256 else x
  }

  /** No type inside `t` is static and empty. */
  predicate IsSolid(t: Type)
  {
    match t
    case SliceT(elem) => IsSolid(elem)
    case ArrayT(elem, len) => IsSolid(elem) && (len > 0 || IsDynamic(elem))
    case TupleT(elems) => elems != [] && forall i :: 0 <= i < |elems| ==> IsSolid(elems[i])
    case _ => true
  }

  predicate AllSolid(ts: seq<Type>)
  {
    forall i :: 0 <= i < |ts| ==> IsSolid(ts[i])
  }

  // ----- sizes -----

  lemma {:induction false} SizeIsWords(t: Type)
    ensures TypeSize(t) % 32 == 0
    ensures t.ArrayT? && !IsDynamic(t.elem) ==> TypeSize(t) == t.len * TypeSize(t.elem)
    ensures IsDynamic(t) ==> TypeSize(t) == 32
    decreases t, 0
  {
    match t
    case ArrayT(elem, len) =>
      SizeIsWords(elem);
      if !IsDynamic(elem) { MultipleOf32(len, TypeSize(elem)); }
    case TupleT(elems) =>
      if !IsDynamic(t) { HeadSizeIsWords(elems); }
    case _ =>
  }

  lemma {:induction false} HeadSizeIsWords(ts: seq<Type>)
    ensures HeadSize(ts) % 32 == 0
    decreases ts, 0
  {
    if ts == [] {
    } else {
      SizeIsWords(ts[0]);
      HeadSizeIsWords(ts[1..]);
    }
  }

  lemma MultipleOf32(n: nat, k: nat)
    requires k % 32 == 0
    ensures n * k % 32 == 0 && n * 32 % 32 == 0
  {
    ModOfSum(n * (k / 32), 32, 0);
    ModOfSum(n, 32, 0);
    Assoc(n, k / 32, 32);
  }

  lemma OneMoreTime(n: nat, k: nat)
    ensures n > 0 ==> n * k == k + (n - 1) * k
  {
  }

  lemma {:induction false} HeadSizeOfRepeat(t: Type, n: nat)
    ensures HeadSize(Repeat(t, n)) == n * TypeSize(t)
  {
    if n == 0 {
    } else {
      HeadSizeOfRepeat(t, n - 1);
      OneMoreTime(n, TypeSize(t));
      assert Repeat(t, n)[1..] == Repeat(t, n - 1);
    }
  }

  lemma MulAtLeast(n: nat, k: nat)
    ensures n > 0 ==> n * k >= k
    ensures k >= 32 ==> n * k >= 32 * n
  {
  }

  /** A solid type takes at least one word of the head. */
  lemma {:induction false} SolidSize(t: Type)
    requires IsSolid(t)
    ensures TypeSize(t) >= 32
  {
    SizeIsWords(t);
    match t
    case ArrayT(elem, len) =>
      SolidSize(elem);
      if !IsDynamic(elem) { MulAtLeast(len, TypeSize(elem)); }
    case TupleT(elems) =>
      if !IsDynamic(t) { SolidSize(elems[0]); }
    case _ =>
  }
}
