/** The decoder is total: every byte string gives an error or a value of the
    type asked for. Its functions carry the other half, that recursion is on the
    type alone and every slice taken is within bounds. */
module AbiTotality {
  import opened Common
  import opened Words
  import opened AbiTypes
  import opened AbiCodec
  import opened AbiRoundTrip

  lemma {:induction false} ReadIntegerInRange(t: Type, b: Bytes)
    requires (t.IntT? || t.UintT?) && |b| == 32
    ensures HasShape(t, Num(ReadInteger(t, b))) && InRange(t, Num(ReadInteger(t, b)))
  {
    if IsMachineSize(t.size) {
      NarrowPower(t.size);
      FromBEBound(b[32 - t.size / 8..]);
    } else {
      WordBound(b);
    }
  }

  lemma WordBound(b: Bytes)
    requires |b| == 32
    ensures FromBE(b) < TT256
  {
    PowersOf256();
    FromBEBound(b);
  }

  /** Whatever the bytes, a decoded value has the Go type asked for and its
      numbers are in range; recursion is on the type alone. */
  lemma {:induction false} DecodedIsWellTyped(index: nat, t: Type, output: Bytes)
    requires WellFormed(t) && |output| < TT63
    ensures var r := Decode(index, t, output);
            r.Ok? ==> HasShape(t, r.value) && InRange(t, r.value)
    decreases t, 0
  {
    if index + 32 <= |output| {
      var word := output[index..index + 32];
      match t
      case TupleT(elems) =>
        var begin := if IsDynamic(t) then TuplePointsTo(index, output) else Ok(index);
        if begin.Ok? { TupleIsWellTyped(elems, output[begin.value..], 0); }
      case SliceT(elem) =>
        var at := LengthPrefixPointsTo(index, output);
        if at.Ok? { ElementsAreWellTyped(t, at.value.1, output[at.value.0..]); }
      case ArrayT(elem, len) =>
        var base := if IsDynamic(elem) then FromBE(word[24..]) else index;
        if base <= |output| { ElementsAreWellTyped(t, len, output[base..]); }
      case IntT(_) => ReadIntegerInRange(t, word);
      case UintT(_) => ReadIntegerInRange(t, word);
      case _ =>
    }
  }

  lemma {:induction false} ElementsAreWellTyped(t: Type, n: nat, output: Bytes)
    requires (t.SliceT? || t.ArrayT?) && WellFormed(t) && |output| < TT63
    requires t.ArrayT? ==> n == t.len
    ensures var r := DecodeElements(t.elem, n, output);
            r.Ok? ==> HasShape(t, r.value) && InRange(t, r.value)
    decreases t.elem, n + 1
  {
    if 32 * n <= |output| {
      RepeatedAreWellTyped(t.elem, n, output, 0);
      var r := DecodeRepeated(t.elem, n, output, 0);
      if r.Ok? { assert Components(t, n) == Repeat(t.elem, n); }
    }
  }

  lemma {:induction false} RepeatedAreWellTyped(elem: Type, n: nat, output: Bytes, index: nat)
    requires WellFormed(elem) && |output| < TT63
    ensures var r := DecodeRepeated(elem, n, output, index);
            r.Ok? ==> HaveShapes(Repeat(elem, n), r.value) && AreInRange(Repeat(elem, n), r.value)
    decreases elem, n
  {
    if n == 0 {
    } else {
      DecodedIsWellTyped(index, elem, output);
      RepeatedAreWellTyped(elem, n - 1, output, index + TypeSize(elem));
    }
  }

  lemma {:induction false} TupleIsWellTyped(ts: seq<Type>, output: Bytes, index: nat)
    requires AllWellFormed(ts) && |output| < TT63
    ensures var r := DecodeTuple(ts, output, index);
            r.Ok? ==> HaveShapes(ts, r.value) && AreInRange(ts, r.value)
    decreases ts, 0
  {
    if ts == [] {
    } else {
      DecodedIsWellTyped(index, ts[0], output);
      TupleIsWellTyped(ts[1..], output, index + TypeSize(ts[0]));
    }
  }

  // ----- integer arithmetic of the decoder -----

  /** A static value that decodes lies within the buffer, so every position the
      decoder goes on to is one too and, but for the count of elements, none of
      its sums and products wraps around. */
  lemma {:induction false} DecodedFits(index: nat, t: Type, output: Bytes)
    requires WellFormed(t) && Decode(index, t, output).Ok? && !IsDynamic(t) && |output| < TT63
    ensures index + TypeSize(t) <= |output|
    decreases t, 0
  {
    match t
    case TupleT(elems) => TupleFits(elems, output[index..], 0);
    case ArrayT(elem, len) =>
      RepeatedFits(elem, len, output[index..], 0);
      SizeIsWords(t);
    case _ =>
  }

  lemma {:induction false} HeadFits(index: nat, t: Type, output: Bytes)
    requires WellFormed(t) && Decode(index, t, output).Ok? && |output| < TT63
    ensures index + TypeSize(t) <= |output|
    decreases t, 1
  {
    if IsDynamic(t) {
      SizeIsWords(t);
    } else {
      DecodedFits(index, t, output);
    }
  }

  lemma {:induction false} RepeatedFits(elem: Type, n: nat, output: Bytes, index: nat)
    requires WellFormed(elem) && DecodeRepeated(elem, n, output, index).Ok? && index <= |output| < TT63
    ensures index + n * TypeSize(elem) <= |output|
    decreases elem, 2, n
  {
    if n == 0 {
    } else {
      HeadFits(index, elem, output);
      RepeatedFits(elem, n - 1, output, index + TypeSize(elem));
      OneMoreTime(n, TypeSize(elem));
    }
  }

  lemma {:induction false} TupleFits(ts: seq<Type>, output: Bytes, index: nat)
    requires AllWellFormed(ts) && DecodeTuple(ts, output, index).Ok? && index <= |output| < TT63
    ensures index + HeadSize(ts) <= |output|
    decreases ts, 0
  {
    if ts == [] {
    } else {
      HeadFits(index, ts[0], output);
      TupleFits(ts[1..], output, index + TypeSize(ts[0]));
    }
  }

  const TT58 := 0x400_0000_0000_0000

  /** Every array inside the type has fewer than 2^58 elements. */
  predicate CountsFit(t: Type)
  {
    match t
    case SliceT(elem) => CountsFit(elem)
    case ArrayT(elem, len) => len < TT58 && CountsFit(elem)
    case TupleT(elems) => forall i :: 0 <= i < |elems| ==> CountsFit(elems[i])
    case _ => true
  }

  /** The guard of forEachUnpack lets too many elements through exactly if their
      count is 2^58 or more and 32 times it wraps around to what is there. */
  lemma GuardWraps(n: nat, room: nat)
    requires room < TT63
    ensures ElementsError(n, room) == Some(TooManyElements) <==> n >= TT58 && ToInt64(32 * n) <= room
  {
  }

  /** With smaller arrays and a buffer of less than 2^58 bytes it never does. */
  lemma {:induction false} GuardHolds(index: nat, t: Type, output: Bytes)
    requires WellFormed(t) && CountsFit(t) && |output| < TT58
    ensures Decode(index, t, output) != Err(TooManyElements)
    decreases t, 0
  {
    if index + 32 <= |output| {
      var word := output[index..index + 32];
      match t
      case TupleT(elems) =>
        var begin := if IsDynamic(t) then TuplePointsTo(index, output) else Ok(index);
        if begin.Ok? { TupleGuardHolds(elems, output[begin.value..], 0); }
      case SliceT(elem) =>
        var at := LengthPrefixPointsTo(index, output);
        if at.Ok? { RepeatedGuardHolds(elem, at.value.1, output[at.value.0..], 0); }
      case ArrayT(elem, len) =>
        var base := if IsDynamic(elem) then FromBE(word[24..]) else index;
        if base <= |output| { RepeatedGuardHolds(elem, len, output[base..], 0); }
      case _ =>
    }
  }

  lemma {:induction false} RepeatedGuardHolds(elem: Type, n: nat, output: Bytes, index: nat)
    requires WellFormed(elem) && CountsFit(elem) && |output| < TT58
    ensures DecodeRepeated(elem, n, output, index) != Err(TooManyElements)
    decreases elem, n
  {
    if n == 0 {
    } else {
      GuardHolds(index, elem, output);
      RepeatedGuardHolds(elem, n - 1, output, index + TypeSize(elem));
    }
  }

  lemma {:induction false} TupleGuardHolds(ts: seq<Type>, output: Bytes, index: nat)
    requires AllWellFormed(ts) && |output| < TT58 && forall i :: 0 <= i < |ts| ==> CountsFit(ts[i])
    ensures DecodeTuple(ts, output, index) != Err(TooManyElements)
    decreases ts, 0
  {
    if ts == [] {
    } else {
      GuardHolds(index, ts[0], output);
      TupleGuardHolds(ts[1..], output, index + TypeSize(ts[0]));
    }
  }

  /** For one array of smaller ones it does exactly under that condition. */
  lemma ArrayGuardWraps(index: nat, elem: Type, len: nat, output: Bytes)
    requires WellFormed(ArrayT(elem, len)) && CountsFit(elem) && index + 32 <= |output| < TT58
    ensures var base := if IsDynamic(elem) then FromBE(output[index..index + 32][24..]) else index;
            Decode(index, ArrayT(elem, len), output) == Err(TooManyElements) <==>
            base <= |output| && len >= TT58 && ToInt64(32 * len) <= |output| - base
  {
    var base := if IsDynamic(elem) then FromBE(output[index..index + 32][24..]) else index;
    if base <= |output| {
      GuardWraps(len, |output| - base);
      RepeatedGuardHolds(elem, len, output[base..], 0);
    }
  }

  /** An array of 2^58 numbers passes the guard on a reply of one word. */
  lemma GuardFails()
    ensures Decode(0, ArrayT(UintT(256), TT58), Zeros(32)) == Err(TooManyElements)
  {
  }
}
