/** Decoding undoes encoding, and exactly when. */
module AbiRoundTrip {
  import opened Common
  import opened Words
  import opened AbiTypes
  import opened AbiCodec

  // ----- sizes of encodings -----

  lemma BoolWord(b: bool)
    ensures Word(if b then 1 else 0) == Zeros(31) + [if b then 1 else 0]
  {
    var n := if b then 1 else 0;
    assert Pow256(1) == 256;
    BEPadded(n, 32, 1);
    assert BE(n, 1) == BE(n / 256, 0) + [n % 256];
  }

  lemma {:induction false} StaticSize(t: Type, v: Value)
    requires HasShape(t, v) && !IsDynamic(t) && WellFormed(t)
    ensures |Enc(t, v)| == TypeSize(t)
    decreases v, 1
  {
    if IsComposite(t) {
      var ts := Components(t, |v.items|);
      HeadsSize(ts, v.items, HeadSize(ts));
      StaticTails(ts, v.items);
      SizeIsWords(t);
      if t.ArrayT? { HeadSizeOfRepeat(t.elem, t.len); }
    }
  }

  lemma HeadSizeOf(t: Type, v: Value, offset: nat)
    requires HasShape(t, v) && WellFormed(t)
    ensures |Head(t, v, offset)| == TypeSize(t)
    decreases v, 2
  {
    SizeIsWords(t);
    if !IsDynamic(t) { StaticSize(t, v); }
  }

  lemma {:induction false} HeadsSize(ts: seq<Type>, vs: seq<Value>, offset: nat)
    requires HaveShapes(ts, vs) && AllWellFormed(ts)
    ensures |Heads(ts, vs, offset)| == HeadSize(ts)
    decreases vs, 0
  {
    if ts == [] {
    } else {
      HeadSizeOf(ts[0], vs[0], offset);
      HeadsSize(ts[1..], vs[1..], offset + |Tail(ts[0], vs[0])|);
    }
  }

  lemma {:induction false} StaticTails(ts: seq<Type>, vs: seq<Value>)
    requires HaveShapes(ts, vs) && forall i :: 0 <= i < |ts| ==> !IsDynamic(ts[i])
    ensures Tails(ts, vs) == []
    decreases |ts|
  {
    if ts == [] {
    } else {
      StaticTails(ts[1..], vs[1..]);
    }
  }

  // ----- bytes found at a position -----

  ghost predicate At(output: Bytes, index: int, s: Bytes)
  {
    0 <= index && index + |s| <= |output| && output[index..index + |s|] == s
  }

  lemma AtSplit(output: Bytes, index: int, a: Bytes, b: Bytes)
    requires At(output, index, a + b)
    ensures At(output, index, a) && At(output, index + |a|, b)
  {
    var s := output[index..index + |a + b|];
    assert s[..|a|] == a && s[|a|..] == b;
    assert output[index..index + |a|] == s[..|a|];
    assert output[index + |a|..index + |a| + |b|] == s[|a|..];
  }

  // ----- leaves -----

  lemma NarrowPower(size: nat)
    requires IsMachineSize(size)
    ensures Pow256(size / 8) == 2 * HalfRange(size)
  {
    PowersOf256();
  }

  lemma NarrowResidue(n: int, size: nat)
    requires IsMachineSize(size)
    ensures n % TT256 % (2 * HalfRange(size)) == n % (2 * HalfRange(size))
  {
    var m := 2 * HalfRange(size);
    assert TT256 == TT256 / m * m;
    ModMod(n, m, TT256 / m);
  }

  lemma ModMod(n: int, a: int, b: int)
    requires a > 0 && b > 0 && b * a > 0
    ensures n % (b * a) % a == n % a
  {
    var q, r := n / (b * a), n % (b * a);
    var q', r' := r / a, r % a;
    assert n == q * (b * a) + (q' * a + r');
    assert q * (b * a) + q' * a == (q * b + q') * a;
    ModUnique(n, a, q * b + q', r');
  }

  /** The low bytes of a packed number are the number's own residue. */
  lemma NarrowRead(n: int, size: nat)
    requires IsMachineSize(size)
    ensures FromBE(Word(n)[32 - size / 8..]) == n % (2 * HalfRange(size))
  {
    WordRoundTrip(n);
    NarrowPower(size);
    NarrowResidue(n, size);
    FromBESuffix(Word(n), size / 8);
  }

  lemma SmallResidue(n: int, half: int)
    requires half > 0 && -half <= n < half
    ensures var u := n % (2 * half); n == if u >= half then u - 2 * half else u
  {
    if n < 0 { ModUnique(n, 2 * half, -1, n + 2 * half); } else { ModUnique(n, 2 * half, 0, n); }
  }

  lemma ModUnique(n: int, d: int, q: int, r: int)
    requires d > 0 && n == q * d + r && 0 <= r < d
    ensures n % d == r
  {
    var q', r' := n / d, n % d;
    assert n == q' * d + r';
    assert (q - q') * d == r' - r by { assert (q - q') * d == q * d - q' * d; }
    SmallMultiple(q - q', d, r' - r);
  }

  lemma MachineRead(t: Type, n: int)
    requires (t.IntT? || t.UintT?) && IsMachineSize(t.size) && HasShape(t, Num(n))
    ensures ReadInteger(t, Word(n)) == n
  {
    NarrowRead(n, t.size);
    var half := HalfRange(t.size);
    if t.IntT? { SmallResidue(n, half); } else { ModUnique(n, 2 * half, 0, n); }
  }

  lemma BigRead(t: Type, n: int)
    requires (t.IntT? || t.UintT?) && !IsMachineSize(t.size)
    ensures ReadInteger(t, Word(n)) == if t.IntT? then Signed(U256(n)) else U256(n)
  {
    WordRoundTrip(n);
  }

  /** Wrapping changes nothing on a number in range, and only then. */
  lemma WrapIsIdentity(n: int)
    ensures Signed(U256(n)) == n <==> -TT255 <= n < TT255
    ensures U256(n) == n <==> 0 <= n < TT256
  {
  }

  /** Reading a packed number gives it back, wrapped into the 256-bit range. */
  lemma IntegerRoundTrip(t: Type, v: Value)
    requires (t.IntT? || t.UintT?) && HasShape(t, v)
    ensures Num(ReadInteger(t, Word(v.n))) == Wrapped(t, v)
  {
    if IsMachineSize(t.size) {
      MachineRead(t, v.n);
      WrapIsIdentity(v.n);
    } else {
      BigRead(t, v.n);
    }
  }

  lemma ZeroPadding(n: nat)
    ensures FromBE(Zeros(n)) == 0
  {
    if n == 0 {
    } else {
      ZeroPadding(n - 1);
      assert Zeros(n)[..n - 1] == Zeros(n - 1);
    }
  }

  /** A static leaf found in the buffer is read back. */
  lemma LeafRoundTrip(t: Type, v: Value, output: Bytes, index: nat)
    requires !IsComposite(t) && !IsDynamic(t) && WellFormed(t) && HasShape(t, v)
    requires At(output, index, Enc(t, v))
    ensures Decode(index, t, output) == Ok(Wrapped(t, v))
  {
    StaticSize(t, v);
    var word := output[index..index + 32];
    assert word == Enc(t, v);
    match t
    case IntT(_) => IntegerRoundTrip(t, v);
    case UintT(_) => IntegerRoundTrip(t, v);
    case BoolT => BoolWord(v.b);
    case AddressT => assert word[12..] == v.bytes;
    case FixedBytesT(size) => assert word[0..size] == v.bytes;
    case FunctionT =>
      ZeroPadding(8);
      assert word[24..32] == Zeros(8);
      assert word[0..24] == v.bytes;
    case _ =>
  }

  // ----- offsets -----

  lemma OffsetWord(offset: nat)
    requires offset < TT63
    ensures FromBE(Word(offset)) == offset && FromBE(Word(offset)[24..]) == offset
  {
    WordRoundTrip(offset);
    NarrowRead(offset, 64);
    ModUnique(offset, TT256, 0, offset);
    ModUnique(offset, TT64, 0, offset);
  }

  /** The word at `index` holds the number n, also when only its low eight
      bytes are read. */
  ghost predicate WordAt(output: Bytes, index: int, n: nat)
  {
    && 0 <= index && index + 32 <= |output|
    && FromBE(output[index..index + 32]) == n
    && FromBE(output[index..index + 32][24..]) == n
  }

  lemma PackedAt(output: Bytes, index: int, n: nat)
    requires n < TT63 && At(output, index, Word(n))
    ensures WordAt(output, index, n)
  {
    OffsetWord(n);
  }

  /** Following an offset word to a length word. */
  lemma LengthPrefix(output: Bytes, index: nat, offset: nat, n: nat)
    requires |output| < TT63 && WordAt(output, index, offset) && WordAt(output, offset, n)
    ensures var r := LengthPrefixPointsTo(index, output);
            if offset + 32 + n <= |output| then r == Ok((offset + 32, n)) else r.Err?
  {
  }

  lemma PaddedPrefix(output: Bytes, start: nat, s: Bytes)
    requires At(output, start, RightPad(s, (|s| + 31) / 32 * 32))
    ensures start + |s| <= |output| && output[start..start + |s|] == s
  {
    var padded := RightPad(s, (|s| + 31) / 32 * 32);
    assert |s| <= |padded| && padded[..|s|] == s;
    assert output[start..start + |s|] == output[start..start + |padded|][..|s|];
  }

  lemma StringStep(t: Type, s: Bytes, output: Bytes, index: nat, offset: nat)
    requires (t.StringT? || t.BytesT?) && |output| < TT63
    requires WordAt(output, index, offset) && WordAt(output, offset, |s|)
    requires offset + 32 + |s| <= |output| && output[offset + 32..offset + 32 + |s|] == s
    ensures Decode(index, t, output) == Ok(Raw(s))
  {
  }

  lemma StringRoundTrip(t: Type, v: Value, output: Bytes, index: nat, offset: nat)
    requires (t.StringT? || t.BytesT?) && HasShape(t, v) && |output| < TT63
    requires WordAt(output, index, offset) && At(output, offset, Enc(t, v))
    ensures Decode(index, t, output) == Ok(v)
  {
    var n := |v.bytes|;
    AtSplit(output, offset, Word(n), RightPad(v.bytes, (n + 31) / 32 * 32));
    PackedAt(output, offset, n);
    PaddedPrefix(output, offset + 32, v.bytes);
    StringStep(t, v.bytes, output, index, offset);
  }

  // ----- room -----

  /** Enough bytes follow for the decoder's guards. `head` counts from the
      value's head to the end of its buffer, `tail` from its tail. Only values
      with components of size zero can lack room. */
  predicate HasRoom(t: Type, v: Value, head: int, tail: int)
    requires HasShape(t, v)
    decreases v, 1
  {
    head >= 32 &&
    (IsComposite(t) ==>
       var ts := Components(t, |v.items|);
       var space := Space(t, head, tail);
       (t.TupleT? || 32 * |v.items| <= space) && HaveRoom(ts, v.items, space, space - HeadSize(ts)))
  }

  /** The bytes a composite value's components are decoded in. */
  function Space(t: Type, head: int, tail: int): int
  {
    if t.SliceT? then tail - 32 else if IsDynamic(t) then tail else head
  }

  predicate HaveRoom(ts: seq<Type>, vs: seq<Value>, head: int, tail: int)
    requires HaveShapes(ts, vs)
    decreases vs, 0
  {
    ts == [] ||
    (HasRoom(ts[0], vs[0], head, tail) &&
     HaveRoom(ts[1..], vs[1..], head - TypeSize(ts[0]), tail - |Tail(ts[0], vs[0])|))
  }

  // ----- round trip -----

  lemma {:induction false} RepeatedIsTuple(elem: Type, n: nat, output: Bytes, index: nat)
    requires WellFormed(elem)
    ensures DecodeRepeated(elem, n, output, index) == DecodeTuple(Repeat(elem, n), output, index)
  {
    if n == 0 {
    } else {
      RepeatedIsTuple(elem, n - 1, output, index + TypeSize(elem));
      assert Repeat(elem, n)[1..] == Repeat(elem, n - 1);
    }
  }

  /** The value whose head is at `index` and tail at `offset` is read back,
      wrapped, if it has room, and is rejected if not. */
  ghost predicate ReadsBack(t: Type, v: Value, output: Bytes, index: nat, offset: nat)
    requires HasShape(t, v) && WellFormed(t)
  {
    if HasRoom(t, v, |output| - index, |output| - offset)
    then Decode(index, t, output) == Ok(Wrapped(t, v))
    else Decode(index, t, output).Err?
  }

  ghost predicate AllReadBack(ts: seq<Type>, vs: seq<Value>, output: Bytes, index: nat, offset: nat)
    requires HaveShapes(ts, vs) && AllWellFormed(ts)
  {
    if HaveRoom(ts, vs, |output| - index, |output| - offset)
    then DecodeTuple(ts, output, index) == Ok(WrappedAll(ts, vs))
    else DecodeTuple(ts, output, index).Err?
  }

  /** The components of a composite value, decoded from the start of a buffer. */
  ghost predicate BodyReadsBack(t: Type, v: Value, output: Bytes)
    requires IsComposite(t) && HasShape(t, v) && WellFormed(t)
  {
    var ts := Components(t, |v.items|);
    AllReadBack(ts, v.items, output, 0, HeadSize(ts))
  }

  lemma ConsStep(ts: seq<Type>, vs: seq<Value>, output: Bytes, index: nat, offset: nat)
    requires ts != [] && HaveShapes(ts, vs) && AllWellFormed(ts)
    requires ReadsBack(ts[0], vs[0], output, index, offset)
    requires AllReadBack(ts[1..], vs[1..], output, index + TypeSize(ts[0]), offset + |Tail(ts[0], vs[0])|)
    ensures AllReadBack(ts, vs, output, index, offset)
  {
  }

  ghost predicate ElementsReadBack(t: Type, v: Value, output: Bytes)
    requires (t.SliceT? || t.ArrayT?) && HasShape(t, v) && WellFormed(t)
  {
    var n := |v.items|;
    var ts := Components(t, n);
    if 32 * n <= |output| && HaveRoom(ts, v.items, |output|, |output| - HeadSize(ts))
    then DecodeElements(t.elem, n, output) == Ok(Wrapped(t, v))
    else DecodeElements(t.elem, n, output).Err?
  }

  lemma ElementsStep(t: Type, v: Value, output: Bytes)
    requires (t.SliceT? || t.ArrayT?) && HasShape(t, v) && WellFormed(t) && |output| < TT63
    requires BodyReadsBack(t, v, output)
    ensures ElementsReadBack(t, v, output)
  {
    var n := |v.items|;
    RepeatedIsTuple(t.elem, n, output, 0);
    assert Components(t, n) == Repeat(t.elem, n);
    assert Wrapped(t, v) == List(WrappedAll(Components(t, n), v.items));
  }

  lemma SliceStep(t: Type, v: Value, output: Bytes, index: nat, offset: nat)
    requires t.SliceT? && HasShape(t, v) && WellFormed(t) && |output| < TT63
    requires WordAt(output, index, offset) && WordAt(output, offset, |v.items|)
    requires BodyReadsBack(t, v, output[offset + 32..])
    ensures ReadsBack(t, v, output, index, offset)
  {
    ElementsStep(t, v, output[offset + 32..]);
    SliceHead(t, v, output, index, offset);
  }

  lemma SliceHead(t: Type, v: Value, output: Bytes, index: nat, offset: nat)
    requires t.SliceT? && HasShape(t, v) && WellFormed(t) && |output| < TT63
    requires WordAt(output, index, offset) && WordAt(output, offset, |v.items|)
    requires ElementsReadBack(t, v, output[offset + 32..])
    ensures ReadsBack(t, v, output, index, offset)
  {
    var n := |v.items|;
    LengthPrefix(output, index, offset, n);
    assert Decode(index, t, output).Ok? ==>
             Decode(index, t, output) == DecodeElements(t.elem, n, output[offset + 32..]);
  }

  /** Where the components of an array or tuple are encoded. */
  function Base(t: Type, index: nat, offset: nat): nat
  {
    if IsDynamic(t) then offset else index
  }

  lemma ArrayHead(t: Type, output: Bytes, index: nat, offset: nat)
    requires t.ArrayT? && WellFormed(t) && index + 32 <= |output| && Base(t, index, offset) <= |output|
    requires IsDynamic(t) ==> WordAt(output, index, offset)
    ensures Decode(index, t, output) == DecodeElements(t.elem, t.len, output[Base(t, index, offset)..])
  {
  }

  /** Room, value and decoding known separately give the conclusion. */
  lemma Conclude(t: Type, v: Value, output: Bytes, index: nat, offset: nat, room: bool, w: Value)
    requires HasShape(t, v) && WellFormed(t)
    requires room == HasRoom(t, v, |output| - index, |output| - offset) && w == Wrapped(t, v)
    requires if room then Decode(index, t, output) == Ok(w) else Decode(index, t, output).Err?
    ensures ReadsBack(t, v, output, index, offset)
  {
  }

  /** What room and wrapping mean for an array or a tuple. */
  lemma PlainMeaning(t: Type, v: Value, head: int, tail: int, space: int)
    requires (t.ArrayT? || t.TupleT?) && HasShape(t, v) && head >= 32 && space == Space(t, head, tail)
    ensures var ts := Components(t, |v.items|);
            && Wrapped(t, v) == List(WrappedAll(ts, v.items))
            && HasRoom(t, v, head, tail) ==
                 ((t.TupleT? || 32 * |v.items| <= space) && HaveRoom(ts, v.items, space, space - HeadSize(ts)))
  {
  }

  lemma ArrayMeaning(t: Type, v: Value, head: int, tail: int, sub: Bytes)
    requires t.ArrayT? && HasShape(t, v) && WellFormed(t) && BodyReadsBack(t, v, sub)
    requires head >= 32 && |sub| == Space(t, head, tail) < TT63
    ensures var r := DecodeElements(t.elem, t.len, sub);
            if HasRoom(t, v, head, tail) then r == Ok(Wrapped(t, v)) else r.Err?
  {
    ElementsStep(t, v, sub);
    PlainMeaning(t, v, head, tail, |sub|);
  }

  lemma TupleMeaning(room: bool, ws: seq<Value>, r: Result<seq<Value>>, d: Result<Value>)
    requires if room then r == Ok(ws) else r.Err?
    requires d == if r.Ok? then Ok(List(r.value)) else Err(r.error)
    ensures if room then d == Ok(List(ws)) else d.Err?
  {
  }

  lemma ArrayStep(t: Type, v: Value, output: Bytes, index: nat, offset: nat)
    requires t.ArrayT? && HasShape(t, v) && WellFormed(t) && index + 32 <= |output| < TT63
    requires IsDynamic(t) ==> WordAt(output, index, offset)
    requires Base(t, index, offset) <= |output| && BodyReadsBack(t, v, output[Base(t, index, offset)..])
    ensures ReadsBack(t, v, output, index, offset)
  {
    var sub := output[Base(t, index, offset)..];
    ArrayHead(t, output, index, offset);
    ArrayMeaning(t, v, |output| - index, |output| - offset, sub);
  }

  lemma TupleHead(t: Type, output: Bytes, index: nat, offset: nat)
    requires t.TupleT? && WellFormed(t) && index + 32 <= |output| < TT63 && Base(t, index, offset) <= |output|
    requires IsDynamic(t) ==> WordAt(output, index, offset)
    ensures var r := DecodeTuple(t.elems, output[Base(t, index, offset)..], 0);
            Decode(index, t, output) == if r.Ok? then Ok(List(r.value)) else Err(r.error)
  {
  }

  lemma TupleStep(t: Type, v: Value, output: Bytes, index: nat, offset: nat)
    requires t.TupleT? && HasShape(t, v) && WellFormed(t) && index + 32 <= |output| < TT63
    requires IsDynamic(t) ==> WordAt(output, index, offset)
    requires Base(t, index, offset) <= |output| && BodyReadsBack(t, v, output[Base(t, index, offset)..])
    ensures ReadsBack(t, v, output, index, offset)
  {
    var sub := output[Base(t, index, offset)..];
    TupleHead(t, output, index, offset);
    PlainMeaning(t, v, |output| - index, |output| - offset, |sub|);
    var ts := t.elems;
    var room, ws := HaveRoom(ts, v.items, |sub|, |sub| - HeadSize(ts)), WrappedAll(ts, v.items);
    TupleMeaning(room, ws, DecodeTuple(ts, sub, 0), Decode(index, t, output));
    Conclude(t, v, output, index, offset, room, List(ws));
  }

  /** A value embedded in a buffer, head here and tail there, is read back
      wherever it has room, and rejected where it has not. */
  lemma {:induction false} DecodeUndoesEnc(t: Type, v: Value, output: Bytes, index: nat, offset: nat)
    requires HasShape(t, v) && WellFormed(t) && |output| < TT63
    requires At(output, index, Head(t, v, offset)) && At(output, offset, Tail(t, v))
    ensures ReadsBack(t, v, output, index, offset)
    decreases v, 2
  {
    if IsDynamic(t) { PackedAt(output, index, offset); }
    if IsComposite(t) {
      if index + 32 <= |output| {
        CompositeUndoes(t, v, output, index, offset);
      }
    } else if IsDynamic(t) {
      StringRoundTrip(t, v, output, index, offset);
    } else {
      StaticSize(t, v);
      LeafRoundTrip(t, v, output, index);
    }
  }

  lemma {:induction false} CompositeUndoes(t: Type, v: Value, output: Bytes, index: nat, offset: nat)
    requires IsComposite(t) && HasShape(t, v) && WellFormed(t) && index + 32 <= |output| < TT63
    requires IsDynamic(t) ==> WordAt(output, index, offset)
    requires At(output, Base(t, index, offset), Enc(t, v))
    ensures ReadsBack(t, v, output, index, offset)
    decreases v, 1
  {
    var base := Base(t, index, offset);
    if t.SliceT? {
      var n := |v.items|;
      AtSplit(output, base, Word(n), EncAll(Components(t, n), v.items));
      PackedAt(output, base, n);
      BodyUndoes(t, v, output, base + 32);
      SliceStep(t, v, output, index, offset);
    } else {
      BodyUndoes(t, v, output, base);
      if t.ArrayT? { ArrayStep(t, v, output, index, offset); } else { TupleStep(t, v, output, index, offset); }
    }
  }

  /** The components of a composite value whose encoding starts at `base`. */
  lemma {:induction false} BodyUndoes(t: Type, v: Value, output: Bytes, base: nat)
    requires IsComposite(t) && HasShape(t, v) && WellFormed(t) && |output| < TT63
    requires At(output, base, EncAll(Components(t, |v.items|), v.items))
    ensures base <= |output| && BodyReadsBack(t, v, output[base..])
    decreases v, 0
  {
    var ts := Components(t, |v.items|);
    var sub := output[base..];
    AtSplit(sub, 0, Heads(ts, v.items, HeadSize(ts)), Tails(ts, v.items));
    HeadsSize(ts, v.items, HeadSize(ts));
    ComponentsUndo(ts, v.items, sub, 0, HeadSize(ts));
  }

  /** Heads from `index` on, tails from `offset` on. */
  ghost predicate LaidOut(ts: seq<Type>, vs: seq<Value>, output: Bytes, index: nat, offset: nat)
    requires HaveShapes(ts, vs)
  {
    At(output, index, Heads(ts, vs, offset)) && At(output, offset, Tails(ts, vs))
  }

  lemma LaidOutCons(ts: seq<Type>, vs: seq<Value>, output: Bytes, index: nat, offset: nat)
    requires ts != [] && HaveShapes(ts, vs) && AllWellFormed(ts)
    requires LaidOut(ts, vs, output, index, offset)
    ensures At(output, index, Head(ts[0], vs[0], offset)) && At(output, offset, Tail(ts[0], vs[0]))
    ensures LaidOut(ts[1..], vs[1..], output, index + TypeSize(ts[0]), offset + |Tail(ts[0], vs[0])|)
  {
    var rest := offset + |Tail(ts[0], vs[0])|;
    HeadSizeOf(ts[0], vs[0], offset);
    AtSplit(output, index, Head(ts[0], vs[0], offset), Heads(ts[1..], vs[1..], rest));
    AtSplit(output, offset, Tail(ts[0], vs[0]), Tails(ts[1..], vs[1..]));
  }

  lemma {:induction false} ComponentsUndo(ts: seq<Type>, vs: seq<Value>, output: Bytes, index: nat, offset: nat)
    requires HaveShapes(ts, vs) && AllWellFormed(ts) && |output| < TT63
    requires LaidOut(ts, vs, output, index, offset)
    ensures AllReadBack(ts, vs, output, index, offset)
    decreases vs, 0
  {
    if ts == [] {
    } else {
      LaidOutCons(ts, vs, output, index, offset);
      DecodeUndoesEnc(ts[0], vs[0], output, index, offset);
      ComponentsUndo(ts[1..], vs[1..], output, index + TypeSize(ts[0]), offset + |Tail(ts[0], vs[0])|);
      ConsStep(ts, vs, output, index, offset);
    }
  }

  // ----- room for solid types -----

  /** Types without empty static components always have room. */
  lemma {:induction false} SolidHasRoom(t: Type, v: Value, head: int, tail: int)
    requires HasShape(t, v) && WellFormed(t) && IsSolid(t)
    requires head >= TypeSize(t) && tail >= |Tail(t, v)|
    ensures HasRoom(t, v, head, tail)
    decreases v, 1
  {
    SolidSize(t);
    if IsComposite(t) {
      var n := |v.items|;
      var ts := Components(t, n);
      var space := Space(t, head, tail);
      HeadsSize(ts, v.items, HeadSize(ts));
      if !IsDynamic(t) { StaticSize(t, v); }
      assert space >= |EncAll(ts, v.items)|;
      if !t.TupleT? {
        HeadSizeOfRepeat(t.elem, n);
        SolidSize(t.elem);
        MulAtLeast(n, TypeSize(t.elem));
      }
      AllSolidHaveRoom(ts, v.items, space, space - HeadSize(ts));
    }
  }

  lemma {:induction false} AllSolidHaveRoom(ts: seq<Type>, vs: seq<Value>, head: int, tail: int)
    requires HaveShapes(ts, vs) && AllWellFormed(ts) && AllSolid(ts)
    requires head >= HeadSize(ts) && tail >= |Tails(ts, vs)|
    ensures HaveRoom(ts, vs, head, tail)
    decreases vs, 0
  {
    if ts == [] {
    } else {
      SolidHasRoom(ts[0], vs[0], head, tail);
      AllSolidHaveRoom(ts[1..], vs[1..], head - TypeSize(ts[0]), tail - |Tail(ts[0], vs[0])|);
    }
  }

  // ----- wrapping -----

  /** Wrapping changes a value exactly when one of its numbers is out of range. */
  lemma {:induction false} WrappedIff(t: Type, v: Value)
    requires HasShape(t, v)
    ensures Wrapped(t, v) == v <==> InRange(t, v)
    decreases v, 1
  {
    if IsComposite(t) {
      WrappedAllIff(Components(t, |v.items|), v.items);
    } else if v.Num? {
      WrapIsIdentity(v.n);
    }
  }

  lemma {:induction false} WrappedAllIff(ts: seq<Type>, vs: seq<Value>)
    requires HaveShapes(ts, vs)
    ensures WrappedAll(ts, vs) == vs <==> AreInRange(ts, vs)
    decreases vs, 0
  {
    if ts == [] {
    } else {
      WrappedIff(ts[0], vs[0]);
      WrappedAllIff(ts[1..], vs[1..]);
      assert AreInRange(ts, vs) <==> InRange(ts[0], vs[0]) && AreInRange(ts[1..], vs[1..]);
    }
  }

  // ----- main results -----

  /** The room condition for a whole argument list. */
  predicate ArgumentsHaveRoom(ts: seq<Type>, vs: seq<Value>)
    requires HaveShapes(ts, vs)
  {
    var size := |EncAll(ts, vs)|;
    HaveRoom(ts, vs, size, size - HeadSize(ts))
  }

  /** Unpacking a packed argument list gives the values, wrapped into their
      256-bit ranges, if there is room; otherwise it fails. */
  lemma UnpackPacked(ts: seq<Type>, vs: seq<Value>)
    requires HaveShapes(ts, vs) && AllWellFormed(ts)
    requires |EncAll(ts, vs)| < TT63
    ensures if ArgumentsHaveRoom(ts, vs)
            then DecodeTuple(ts, EncAll(ts, vs), 0) == Ok(WrappedAll(ts, vs))
            else DecodeTuple(ts, EncAll(ts, vs), 0).Err?
  {
    var data := EncAll(ts, vs);
    HeadsSize(ts, vs, HeadSize(ts));
    assert data[0..|data|] == data;
    AtSplit(data, 0, Heads(ts, vs, HeadSize(ts)), Tails(ts, vs));
    ComponentsUndo(ts, vs, data, 0, HeadSize(ts));
  }

  /** The round trip is the identity exactly when there is room and every
      number is in range. */
  lemma RoundTripExactly(ts: seq<Type>, vs: seq<Value>)
    requires HaveShapes(ts, vs) && AllWellFormed(ts)
    requires |EncAll(ts, vs)| < TT63
    ensures DecodeTuple(ts, EncAll(ts, vs), 0) == Ok(vs) <==> ArgumentsHaveRoom(ts, vs) && AreInRange(ts, vs)
  {
    UnpackPacked(ts, vs);
    WrappedAllIff(ts, vs);
  }

  /** With no empty static component, only the ranges matter. */
  lemma RoundTrip(ts: seq<Type>, vs: seq<Value>)
    requires HaveShapes(ts, vs) && AllWellFormed(ts) && AllSolid(ts)
    requires |EncAll(ts, vs)| < TT63
    ensures DecodeTuple(ts, EncAll(ts, vs), 0) == Ok(WrappedAll(ts, vs))
    ensures DecodeTuple(ts, EncAll(ts, vs), 0) == Ok(vs) <==> AreInRange(ts, vs)
  {
    SolidArgumentsHaveRoom(ts, vs);
    UnpackPacked(ts, vs);
    WrappedAllIff(ts, vs);
  }

  lemma SolidArgumentsHaveRoom(ts: seq<Type>, vs: seq<Value>)
    requires HaveShapes(ts, vs) && AllWellFormed(ts) && AllSolid(ts)
    ensures ArgumentsHaveRoom(ts, vs)
  {
    var n := |EncAll(ts, vs)|;
    HeadsSize(ts, vs, HeadSize(ts));
    AllSolidHaveRoom(ts, vs, n, n - HeadSize(ts));
  }

  /** A last argument of type uint256[0] packs to nothing and is rejected. */
  lemma EmptyArrayFails()
    ensures var ts := [ArrayT(UintT(256), 0)];
            var vs := [List([])];
            HaveShapes(ts, vs) && AllWellFormed(ts) && DecodeTuple(ts, EncAll(ts, vs), 0) == Err(LengthInsufficient)
  {
    var t := ArrayT(UintT(256), 0);
    var ts, vs := [t], [List([])];
    assert HasShape(t, List([]));
    EmptyStatic(ts, vs);
  }

  /** Arguments that are all static and empty pack to nothing. */
  lemma EmptyStatic(ts: seq<Type>, vs: seq<Value>)
    requires HaveShapes(ts, vs) && AllWellFormed(ts) && HeadSize(ts) == 0
    requires forall i :: 0 <= i < |ts| ==> !IsDynamic(ts[i])
    ensures EncAll(ts, vs) == []
    ensures ts != [] ==> DecodeTuple(ts, EncAll(ts, vs), 0) == Err(LengthInsufficient)
  {
    StaticTails(ts, vs);
    HeadsSize(ts, vs, HeadSize(ts));
  }
}
