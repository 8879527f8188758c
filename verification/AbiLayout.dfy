/** The encoding by position, as the specification of the contract ABI describes
    it: a relation between values and bytes that does not build the bytes, and
    which the encoder meets with exactly one result. */
module AbiLayout {
  import opened Common
  import opened Words
  import opened AbiTypes
  import opened AbiCodec
  import opened AbiRoundTrip

  predicate AreZero(e: Bytes, from: nat, to: nat)
    requires to <= |e|
  {
    forall i :: from <= i < to ==> e[i] == 0
  }

  /** Length, the bytes, and as many zeros as fill the last word. */
  predicate IsPaddedTail(e: Bytes, s: Bytes)
  {
    && |e| % 32 == 0 && 32 + |s| <= |e| < 64 + |s|
    && FromBE(e[..32]) == |s| && e[32..32 + |s|] == s && AreZero(e, 32 + |s|, |e|)
  }

  /** A leaf of the type tree: numbers by value, bytes by place. */
  predicate EncodesLeaf(t: Type, v: Value, e: Bytes)
    requires HasShape(t, v) && !IsComposite(t)
  {
    if t.StringT? || t.BytesT? then IsPaddedTail(e, v.bytes)
    else
      && |e| == 32
      && match t
         case IntT(_) => FromBE(e) == v.n % TT256
         case UintT(_) => FromBE(e) == v.n % TT256
         case BoolT => FromBE(e) == if v.b then 1 else 0
         case AddressT => AreZero(e, 0, 12) && e[12..] == v.bytes
         case FixedBytesT(size) => size <= 32 && e[..size] == v.bytes && AreZero(e, size, 32)
         case FunctionT => e[..24] == v.bytes && AreZero(e, 24, 32)
         case _ => false
  }

  /** `e` is the encoding of `v`: for a slice a count first, and then the
      components. */
  ghost predicate Encodes(t: Type, v: Value, e: Bytes)
    requires HasShape(t, v)
    decreases v, 2
  {
    if !IsComposite(t) then EncodesLeaf(t, v, e)
    else
      var ts := Components(t, |v.items|);
      if t.SliceT? then |e| >= 32 && FromBE(e[..32]) == |v.items| && EncodesAll(ts, v.items, e[32..])
      else EncodesAll(ts, v.items, e)
  }

  /** The heads of all components, and behind them the tails. */
  ghost predicate EncodesAll(ts: seq<Type>, vs: seq<Value>, e: Bytes)
    requires HaveShapes(ts, vs)
    decreases vs, 1
  {
    var n := HeadSize(ts);
    n <= |e| && EncodesParts(ts, vs, e[..n], e[n..], n)
  }

  /** The heads left and the tails left, which start at `offset`. A static component
      stands in its head; a dynamic one's head is the offset of its tail. Heads and
      tails follow one another without gaps. */
  ghost predicate EncodesParts(ts: seq<Type>, vs: seq<Value>, heads: Bytes, tails: Bytes, offset: nat)
    requires HaveShapes(ts, vs)
    decreases vs, 0
  {
    if ts == [] then heads == [] && tails == []
    else if IsDynamic(ts[0]) then
      && |heads| >= 32 && FromBE(heads[..32]) == offset
      && exists n :: 0 <= n <= |tails| && Encodes(ts[0], vs[0], tails[..n])
                     && EncodesParts(ts[1..], vs[1..], heads[32..], tails[n..], offset + n)
    else
      var n := TypeSize(ts[0]);
      && |heads| >= n && Encodes(ts[0], vs[0], heads[..n])
      && EncodesParts(ts[1..], vs[1..], heads[n..], tails, offset)
  }

  // ----- words -----

  /** Bytes of one length are told apart by the number they hold. */
  lemma {:induction false} FromBETells(a: Bytes, b: Bytes)
    requires |a| == |b| && FromBE(a) == FromBE(b)
    ensures a == b
  {
    if a == [] {
    } else {
      var n := |a| - 1;
      FromBETells(a[..n], b[..n]);
      assert a == a[..n] + [a[n]] && b == b[..n] + [b[n]];
    }
  }

  lemma WordTells(e: Bytes, n: int)
    requires |e| == 32
    ensures FromBE(e) == n % TT256 <==> e == Word(n)
  {
    WordRoundTrip(n);
    if FromBE(e) == n % TT256 { FromBETells(e, Word(n)); }
  }

  lemma SmallWordTells(e: Bytes, n: nat)
    requires |e| == 32 && n < TT256
    ensures FromBE(e) == n <==> e == Word(n)
  {
    WordTells(e, n);
  }

  // ----- leaves -----

  lemma WholeWords(n: nat, k: nat)
    requires k % 32 == 0
    ensures n <= k < n + 32 <==> k == (n + 31) / 32 * 32
  {
  }

  /** The layout of a string or byte string: its length, the bytes, and zeros up to
      a whole word. */
  lemma BytesLayout(t: Type, s: Bytes)
    requires (t.StringT? || t.BytesT?) && |s| < TT63
    ensures IsLaidOut(Enc(t, Raw(s)), s)
  {
    PackLayout(s);
  }

  predicate IsLaidOut(e: Bytes, s: Bytes)
  {
    && |e| % 32 == 0 && 32 + |s| <= |e| < 64 + |s|
    && e[..32] == Word(|s|) && e[32..32 + |s|] == s && AreZero(e, 32 + |s|, |e|)
  }

  lemma PackLayout(s: Bytes)
    ensures IsLaidOut(PackBytes(s), s)
  {
    var k := (|s| + 31) / 32 * 32;
    WholeWords(|s|, k);
    PaddedLayout(s, k);
    assert RightPad(s, k) == s + Zeros(k - |s|);
  }

  lemma PaddedLayout(s: Bytes, k: nat)
    requires k % 32 == 0 && |s| <= k < |s| + 32
    ensures IsLaidOut(Word(|s|) + (s + Zeros(k - |s|)), s)
  {
    var e := Word(|s|) + (s + Zeros(k - |s|));
    Joined(Word(|s|), s, Zeros(k - |s|));
    SumOfWords(32, k);
    assert |e| == 32 + k;
    forall i | 32 + |s| <= i < |e|
      ensures e[i] == 0
    {
      assert e[i] == Zeros(k - |s|)[i - 32 - |s|];
    }
  }

  lemma Joined(a: Bytes, b: Bytes, c: Bytes)
    ensures var e := a + (b + c);
            && |e| == |a| + |b| + |c| && e[..|a|] == a && e[|a|..|a| + |b|] == b && e[|a| + |b|..] == c
            && forall i :: 0 <= i < |c| ==> e[|a| + |b| + i] == c[i]
  {
  }

  lemma PaddedTells(e: Bytes, s: Bytes)
    requires |s| < TT63
    ensures IsPaddedTail(e, s) <==> e == PackBytes(s)
  {
    if IsPaddedTail(e, s) { PaddedIsPacked(e, s); }
    PackLayout(s);
    SmallWordTells(Word(|s|), |s|);
  }

  lemma PaddedIsPacked(e: Bytes, s: Bytes)
    requires |s| < TT63 && IsPaddedTail(e, s)
    ensures e == PackBytes(s)
  {
    var k := |e| - 32;
    WholeWords(|s|, k);
    SmallWordTells(e[..32], |s|);
    assert e[32 + |s|..] == Zeros(k - |s|);
    assert e == e[..32] + (e[32..32 + |s|] + e[32 + |s|..]);
  }

  lemma LeafTells(t: Type, v: Value, e: Bytes)
    requires HasShape(t, v) && !IsComposite(t) && WellFormed(t)
    ensures EncodesLeaf(t, v, e) <==> e == Enc(t, v)
  {
    if t.StringT? || t.BytesT? {
      PaddedTells(e, v.bytes);
    } else if |e| == 32 {
      match t
      case IntT(_) => WordTells(e, v.n);
      case UintT(_) => WordTells(e, v.n);
      case BoolT => SmallWordTells(e, if v.b then 1 else 0);
      case AddressT => assert e == e[..12] + e[12..] && Enc(t, v)[..12] == Zeros(12);
      case FixedBytesT(size) => RightTells(e, v.bytes);
      case FunctionT => RightTells(e, v.bytes);
    } else {
      StaticSize(t, v);
    }
  }

  lemma RightTells(e: Bytes, s: Bytes)
    requires |e| == 32 && |s| <= 32
    ensures e[..|s|] == s && AreZero(e, |s|, 32) <==> e == RightPad(s, 32)
  {
    var p := RightPad(s, 32);
    assert p[..|s|] == s && AreZero(p, |s|, 32);
    assert e == e[..|s|] + e[|s|..];
  }

  // ----- components -----

  lemma Cut(e: Bytes, a: Bytes, b: Bytes)
    ensures e == a + b <==> |e| >= |a| && e[..|a|] == a && e[|a|..] == b
  {
    if |e| >= |a| { assert e == e[..|a|] + e[|a|..]; }
  }

  /** What the layout asks for is what the encoder makes, and nothing else. */
  lemma {:induction false} EncodesIff(t: Type, v: Value, e: Bytes)
    requires HasShape(t, v) && WellFormed(t) && |e| < TT63
    ensures Encodes(t, v, e) <==> e == Enc(t, v)
    decreases v, 2
  {
    if !IsComposite(t) {
      LeafTells(t, v, e);
    } else {
      var ts := Components(t, |v.items|);
      if t.SliceT? {
        Cut(e, Word(|v.items|), EncAll(ts, v.items));
        if |e| >= 32 {
          SmallWordTells(e[..32], |v.items|);
          EncodesAllIff(ts, v.items, e[32..]);
        }
      } else {
        EncodesAllIff(ts, v.items, e);
        assert Enc(t, v) == EncAll(ts, v.items);
      }
    }
  }

  /** The same for an argument list. */
  lemma {:induction false} EncodesAllIff(ts: seq<Type>, vs: seq<Value>, e: Bytes)
    requires HaveShapes(ts, vs) && AllWellFormed(ts) && |e| < TT63
    ensures EncodesAll(ts, vs, e) <==> e == EncAll(ts, vs)
    decreases vs, 1
  {
    var n := HeadSize(ts);
    HeadsSize(ts, vs, n);
    Cut(e, Heads(ts, vs, n), Tails(ts, vs));
    if n <= |e| { EncodesPartsIff(ts, vs, e[..n], e[n..], n); }
  }

  datatype Parts = Parts(heads: Bytes, tails: Bytes)

  /** Heads and tails as the encoder makes them. */
  function PartsOf(ts: seq<Type>, vs: seq<Value>, offset: nat): Parts
    requires HaveShapes(ts, vs)
  {
    Parts(Heads(ts, vs, offset), Tails(ts, vs))
  }

  lemma {:induction false} EncodesPartsIff(ts: seq<Type>, vs: seq<Value>, heads: Bytes, tails: Bytes, offset: nat)
    requires HaveShapes(ts, vs) && AllWellFormed(ts) && |heads| < TT63 && offset + |tails| < TT63
    ensures EncodesParts(ts, vs, heads, tails, offset) <==> Parts(heads, tails) == PartsOf(ts, vs, offset)
    decreases vs, 0, 1
  {
    if ts == [] {
    } else if IsDynamic(ts[0]) {
      if EncodesParts(ts, vs, heads, tails, offset) {
        var n :| 0 <= n <= |tails| && Encodes(ts[0], vs[0], tails[..n])
                 && EncodesParts(ts[1..], vs[1..], heads[32..], tails[n..], offset + n);
        DynamicIsPart(ts, vs, heads, tails, offset, n);
      }
      if Parts(heads, tails) == PartsOf(ts, vs, offset) { DynamicIsEncoded(ts, vs, heads, tails, offset); }
    } else {
      StaticIff(ts, vs, heads, tails, offset);
    }
  }

  lemma {:induction false} StaticIff(ts: seq<Type>, vs: seq<Value>, heads: Bytes, tails: Bytes, offset: nat)
    requires ts != [] && !IsDynamic(ts[0])
    requires HaveShapes(ts, vs) && AllWellFormed(ts) && |heads| < TT63 && offset + |tails| < TT63
    ensures EncodesParts(ts, vs, heads, tails, offset) <==> Parts(heads, tails) == PartsOf(ts, vs, offset)
    decreases vs, 0, 0
  {
    var n, h := TypeSize(ts[0]), Enc(ts[0], vs[0]);
    StaticSize(ts[0], vs[0]);
    Cut(heads, h, Heads(ts[1..], vs[1..], offset));
    StaticParts(ts, vs, offset);
    if n <= |heads| {
      EncodesIff(ts[0], vs[0], heads[..n]);
      EncodesPartsIff(ts[1..], vs[1..], heads[n..], tails, offset);
    }
  }

  lemma StaticParts(ts: seq<Type>, vs: seq<Value>, offset: nat)
    requires ts != [] && !IsDynamic(ts[0]) && HaveShapes(ts, vs)
    ensures Heads(ts, vs, offset) == Enc(ts[0], vs[0]) + Heads(ts[1..], vs[1..], offset)
    ensures Tails(ts, vs) == Tails(ts[1..], vs[1..])
  {
  }

  lemma DynamicParts(ts: seq<Type>, vs: seq<Value>, offset: nat)
    requires ts != [] && IsDynamic(ts[0]) && HaveShapes(ts, vs)
    ensures var t := Enc(ts[0], vs[0]);
            && Heads(ts, vs, offset) == Word(offset) + Heads(ts[1..], vs[1..], offset + |t|)
            && Tails(ts, vs) == t + Tails(ts[1..], vs[1..])
  {
  }

  /** A dynamic component's head and tail, cut off. */
  lemma DynamicCut(ts: seq<Type>, vs: seq<Value>, heads: Bytes, tails: Bytes, offset: nat, t: Bytes)
    requires ts != [] && HaveShapes(ts, vs) && IsDynamic(ts[0]) && t == Enc(ts[0], vs[0])
    ensures Parts(heads, tails) == PartsOf(ts, vs, offset) <==>
            && |heads| >= 32 && heads[..32] == Word(offset) && |tails| >= |t| && tails[..|t|] == t
            && Parts(heads[32..], tails[|t|..]) == PartsOf(ts[1..], vs[1..], offset + |t|)
  {
    DynamicParts(ts, vs, offset);
    Cut(heads, Word(offset), Heads(ts[1..], vs[1..], offset + |t|));
    Cut(tails, t, Tails(ts[1..], vs[1..]));
  }

  lemma {:induction false} DynamicIsPart(ts: seq<Type>, vs: seq<Value>, heads: Bytes, tails: Bytes, offset: nat,
                                         n: nat)
    requires ts != [] && HaveShapes(ts, vs) && AllWellFormed(ts) && |heads| < TT63 && offset + |tails| < TT63
    requires IsDynamic(ts[0]) && |heads| >= 32 && FromBE(heads[..32]) == offset && n <= |tails|
    requires Encodes(ts[0], vs[0], tails[..n])
    requires EncodesParts(ts[1..], vs[1..], heads[32..], tails[n..], offset + n)
    ensures Parts(heads, tails) == PartsOf(ts, vs, offset)
    decreases vs, 0, 0
  {
    EncodesIff(ts[0], vs[0], tails[..n]);
    EncodesPartsIff(ts[1..], vs[1..], heads[32..], tails[n..], offset + n);
    assert Parts(heads[32..], tails[n..]) == PartsOf(ts[1..], vs[1..], offset + n);
    DynamicJoins(ts, vs, heads, tails, offset, n);
  }

  lemma DynamicJoins(ts: seq<Type>, vs: seq<Value>, heads: Bytes, tails: Bytes, offset: nat, n: nat)
    requires ts != [] && HaveShapes(ts, vs) && IsDynamic(ts[0]) && offset < TT63
    ensures && |heads| >= 32 && FromBE(heads[..32]) == offset && n <= |tails| && tails[..n] == Enc(ts[0], vs[0])
            && Parts(heads[32..], tails[n..]) == PartsOf(ts[1..], vs[1..], offset + n) ==>
              Parts(heads, tails) == PartsOf(ts, vs, offset)
  {
    if |heads| >= 32 && n <= |tails| && tails[..n] == Enc(ts[0], vs[0]) {
      SmallWordTells(heads[..32], offset);
      DynamicCut(ts, vs, heads, tails, offset, tails[..n]);
    }
  }

  lemma {:induction false} DynamicIsEncoded(ts: seq<Type>, vs: seq<Value>, heads: Bytes, tails: Bytes, offset: nat)
    requires ts != [] && HaveShapes(ts, vs) && AllWellFormed(ts) && |heads| < TT63 && offset + |tails| < TT63
    requires IsDynamic(ts[0]) && Parts(heads, tails) == PartsOf(ts, vs, offset)
    ensures EncodesParts(ts, vs, heads, tails, offset)
    decreases vs, 0, 0
  {
    var t := Enc(ts[0], vs[0]);
    DynamicCut(ts, vs, heads, tails, offset, t);
    EncodesIff(ts[0], vs[0], tails[..|t|]);
    EncodesPartsIff(ts[1..], vs[1..], heads[32..], tails[|t|..], offset + |t|);
    SmallWordTells(heads[..32], offset);
  }

  // ----- whole words -----

  /** Every encoding is a number of whole words. */
  lemma {:induction false} EncIsWords(t: Type, v: Value)
    requires HasShape(t, v) && WellFormed(t)
    ensures |Enc(t, v)| % 32 == 0
    decreases v, 1
  {
    if !IsComposite(t) {
      if IsDynamic(t) { BytesLayout(t, v.bytes); } else { StaticSize(t, v); }
    } else {
      var ts := Components(t, |v.items|);
      AllAreWords(ts, v.items);
      SumOfWords(32, |EncAll(ts, v.items)|);
    }
  }

  lemma {:induction false} AllAreWords(ts: seq<Type>, vs: seq<Value>)
    requires HaveShapes(ts, vs) && AllWellFormed(ts)
    ensures |EncAll(ts, vs)| % 32 == 0
    decreases vs, 1
  {
    HeadsSize(ts, vs, HeadSize(ts));
    HeadSizeIsWords(ts);
    TailsAreWords(ts, vs);
    SumOfWords(HeadSize(ts), |Tails(ts, vs)|);
  }

  lemma {:induction false} TailsAreWords(ts: seq<Type>, vs: seq<Value>)
    requires HaveShapes(ts, vs) && AllWellFormed(ts)
    ensures |Tails(ts, vs)| % 32 == 0
    decreases vs, 0
  {
    if ts == [] {
    } else {
      if IsDynamic(ts[0]) { EncIsWords(ts[0], vs[0]); }
      TailsAreWords(ts[1..], vs[1..]);
      SumOfWords(|Tail(ts[0], vs[0])|, |Tails(ts[1..], vs[1..])|);
    }
  }

  lemma SumOfWords(a: nat, b: nat)
    requires a % 32 == 0 && b % 32 == 0
    ensures (a + b) % 32 == 0
  {
  }

  // ----- reading any word -----

  /** A number read from any word, written again, has the bytes it was read from:
      all of them, or the low ones of a machine integer. */
  lemma ReadIsWritten(t: Type, b: Bytes)
    requires (t.IntT? || t.UintT?) && |b| == 32
    ensures var w, n := Word(ReadInteger(t, b)), if IsMachineSize(t.size) then 32 - t.size / 8 else 0;
            w[n..] == b[n..]
  {
    var r := ReadInteger(t, b);
    if IsMachineSize(t.size) {
      var n := 32 - t.size / 8;
      NarrowRead(r, t.size);
      NarrowPower(t.size);
      FromBEBound(b[n..]);
      SameResidue(r, FromBE(b[n..]), HalfRange(t.size));
      FromBETells(Word(r)[n..], b[n..]);
    } else {
      PowersOf256();
      FromBEBound(b);
      WordRoundTrip(r);
      SameResidue(r, FromBE(b), TT255);
      FromBETells(Word(r), b);
    }
  }

  lemma SameResidue(r: int, u: nat, half: int)
    requires half > 0 && u < 2 * half && (r == u || r == u - 2 * half)
    ensures r % (2 * half) == u
  {
    if r == u { ModUnique(r, 2 * half, 0, u); } else { ModUnique(r, 2 * half, -1, u); }
  }

  /** What the other leaves take from any word: bytes by place; a boolean only from
      the numbers 0 and 1, and a function only if its last eight bytes are zero. */
  lemma LeafReads(index: nat, t: Type, output: Bytes)
    requires index + 32 <= |output| && WellFormed(t) && !IsComposite(t) && !IsDynamic(t) && !t.IntT? && !t.UintT?
    ensures var r, word := Decode(index, t, output), output[index..index + 32];
            match t
            case BoolT =>
              && (r.Ok? <==> FromBE(word) <= 1)
              && (r.Ok? ==> r.value.Bool? && FromBE(word) == if r.value.b then 1 else 0)
              && (r.Err? ==> r.error == BadBool)
            case AddressT => r == Ok(Raw(word[12..]))
            case FixedBytesT(size) => r == Ok(Raw(word[..size]))
            case FunctionT =>
              && (r.Ok? <==> AreZero(word, 24, 32))
              && (r.Ok? ==> r.value == Raw(word[..24]))
              && (r.Err? ==> r.error == BadFunction)
            case _ => false
  {
    var word := output[index..index + 32];
    if t.BoolT? {
      SmallWordTells(word, 0);
      SmallWordTells(word, 1);
      BoolReads(word);
    } else if t.FunctionT? {
      ZeroPadding(8);
      if AreZero(word, 24, 32) { assert word[24..32] == Zeros(8); }
      if FromBE(word[24..32]) == 0 { FromBETells(word[24..32], Zeros(8)); }
      assert forall i :: 24 <= i < 32 ==> word[i] == word[24..32][i - 24];
    }
  }

  lemma BoolReads(word: Bytes)
    requires |word| == 32
    ensures ReadBool(word).Ok? <==> word == Word(0) || word == Word(1)
    ensures ReadBool(word).Ok? ==> ReadBool(word).value == Bool(word == Word(1))
  {
    BoolWord(true);
    BoolWord(false);
    if ReadBool(word).Ok? { assert word == Zeros(31) + [word[31]]; }
  }

  /** Where a length prefix leads, and which error it gives when it leads nowhere. */
  lemma PrefixReads(index: nat, output: Bytes)
    requires index + 32 <= |output| < TT63
    ensures var r, end := LengthPrefixPointsTo(index, output), FromBE(output[index..index + 32]) + 32;
            if end > |output| then r == Err(OffsetOverBoundary)
            else
              var n := FromBE(output[end - 32..end]);
              if end + n <= |output| then r == Ok((end, n))
              else r == Err(if end + n < TT63 then LengthInsufficient else LengthTooLarge)
  {
  }

  /** And an offset to a tuple. */
  lemma TupleReads(index: nat, output: Bytes)
    requires index + 32 <= |output| < TT63
    ensures var r, offset := TuplePointsTo(index, output), FromBE(output[index..index + 32]);
            r == if offset <= |output| then Ok(offset) else Err(OffsetOverBoundary)
  {
  }
}
