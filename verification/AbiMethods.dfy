/** The loops of accounts/abi: packing with a running offset, unpacking with
    virtual argument counts, each proved against the codec's functions. */
module AbiMethods {
  import opened Common
  import opened Words
  import opened AbiTypes
  import opened AbiCodec
  import opened AbiRoundTrip

  datatype Argument = Argument(ty: Type, indexed: bool)

  // ----- packing -----

  /** packNum: through U256 and the padded big-endian bytes. */
  method PackNum(n: int) returns (r: Bytes)
    ensures r == Word(n)
  {
    r := U256Bytes(n);
  }

  /** packElement in the form of the source. */
  method PackLeaf(t: Type, v: Value) returns (r: Bytes)
    requires HasShape(t, v) && !IsComposite(t)
    ensures r == PackElement(t, v)
  {
    if t.BoolT? {
      PowersOf256();
      r := PaddedBigBytes(WordsOf(if v.b then 1 else 0), 32);
      FitsPadding(if v.b then 1 else 0, 32);
    } else if t.IntT? || t.UintT? {
      r := PackNum(v.n);
    } else if t.StringT? || t.BytesT? {
      var len := PackNum(|v.bytes|);
      r := len + RightPad(v.bytes, (|v.bytes| + 31) / 32 * 32);
    } else if t.AddressT? {
      r := LeftPad(v.bytes, 32);
    } else {
      r := RightPad(v.bytes, 32);
    }
  }

  lemma ShapesSnoc(ts: seq<Type>, vs: seq<Value>, t: Type, v: Value)
    requires HaveShapes(ts, vs) && HasShape(t, v)
    ensures HaveShapes(ts + [t], vs + [v])
  {
  }

  lemma {:induction false} TailsSnoc(ts: seq<Type>, vs: seq<Value>, t: Type, v: Value)
    requires HaveShapes(ts, vs) && HasShape(t, v) && HaveShapes(ts + [t], vs + [v])
    ensures Tails(ts + [t], vs + [v]) == Tails(ts, vs) + Tail(t, v)
    decreases |ts|
  {
    assert ts != [] ==> (ts + [t])[1..] == ts[1..] + [t] && (vs + [v])[1..] == vs[1..] + [v];
    if ts == [] {
    } else {
      TailsSnoc(ts[1..], vs[1..], t, v);
    }
  }

  /** One more component at the end of the heads. */
  lemma {:induction false} HeadsSnoc(ts: seq<Type>, vs: seq<Value>, t: Type, v: Value, offset: nat)
    requires HaveShapes(ts, vs) && HasShape(t, v) && HaveShapes(ts + [t], vs + [v])
    ensures Heads(ts + [t], vs + [v], offset) == Heads(ts, vs, offset) + Head(t, v, offset + |Tails(ts, vs)|)
    decreases |ts|
  {
    assert ts != [] ==> (ts + [t])[1..] == ts[1..] + [t] && (vs + [v])[1..] == vs[1..] + [v];
    if ts == [] {
    } else {
      var rest := offset + |Tail(ts[0], vs[0])|;
      HeadsSnoc(ts[1..], vs[1..], t, v, rest);
      assert rest + |Tails(ts[1..], vs[1..])| == offset + |Tails(ts, vs)|;
    }
  }

  /** The state of a packing loop after some components. */
  ghost predicate PackedSoFar(prefix: Bytes, ts: seq<Type>, vs: seq<Value>, ret: Bytes, tail: Bytes, start: nat)
  {
    HaveShapes(ts, vs) && ret == prefix + Heads(ts, vs, start) && tail == Tails(ts, vs)
  }

  /** One step of every packing loop. */
  lemma PackStep(prefix: Bytes, ts: seq<Type>, vs: seq<Value>, i: nat, ret: Bytes, tail: Bytes, start: nat)
    requires i < |ts| == |vs| && HasShape(ts[i], vs[i])
    requires PackedSoFar(prefix, ts[..i], vs[..i], ret, tail, start)
    ensures PackedSoFar(prefix, ts[..i + 1], vs[..i + 1], ret + Head(ts[i], vs[i], start + |tail|),
                        tail + Tail(ts[i], vs[i]), start)
  {
    assert ts[..i + 1] == ts[..i] + [ts[i]] && vs[..i + 1] == vs[..i] + [vs[i]];
    PackOne(prefix, ts[..i], vs[..i], ts[i], vs[i], ret, tail, start);
  }

  lemma PackOne(prefix: Bytes, ts: seq<Type>, vs: seq<Value>, t: Type, v: Value, ret: Bytes, tail: Bytes, start: nat)
    requires PackedSoFar(prefix, ts, vs, ret, tail, start) && HasShape(t, v)
    ensures PackedSoFar(prefix, ts + [t], vs + [v], ret + Head(t, v, start + |tail|), tail + Tail(t, v), start)
  {
    ShapesSnoc(ts, vs, t, v);
    TailsSnoc(ts, vs, t, v);
    HeadsSnoc(ts, vs, t, v, start);
    Regrouped(prefix, Heads(ts, vs, start), Head(t, v, start + |tail|));
  }

  lemma Regrouped(a: Bytes, b: Bytes, c: Bytes)
    ensures a + b + c == a + (b + c)
  {
  }

  lemma StaticStep(prefix: Bytes, ts: seq<Type>, vs: seq<Value>, i: nat, ret: Bytes, tail: Bytes, start: nat,
                   val: Bytes)
    requires i < |ts| == |vs| && HasShape(ts[i], vs[i]) && !IsDynamic(ts[i])
    ensures PackedSoFar(prefix, ts[..i], vs[..i], ret, tail, start) && val == Enc(ts[i], vs[i]) ==>
              PackedSoFar(prefix, ts[..i + 1], vs[..i + 1], ret + val, tail, start)
  {
    if PackedSoFar(prefix, ts[..i], vs[..i], ret, tail, start) && val == Enc(ts[i], vs[i]) {
      PackStep(prefix, ts, vs, i, ret, tail, start);
      assert tail + Tail(ts[i], vs[i]) == tail;
    }
  }

  lemma DynamicStep(prefix: Bytes, ts: seq<Type>, vs: seq<Value>, i: nat, ret: Bytes, tail: Bytes, start: nat,
                    val: Bytes, offset: nat)
    requires i < |ts| == |vs| && HasShape(ts[i], vs[i]) && IsDynamic(ts[i])
    ensures && PackedSoFar(prefix, ts[..i], vs[..i], ret, tail, start) && val == Enc(ts[i], vs[i])
            && offset == start + |tail| ==>
              PackedSoFar(prefix, ts[..i + 1], vs[..i + 1], ret + Word(offset), tail + val, start)
  {
    if PackedSoFar(prefix, ts[..i], vs[..i], ret, tail, start) && val == Enc(ts[i], vs[i]) {
      PackStep(prefix, ts, vs, i, ret, tail, start);
    }
  }

  /** The end of a packing loop. */
  lemma PackDone(t: Type, v: Value, prefix: Bytes, ret: Bytes, tail: Bytes)
    requires IsComposite(t) && v.List? && |v.items| < TT63 && (t.ArrayT? ==> |v.items| == t.len)
    requires prefix == if t.SliceT? then Word(|v.items|) else []
    requires var ts := Components(t, |v.items|);
             PackedSoFar(prefix, ts[..|ts|], v.items[..|v.items|], ret, tail, HeadSize(ts))
    ensures HasShape(t, v)
    ensures Enc(t, v) == ret + tail
  {
    var ts := Components(t, |v.items|);
    assert ts[..|ts|] == ts && v.items[..|v.items|] == v.items;
    assert HasShape(t, v);
  }

  /** Type.pack. */
  method PackType(t: Type, v: Value) returns (r: Result<Bytes>)
    ensures r == if HasShape(t, v) then Ok(Enc(t, v)) else Err(TypeMismatch)
    decreases v, 0
  {
    if !IsComposite(t) {
      if !HasShape(t, v) {
        return Err(TypeMismatch);
      }
      var bytes := PackLeaf(t, v);
      return Ok(bytes);
    }
    if !v.List? || |v.items| >= TT63 || (t.ArrayT? && |v.items| != t.len) || (t.TupleT? && |v.items| != |t.elems|) {
      return Err(TypeMismatch);
    }
    if t.TupleT? {
      r := PackFields(t, v);
    } else {
      r := PackElements(t, v);
    }
  }

  /** The slice and array case. */
  method PackElements(t: Type, v: Value) returns (r: Result<Bytes>)
    requires (t.SliceT? || t.ArrayT?) && v.List? && |v.items| < TT63 && (t.ArrayT? ==> |v.items| == t.len)
    ensures r == if HasShape(t, v) then Ok(Enc(t, v)) else Err(TypeMismatch)
    decreases v.items, 1
  {
    var ret: Bytes := [];
    if t.SliceT? {
      ret := PackNum(|v.items|);
    }
    assert Components(t, |v.items|) == Repeat(t.elem, |v.items|);
    r := PackRepeated(t.elem, v.items, ret);
  }

  /** Its loop: one element type, one offset requirement. */
  method PackRepeated(elem: Type, vs: seq<Value>, prefix: Bytes) returns (r: Result<Bytes>)
    requires |vs| < TT63
    ensures r.Ok? <==> HaveShapes(Repeat(elem, |vs|), vs)
    ensures r.Ok? ==> r.value == prefix + EncAll(Repeat(elem, |vs|), vs)
    ensures r.Err? ==> r.error == TypeMismatch
    decreases vs, 0
  {
    var ret: Bytes, tail: Bytes, offset := prefix, [], 0;
    ghost var ts := Repeat(elem, |vs|);
    var offsetReq := IsDynamic(elem);
    if offsetReq {
      offset := TypeSize(elem) * |vs|;
      assert offset == HeadSize(ts) by { HeadSizeOfRepeat(elem, |vs|); }
    }
    for i := 0 to |vs|
      invariant PackedSoFar(prefix, ts[..i], vs[..i], ret, tail, HeadSize(ts))
      invariant offsetReq ==> offset == HeadSize(ts) + |tail|
    {
      var val := PackType(elem, vs[i]);
      assert ts[i] == elem;
      if val.Err? {
        assert !HasShape(ts[i], vs[i]);
        return Err(TypeMismatch);
      }
      if !offsetReq {
        StaticStep(prefix, ts, vs, i, ret, tail, HeadSize(ts), val.value);
        ret := ret + val.value;
      } else {
        DynamicStep(prefix, ts, vs, i, ret, tail, HeadSize(ts), val.value, offset);
        var num := PackNum(offset);
        ret := ret + num;
        offset := offset + |val.value|;
        tail := tail + val.value;
      }
    }
    AllPacked(prefix, ts, vs, ret, tail);
    return Ok(ret + tail);
  }

  lemma AllPacked(prefix: Bytes, ts: seq<Type>, vs: seq<Value>, ret: Bytes, tail: Bytes)
    requires |ts| == |vs| && PackedSoFar(prefix, ts[..|ts|], vs[..|vs|], ret, tail, HeadSize(ts))
    ensures HaveShapes(ts, vs) && ret + tail == prefix + EncAll(ts, vs)
  {
    assert ts[..|ts|] == ts && vs[..|vs|] == vs;
    Regrouped(prefix, Heads(ts, vs, HeadSize(ts)), tail);
  }

  /** The tuple case: every field has its own type. */
  method PackFields(t: Type, v: Value) returns (r: Result<Bytes>)
    requires t.TupleT? && v.List? && |v.items| < TT63 && |v.items| == |t.elems|
    ensures r == if HasShape(t, v) then Ok(Enc(t, v)) else Err(TypeMismatch)
    decreases v.items, 0
  {
    var ts := t.elems;
    var offset := SumOfSizes(ts);
    var ret: Bytes, tail: Bytes := [], [];
    for i := 0 to |ts|
      invariant PackedSoFar([], ts[..i], v.items[..i], ret, tail, HeadSize(ts))
      invariant offset == HeadSize(ts) + |tail|
    {
      var val := PackType(ts[i], v.items[i]);
      if val.Err? {
        return Err(TypeMismatch);
      }
      if IsDynamic(ts[i]) {
        DynamicStep([], ts, v.items, i, ret, tail, HeadSize(ts), val.value, offset);
        var num := PackNum(offset);
        ret := ret + num;
        tail := tail + val.value;
        offset := offset + |val.value|;
      } else {
        StaticStep([], ts, v.items, i, ret, tail, HeadSize(ts), val.value);
        ret := ret + val.value;
      }
    }
    PackDone(t, v, [], ret, tail);
    return Ok(ret + tail);
  }

  method SumOfSizes(ts: seq<Type>) returns (total: nat)
    ensures total == HeadSize(ts)
  {
    total := 0;
    for i := 0 to |ts|
      invariant total + HeadSize(ts[i..]) == HeadSize(ts)
    {
      total := total + TypeSize(ts[i]);
      assert ts[i..][1..] == ts[i + 1..];
    }
  }

  /** Arguments.Pack. */
  method Pack(args: seq<Argument>, vs: seq<Value>) returns (r: Result<Bytes>)
    ensures |vs| != |args| ==> r == Err(ArgumentCountMismatch)
    ensures |vs| == |args| ==>
              r == if HaveShapes(Types(args), vs) then Ok(EncAll(Types(args), vs)) else Err(TypeMismatch)
  {
    if |vs| != |args| {
      return Err(ArgumentCountMismatch);
    }
    ghost var ts := Types(args);
    var inputOffset := SumOfSizes(Types(args));
    var ret: Bytes, variableInput: Bytes := [], [];
    for i := 0 to |args|
      invariant PackedSoFar([], ts[..i], vs[..i], ret, variableInput, HeadSize(ts))
      invariant inputOffset == HeadSize(ts) + |variableInput|
    {
      var packed := PackType(args[i].ty, vs[i]);
      if packed.Err? {
        assert !HasShape(ts[i], vs[i]);
        return Err(TypeMismatch);
      }
      if IsDynamic(args[i].ty) {
        DynamicStep([], ts, vs, i, ret, variableInput, HeadSize(ts), packed.value, inputOffset);
        var num := PackNum(inputOffset);
        ret := ret + num;
        inputOffset := inputOffset + |packed.value|;
        variableInput := variableInput + packed.value;
      } else {
        StaticStep([], ts, vs, i, ret, variableInput, HeadSize(ts), packed.value);
        ret := ret + packed.value;
      }
    }
    assert ts[..|ts|] == ts && vs[..|vs|] == vs;
    assert [] + Heads(ts, vs, HeadSize(ts)) == Heads(ts, vs, HeadSize(ts));
    return Ok(ret + variableInput);
  }

  function Types(args: seq<Argument>): (ts: seq<Type>)
    ensures |ts| == |args|
    ensures forall i :: 0 <= i < |args| ==> ts[i] == args[i].ty
  {
    seq(|args|, i requires 0 <= i < |args| => args[i].ty)
  }

  function NonIndexed(args: seq<Argument>): seq<Argument>
  {
    if args == [] then []
    else (if args[0].indexed then [] else [args[0]]) + NonIndexed(args[1..])
  }

  /** One argument after others is kept exactly if it is not indexed. */
  lemma {:induction false} NonIndexedSnoc(args: seq<Argument>, a: Argument)
    ensures NonIndexed(args + [a]) == NonIndexed(args) + if a.indexed then [] else [a]
  {
    if args == [] {
      assert args + [a] == [a];
    } else {
      NonIndexedSnoc(args[1..], a);
      NonIndexedCons(args[0], args[1..]);
      NonIndexedCons(args[0], args[1..] + [a]);
      assert args == [args[0]] + args[1..] && args + [a] == [args[0]] + (args[1..] + [a]);
    }
  }

  lemma NonIndexedCons(a: Argument, args: seq<Argument>)
    ensures NonIndexed([a] + args) == (if a.indexed then [] else [a]) + NonIndexed(args)
  {
    assert ([a] + args)[1..] == args;
  }

  /** NonIndexed, by its loop. */
  method DropIndexed(args: seq<Argument>) returns (ret: seq<Argument>)
    ensures ret == NonIndexed(args)
  {
    ret := [];
    for i := 0 to |args|
      invariant ret == NonIndexed(args[..i])
    {
      NonIndexedSnoc(args[..i], args[i]);
      assert args[..i + 1] == args[..i] + [args[i]];
      if !args[i].indexed {
        ret := ret + [args[i]];
      }
    }
    assert args[..|args|] == args;
  }

  // ----- unpacking -----

  /** The values read so far, followed by the rest. */
  ghost function After(done: seq<Value>, rest: Result<seq<Value>>): Result<seq<Value>>
  {
    if rest.Ok? then Ok(done + rest.value) else rest
  }

  lemma AfterNone(r: Result<seq<Value>>)
    ensures After([], r) == r
  {
    if r.Ok? { assert [] + r.value == r.value; }
  }

  lemma AfterAll(done: seq<Value>)
    ensures After(done, Ok([])) == Ok(done)
  {
    assert done + [] == done;
  }

  lemma AfterOne(done: seq<Value>, v: Value, rest: Result<seq<Value>>)
    ensures After(done, if rest.Ok? then Ok([v] + rest.value) else rest) == After(done + [v], rest)
  {
    if rest.Ok? { assert done + ([v] + rest.value) == done + [v] + rest.value; }
  }

  /** toGoType. */
  method ToGoType(index: nat, t: Type, output: Bytes) returns (r: Result<Value>)
    requires WellFormed(t)
    ensures r == Decode(index, t, output)
    decreases t, 0
  {
    if index + 32 > |output| {
      return Err(LengthInsufficient);
    }
    var returnOutput := output[index..index + 32];
    match t
    case TupleT(elems) =>
      var begin := if IsDynamic(t) then TuplePointsTo(index, output) else Ok(index);
      if begin.Err? {
        return Err(begin.error);
      }
      var vs := ForTupleUnpack(elems, output[begin.value..]);
      r := if vs.Ok? then Ok(List(vs.value)) else Err(vs.error);
    case SliceT(elem) =>
      var at := LengthPrefixPointsTo(index, output);
      if at.Err? {
        return Err(at.error);
      }
      r := ForEachUnpack(elem, output[at.value.0..], 0, at.value.1);
    case ArrayT(elem, len) =>
      if IsDynamic(elem) {
        var offset := FromBE(returnOutput[24..]);
        if offset > |output| {
          return Err(OffsetOverBoundary);
        }
        r := ForEachUnpack(elem, output[offset..], 0, len);
      } else {
        r := ForEachUnpack(elem, output[index..], 0, len);
      }
    case StringT =>
      r := ReadRaw(index, output);
    case BytesT =>
      r := ReadRaw(index, output);
    case IntT(_) =>
      r := Ok(Num(ReadInteger(t, returnOutput)));
    case UintT(_) =>
      r := Ok(Num(ReadInteger(t, returnOutput)));
    case BoolT =>
      r := ReadBoolWord(returnOutput);
    case AddressT =>
      r := Ok(Raw(returnOutput[12..]));
    case FixedBytesT(size) =>
      r := Ok(Raw(returnOutput[0..size]));
    case FunctionT =>
      r := ReadFunction(returnOutput);
  }

  /** The word at `index` is the offset of a word that is the length of `s`, and
      `s` follows it, all below 2^63. */
  ghost predicate PointsTo(output: Bytes, index: nat, s: Bytes)
    requires index + 32 <= |output|
  {
    var offset := FromBE(output[index..index + 32]);
    && offset + 32 + |s| <= |output| && offset + 32 + |s| < TT63
    && FromBE(output[offset..offset + 32]) == |s| && output[offset + 32..offset + 32 + |s|] == s
  }

  /** The bytes behind a length prefix: read exactly if there are such. */
  method ReadRaw(index: nat, output: Bytes) returns (r: Result<Value>)
    requires index + 32 <= |output|
    ensures r.Ok? ==> r.value.Raw? && PointsTo(output, index, r.value.bytes)
    ensures r.Ok? <==> exists s :: PointsTo(output, index, s)
    ensures r == Decode(index, StringT, output) == Decode(index, BytesT, output)
  {
    var at := LengthPrefixPointsTo(index, output);
    if at.Err? {
      return Err(at.error);
    }
    var s := output[at.value.0..at.value.0 + at.value.1];
    assert PointsTo(output, index, s);
    return Ok(Raw(s));
  }

  lemma BoolWords(word: Bytes)
    requires |word| == 32 && forall i :: 0 <= i < 31 ==> word[i] == 0
    ensures (word == Word(1) <==> word[31] == 1) && (word == Word(0) <==> word[31] == 0)
  {
    BoolWord(true);
    BoolWord(false);
    assert word == Zeros(31) + [word[31]];
  }

  lemma NotBoolWord(word: Bytes, i: nat)
    requires |word| == 32 && i < 31 && word[i] != 0
    ensures word != Word(1) && word != Word(0)
  {
    BoolWord(true);
    BoolWord(false);
  }

  /** readBool: a loop over the bytes that must be zero. */
  method ReadBoolWord(word: Bytes) returns (r: Result<Value>)
    requires |word| == 32
    ensures r == Ok(Bool(true)) <==> word == Word(1)
    ensures r == Ok(Bool(false)) <==> word == Word(0)
    ensures r.Err? ==> r.error == BadBool
    ensures r == ReadBool(word)
  {
    for i := 0 to 31
      invariant forall k :: 0 <= k < i ==> word[k] == 0
    {
      if word[i] != 0 {
        NotBoolWord(word, i);
        return Err(BadBool);
      }
    }
    BoolWords(word);
    if word[31] == 0 {
      return Ok(Bool(false));
    } else if word[31] == 1 {
      return Ok(Bool(true));
    } else {
      return Err(BadBool);
    }
  }

  /** forEachUnpack. */
  method ForEachUnpack(elem: Type, output: Bytes, start: nat, size: nat) returns (r: Result<Value>)
    requires WellFormed(elem)
    ensures ToInt64(start + 32 * size) > |output| ==> r == Err(LengthInsufficient)
    ensures ToInt64(start + 32 * size) <= |output| && start + 32 * size >= TT63 ==> r == Err(TooManyElements)
    ensures ToInt64(start + 32 * size) <= |output| && start + 32 * size < TT63 ==>
              var vs := DecodeRepeated(elem, size, output, start);
              r == if vs.Ok? then Ok(List(vs.value)) else Err(vs.error)
    decreases elem, 1
  {
    if ToInt64(start + 32 * size) > |output| {
      return Err(LengthInsufficient);
    }
    if start + 32 * size >= TT63 {
      return Err(TooManyElements);
    }
    var refSlice: seq<Value> := [];
    var elemSize := TypeSize(elem);
    var i, j := start, 0;
    AfterNone(DecodeRepeated(elem, size, output, start));
    while j < size
      invariant 0 <= j <= size
      invariant DecodeRepeated(elem, size, output, start) == After(refSlice, DecodeRepeated(elem, size - j, output, i))
    {
      var inter := ToGoType(i, elem, output);
      if inter.Err? {
        return Err(inter.error);
      }
      AfterOne(refSlice, inter.value, DecodeRepeated(elem, size - j - 1, output, i + elemSize));
      refSlice := refSlice + [inter.value];
      i, j := i + elemSize, j + 1;
    }
    AfterAll(refSlice);
    return Ok(List(refSlice));
  }

  /** The state of the loop: the rest is to be read from `at` on. */
  ghost predicate UnpackedSoFar(ts: seq<Type>, output: Bytes, index: nat, at: nat, done: seq<Value>)
    requires AllWellFormed(ts) && index <= |ts|
  {
    DecodeTuple(ts, output, 0) == After(done, DecodeTuple(ts[index..], output, at))
  }

  lemma UnpackStep(ts: seq<Type>, output: Bytes, index: nat, at: nat, done: seq<Value>, first: Result<Value>)
    requires AllWellFormed(ts) && index < |ts| && UnpackedSoFar(ts, output, index, at, done)
    requires first == Decode(at, ts[index], output)
    ensures first.Err? ==> DecodeTuple(ts, output, 0) == Err(first.error)
    ensures first.Ok? ==> UnpackedSoFar(ts, output, index + 1, at + TypeSize(ts[index]), done + [first.value])
  {
    assert ts[index..][1..] == ts[index + 1..];
    if first.Ok? {
      AfterOne(done, first.value, DecodeTuple(ts[index + 1..], output, at + TypeSize(ts[index])));
    }
  }

  /** forTupleUnpack. */
  method ForTupleUnpack(ts: seq<Type>, output: Bytes) returns (r: Result<seq<Value>>)
    requires AllWellFormed(ts)
    ensures r == DecodeTuple(ts, output, 0)
    decreases ts, 0
  {
    var retval: seq<Value> := [];
    var virtualArgs := 0;
    AfterNone(DecodeTuple(ts, output, 0));
    assert ts[0..] == ts;
    for index := 0 to |ts|
      invariant index + virtualArgs >= 0
      invariant UnpackedSoFar(ts, output, index, (index + virtualArgs) * 32, retval)
    {
      var elem := ts[index];
      SizeIsWords(elem);
      var marshalled := ToGoType((index + virtualArgs) * 32, elem, output);
      UnpackStep(ts, output, index, (index + virtualArgs) * 32, retval, marshalled);
      if marshalled.Err? {
        return Err(marshalled.error);
      }
      if elem.ArrayT? && !IsDynamic(elem) {
        virtualArgs := virtualArgs + (TypeSize(elem) / 32 - 1);
      } else if elem.TupleT? && !IsDynamic(elem) {
        virtualArgs := virtualArgs + (TypeSize(elem) / 32 - 1);
      }
      retval := retval + [marshalled.value];
    }
    AfterAll(retval);
    return Ok(retval);
  }

  /** UnpackValues: the same loop over the arguments that are not indexed. */
  method UnpackValues(args: seq<Argument>, data: Bytes) returns (r: Result<seq<Value>>)
    requires AllWellFormed(Types(args))
    ensures AllWellFormed(Types(NonIndexed(args)))
    ensures r == DecodeTuple(Types(NonIndexed(args)), data, 0)
  {
    NonIndexedAreWellFormed(args);
    var nonIndexed := DropIndexed(args);
    r := ForTupleUnpack(Types(nonIndexed), data);
  }

  lemma {:induction false} NonIndexedAreWellFormed(args: seq<Argument>)
    requires AllWellFormed(Types(args))
    ensures AllWellFormed(Types(NonIndexed(args)))
  {
    if args == [] {
    } else {
      assert forall i :: 0 <= i < |args| - 1 ==> Types(args[1..])[i] == Types(args)[i + 1];
      NonIndexedAreWellFormed(args[1..]);
    }
  }

  /** What Pack returns for the arguments that are not indexed, UnpackValues takes back
      to the values: exactly if there is room and the numbers are in range, and there
      is room unless an argument is static and empty. */
  lemma ArgumentsRoundTrip(args: seq<Argument>, vs: seq<Value>)
    requires AllWellFormed(Types(args))
    requires var ts := Types(NonIndexed(args)); HaveShapes(ts, vs) && |EncAll(ts, vs)| < TT63
    ensures var ts := Types(NonIndexed(args));
            && AllWellFormed(ts)
            && (DecodeTuple(ts, EncAll(ts, vs), 0) == Ok(vs) <==> ArgumentsHaveRoom(ts, vs) && AreInRange(ts, vs))
            && (AllSolid(ts) ==> ArgumentsHaveRoom(ts, vs))
  {
    var ts := Types(NonIndexed(args));
    NonIndexedAreWellFormed(args);
    RoundTripExactly(ts, vs);
    if AllSolid(ts) { SolidArgumentsHaveRoom(ts, vs); }
  }
}
