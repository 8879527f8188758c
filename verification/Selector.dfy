/** The selector parser of accounts/abi/selector_parser.go against the signature
    printed by accounts/abi/method.go from the type strings of accounts/abi/type.go. */
module Selectors {
  datatype Result<+T> = Ok(value: T) | Err

  /** What the parser returns before assembly: a type's text, or a tuple's parts. */
  datatype Node = Text(text: string) | Parts(parts: seq<Node>)

  /** ArgumentMarshaling; type and internal type are the same here. */
  datatype Arg = Arg(name: string, kind: string, components: seq<Arg>)

  datatype Selector = Selector(name: string, inputs: seq<Arg>)

  predicate IsDigit(c: char)
  {
    '0' <= c <= '9'
  }

  predicate IsAlpha(c: char)
  {
    'a' <= c <= 'z' || 'A' <= c <= 'Z'
  }

  predicate IsSymbol(c: char)
  {
    c == '$' || c == '_'
  }

  predicate StartsToken(c: char, isIdent: bool)
  {
    IsAlpha(c) || (isIdent && IsSymbol(c))
  }

  predicate ContinuesToken(c: char, isIdent: bool)
  {
    IsAlpha(c) || IsDigit(c) || (isIdent && IsSymbol(c))
  }

  // ----- the grammar as functions -----

  /** How many characters continue a token. */
  function Span(s: string, isIdent: bool): (n: nat)
    ensures n <= |s|
  {
    if s != [] && ContinuesToken(s[0], isIdent) then 1 + Span(s[1..], isIdent) else 0
  }

  function Digits(s: string): (n: nat)
    ensures n <= |s|
  {
    if s != [] && IsDigit(s[0]) then 1 + Digits(s[1..]) else 0
  }

  function Token(s: string, isIdent: bool): (r: Result<(string, string)>)
    ensures r.Ok? ==> |r.value.1| < |s|
  {
    if s == [] || !StartsToken(s[0], isIdent) then Err
    else
      var n := 1 + Span(s[1..], isIdent);
      Ok((s[..n], s[n..]))
  }

  /** Array suffixes: brackets around digits. */
  function Suffixes(s: string): (r: Result<(string, string)>)
    ensures r.Ok? ==> |r.value.1| <= |s|
    decreases |s|
  {
    if s == [] || s[0] != '[' then Ok(("", s))
    else
      var n := 1 + Digits(s[1..]);
      if n == |s| || s[n] != ']' then Err
      else
        var r := Suffixes(s[n + 1..]);
        if r.Err? then Err else Ok((s[..n + 1] + r.value.0, r.value.1))
  }

  function Elementary(s: string): (r: Result<(Node, string)>)
    ensures r.Ok? ==> |r.value.1| < |s|
  {
    var t := Token(s, false);
    if t.Err? then Err
    else
      var x := Suffixes(t.value.1);
      if x.Err? then Err else Ok((Text(t.value.0 + x.value.0), x.value.1))
  }

  function TypeOf(s: string): (r: Result<(Node, string)>)
    ensures r.Ok? ==> |r.value.1| < |s|
    decreases |s|, 1
  {
    if s == [] then Err
    else if s[0] == '(' then
      var c := Composite(s);
      if c.Err? then Err else Ok((Parts(c.value.0), c.value.1))
    else Elementary(s)
  }

  /** The types that follow the first, each after one character. */
  function More(s: string): (r: Result<(seq<Node>, string)>)
    ensures r.Ok? ==> |r.value.1| <= |s| && (r.value.1 == [] || r.value.1[0] == ')')
    decreases |s|, 2
  {
    if s == [] || s[0] == ')' then Ok(([], s))
    else
      var t := TypeOf(s[1..]);
      if t.Err? then Err
      else
        var r := More(t.value.1);
        if r.Err? then Err else Ok(([t.value.0] + r.value.0, r.value.1))
  }

  /** A parenthesised list; a tuple array is marked by an extra part. */
  function Composite(s: string): (r: Result<(seq<Node>, string)>)
    requires s != []
    ensures r.Ok? ==> |r.value.1| < |s|
    decreases |s|, 0
  {
    if s[0] != '(' then Err
    else
      var t := TypeOf(s[1..]);
      if t.Err? then Err
      else
        var m := More(t.value.1);
        if m.Err? || m.value.1 == [] then Err
        else Ok(Closed([t.value.0] + m.value.0, m.value.1))
  }

  function Closed(parts: seq<Node>, rest: string): (r: (seq<Node>, string))
    requires rest != []
    ensures |r.1| < |rest|
  {
    if |rest| >= 3 && rest[1] == '[' && rest[2] == ']' then (parts + [Text("[]")], rest[3..]) else (parts, rest[1..])
  }

  function Decimal(n: nat): string
  {
    if n < 10 then [('0' as int + n) as char] else Decimal(n / 10) + [('0' as int + n % 10) as char]
  }

  function NameOf(i: nat): string
  {
    "name" + Decimal(i)
  }

  /** assembleArgs, from argument number i on. */
  function Assembled(nodes: seq<Node>, i: nat): (args: seq<Arg>)
    ensures |args| == |nodes|
    decreases nodes
  {
    if nodes == [] then [] else [AssembledOne(nodes[0], i)] + Assembled(nodes[1..], i + 1)
  }

  function AssembledOne(node: Node, i: nat): Arg
    decreases node
  {
    match node
    case Text(s) => Arg(NameOf(i), s, [])
    case Parts(parts) => TupleArg(NameOf(i), Assembled(parts, 0))
  }

  function TupleArg(name: string, args: seq<Arg>): Arg
  {
    if args != [] && args[|args| - 1].kind == "[]" then Arg(name, "tuple[]", args[..|args| - 1])
    else Arg(name, "tuple", args)
  }

  function Parsed(s: string): Result<Selector>
    requires Token(s, true).Ok? ==> Token(s, true).value.1 != []
  {
    var t := Token(s, true);
    if t.Err? then Err
    else
      var rest := t.value.1;
      if |rest| >= 2 && rest[..2] == "()" then
        if |rest| > 2 then Err else Ok(Selector(t.value.0, []))
      else
        var c := Composite(rest);
        if c.Err? || c.value.1 != [] then Err else Ok(Selector(t.value.0, Assembled(c.value.0, 0)))
  }

  // ----- types and their strings -----

  /** An elementary type or a tuple, with array suffixes. */
  datatype Ty = Elem(base: string, dims: seq<string>) | Tuple(elems: seq<Ty>, dims: seq<string>)

  predicate IsWord(s: string, isIdent: bool)
  {
    s != [] && StartsToken(s[0], isIdent) && forall i :: 0 <= i < |s| ==> ContinuesToken(s[i], isIdent)
  }

  predicate IsNumeral(s: string)
  {
    forall i :: 0 <= i < |s| ==> IsDigit(s[i])
  }

  predicate AreNumerals(dims: seq<string>)
  {
    forall i :: 0 <= i < |dims| ==> IsNumeral(dims[i])
  }

  /** Names and numbers are spelled as such. */
  predicate IsWellNamed(t: Ty)
  {
    match t
    case Elem(base, dims) => IsWord(base, false) && base != "tuple" && AreNumerals(dims)
    case Tuple(elems, dims) => AreNumerals(dims) && forall i :: 0 <= i < |elems| ==> IsWellNamed(elems[i])
  }

  predicate AreWellNamed(ts: seq<Ty>)
  {
    forall i :: 0 <= i < |ts| ==> IsWellNamed(ts[i])
  }

  /** What the parser can read: no empty tuple, and no array of tuples but a slice. */
  predicate IsParsable(t: Ty)
  {
    t.Tuple? ==>
      && t.elems != [] && (t.dims == [] || t.dims == [""])
      && forall i :: 0 <= i < |t.elems| ==> IsParsable(t.elems[i])
  }

  predicate AreParsable(ts: seq<Ty>)
  {
    forall i :: 0 <= i < |ts| ==> IsParsable(ts[i])
  }

  function Brackets(dims: seq<string>): string
  {
    if dims == [] then [] else "[" + dims[0] + "]" + Brackets(dims[1..])
  }

  /** The canonical string of a type, as NewType builds it. */
  function Printed(t: Ty): string
    decreases t
  {
    match t
    case Elem(base, dims) => base + Brackets(dims)
    case Tuple(elems, dims) => "(" + Joined(elems) + ")" + Brackets(dims)
  }

  function Joined(ts: seq<Ty>): string
    decreases ts
  {
    if ts == [] then [] else Printed(ts[0]) + Following(ts[1..])
  }

  function Following(ts: seq<Ty>): string
    decreases ts
  {
    if ts == [] then [] else "," + Printed(ts[0]) + Following(ts[1..])
  }

  /** The signature NewMethod builds. */
  function Signature(name: string, inputs: seq<Ty>): string
  {
    name + "(" + Joined(inputs) + ")"
  }

  function NodeOf(t: Ty): Node
    decreases t
  {
    match t
    case Elem(base, dims) => Text(base + Brackets(dims))
    case Tuple(elems, dims) => Parts(NodesOf(elems) + if dims == [] then [] else [Text("[]")])
  }

  function NodesOf(ts: seq<Ty>): (r: seq<Node>)
    ensures |r| == |ts|
    decreases ts
  {
    if ts == [] then [] else [NodeOf(ts[0])] + NodesOf(ts[1..])
  }

  // ----- parsing undoes printing -----

  /** A text in front of what is parsed after it. */
  ghost function Before(done: string, r: Result<(string, string)>): Result<(string, string)>
  {
    if r.Err? then Err else Ok((done + r.value.0, r.value.1))
  }

  lemma {:induction false} SpanStops(w: string, rest: string, isIdent: bool)
    requires forall i :: 0 <= i < |w| ==> ContinuesToken(w[i], isIdent)
    requires rest == [] || !ContinuesToken(rest[0], isIdent)
    ensures Span(w + rest, isIdent) == |w|
  {
    if w == [] {
      assert w + rest == rest;
    } else {
      assert (w + rest)[1..] == w[1..] + rest;
      SpanStops(w[1..], rest, isIdent);
    }
  }

  lemma TokenStops(w: string, rest: string, isIdent: bool)
    requires IsWord(w, isIdent) && (rest == [] || !ContinuesToken(rest[0], isIdent))
    ensures Token(w + rest, isIdent) == Ok((w, rest))
  {
    var s := w + rest;
    assert s[1..] == w[1..] + rest;
    SpanStops(w[1..], rest, isIdent);
    assert s[..|w|] == w && s[|w|..] == rest;
  }

  lemma {:induction false} DigitsStop(w: string, rest: string)
    requires IsNumeral(w) && (rest == [] || !IsDigit(rest[0]))
    ensures Digits(w + rest) == |w|
  {
    if w == [] {
      assert w + rest == rest;
    } else {
      assert (w + rest)[1..] == w[1..] + rest;
      DigitsStop(w[1..], rest);
    }
  }

  lemma SuffixesStep(d: string, more: string, s: string)
    requires IsNumeral(d) && s == "[" + (d + ("]" + more))
    ensures Suffixes(s) == Before("[" + d + "]", Suffixes(more))
  {
    var n := 1 + |d|;
    assert s[1..] == d + ("]" + more);
    DigitsStop(d, "]" + more);
    assert s[n] == ']' && s[n + 1..] == more;
    assert s[..n + 1] == "[" + d + "]";
  }

  lemma {:induction false} SuffixesStop(dims: seq<string>, rest: string)
    requires AreNumerals(dims)
    requires rest == [] || rest[0] != '['
    ensures Suffixes(Brackets(dims) + rest) == Ok((Brackets(dims), rest))
  {
    if dims == [] {
      assert Brackets(dims) + rest == rest;
    } else {
      SuffixesStop(dims[1..], rest);
      SpreadBrackets(dims, rest);
      SuffixesStep(dims[0], Brackets(dims[1..]) + rest, Brackets(dims) + rest);
    }
  }

  lemma SpreadBrackets(dims: seq<string>, k: string)
    requires dims != []
    ensures Brackets(dims) + k == "[" + (dims[0] + ("]" + (Brackets(dims[1..]) + k)))
  {
  }

  /** What follows a type in a signature. */
  predicate Stops(k: string)
  {
    k != [] && (k[0] == ',' || k[0] == ')')
  }

  lemma ElementaryRoundTrip(base: string, dims: seq<string>, k: string)
    requires IsWord(base, false) && Stops(k) && AreNumerals(dims)
    ensures TypeOf(base + Brackets(dims) + k) == Ok((Text(base + Brackets(dims)), k))
  {
    var s := base + Brackets(dims) + k;
    assert s == base + (Brackets(dims) + k);
    TokenStops(base, Brackets(dims) + k, false);
    SuffixesStop(dims, k);
    assert s[0] == base[0] != '(';
  }

  lemma Regroup3(a: string, b: string, c: string)
    ensures a + b + c == a + (b + c)
  {
  }

  lemma Regroup(a: string, b: string, c: string, d: string)
    ensures a + b + c + d == a + (b + (c + d))
  {
  }

  /** A type printed in front of a comma or parenthesis is read back. */
  lemma {:induction false} TypeRoundTrip(t: Ty, k: string)
    requires IsWellNamed(t) && IsParsable(t) && Stops(k)
    ensures TypeOf(Printed(t) + k) == Ok((NodeOf(t), k))
    decreases t, 1
  {
    match t
    case Elem(base, dims) => ElementaryRoundTrip(base, dims, k);
    case Tuple(elems, dims) =>
      var after := Brackets(dims) + k;
      CompositeRoundTrip(elems, after);
      Regroup("(" + Joined(elems), ")", Brackets(dims), k);
      ClosedAt(NodesOf(elems), dims, k);
  }

  lemma ClosedAt(parts: seq<Node>, dims: seq<string>, k: string)
    requires Stops(k) && (dims == [] || dims == [""])
    ensures Closed(parts, ")" + (Brackets(dims) + k)) == (parts + (if dims == [] then [] else [Text("[]")]), k)
  {
    var rest := ")" + (Brackets(dims) + k);
    assert Brackets([""]) == "[]";
    assert dims != [] ==> rest[1] == '[' && rest[2] == ']' && rest[3..] == k;
    assert dims == [] ==> rest[1] == k[0] && rest[1..] == k;
    assert parts + [] == parts;
  }

  lemma AfterFirst(c: string, a: string, b: string, k: string)
    requires |c| == 1
    ensures (c + (a + b) + k)[1..] == a + (b + k)
  {
  }

  lemma {:induction false} CompositeRoundTrip(ts: seq<Ty>, after: string)
    requires ts != [] && AreWellNamed(ts) && AreParsable(ts)
    ensures Composite("(" + Joined(ts) + (")" + after)) == Ok(Closed(NodesOf(ts), ")" + after))
    decreases ts, 0
  {
    var s := "(" + Joined(ts) + (")" + after);
    var k := Following(ts[1..]) + (")" + after);
    AfterFirst("(", Printed(ts[0]), Following(ts[1..]), ")" + after);
    FollowingStops(ts[1..], after);
    TypeRoundTrip(ts[0], k);
    MoreRoundTrip(ts[1..], after);
    CompositeIs(s, NodeOf(ts[0]), k, NodesOf(ts[1..]), ")" + after);
  }

  lemma CompositeIs(s: string, first: Node, k: string, others: seq<Node>, rest: string)
    requires s != [] && s[0] == '(' && rest != []
    requires TypeOf(s[1..]) == Ok((first, k)) && More(k) == Ok((others, rest))
    ensures Composite(s) == Ok(Closed([first] + others, rest))
  {
  }

  lemma FollowingStops(ts: seq<Ty>, after: string)
    ensures Stops(Following(ts) + (")" + after))
  {
  }

  lemma {:induction false} MoreRoundTrip(ts: seq<Ty>, after: string)
    requires AreWellNamed(ts) && AreParsable(ts)
    ensures More(Following(ts) + (")" + after)) == Ok((NodesOf(ts), ")" + after))
    decreases ts, 0
  {
    var s := Following(ts) + (")" + after);
    if ts == [] {
      assert s == ")" + after;
    } else {
      var k := Following(ts[1..]) + (")" + after);
      assert s[0] == ',' && s[1..] == Printed(ts[0]) + k;
      FollowingStops(ts[1..], after);
      TypeRoundTrip(ts[0], k);
      MoreRoundTrip(ts[1..], after);
    }
  }

  // ----- assembly -----

  /** The arguments a type tree stands for. */
  function ArgOf(t: Ty, i: nat): Arg
    decreases t
  {
    match t
    case Elem(base, dims) => Arg(NameOf(i), base + Brackets(dims), [])
    case Tuple(elems, dims) => Arg(NameOf(i), "tuple" + Brackets(dims), ArgsOf(elems, 0))
  }

  function ArgsOf(ts: seq<Ty>, i: nat): (r: seq<Arg>)
    ensures |r| == |ts|
    decreases ts
  {
    if ts == [] then [] else [ArgOf(ts[0], i)] + ArgsOf(ts[1..], i + 1)
  }

  lemma {:induction false} AssembledSnoc(nodes: seq<Node>, node: Node, i: nat)
    ensures Assembled(nodes + [node], i) == Assembled(nodes, i) + [AssembledOne(node, i + |nodes|)]
    decreases |nodes|
  {
    if nodes == [] {
      assert nodes + [node] == [node];
    } else {
      assert (nodes + [node])[1..] == nodes[1..] + [node];
      AssembledSnoc(nodes[1..], node, i + 1);
    }
  }

  /** No argument of a type tree is the marker of a tuple slice. */
  lemma {:induction false} NoMarker(ts: seq<Ty>, i: nat)
    requires AreWellNamed(ts) && ts != []
    ensures ArgsOf(ts, i)[|ts| - 1].kind != "[]"
  {
    if |ts| > 1 {
      NoMarker(ts[1..], i + 1);
    } else {
      assert ts[0].Elem? ==> ArgOf(ts[0], i).kind[0] == ts[0].base[0];
      assert ts[0].Tuple? ==> ArgOf(ts[0], i).kind[0] == 't';
    }
  }

  lemma {:induction false} AssemblyRoundTrip(t: Ty, i: nat)
    requires IsWellNamed(t) && IsParsable(t)
    ensures AssembledOne(NodeOf(t), i) == ArgOf(t, i)
    decreases t
  {
    if t.Tuple? {
      AssembliesRoundTrip(t.elems, 0);
      NoMarker(t.elems, 0);
      var args := ArgsOf(t.elems, 0);
      assert "tuple" + Brackets([""]) == "tuple[]" && "tuple" + Brackets([]) == "tuple";
      if t.dims != [] {
        AssembledSnoc(NodesOf(t.elems), Text("[]"), 0);
        assert (args + [Arg(NameOf(|args|), "[]", [])])[..|args|] == args;
      } else {
        assert NodesOf(t.elems) + [] == NodesOf(t.elems);
      }
    }
  }

  lemma {:induction false} AssembliesRoundTrip(ts: seq<Ty>, i: nat)
    requires AreWellNamed(ts) && AreParsable(ts)
    ensures Assembled(NodesOf(ts), i) == ArgsOf(ts, i)
    decreases ts
  {
    if ts == [] {
    } else {
      AssemblyRoundTrip(ts[0], i);
      AssembliesRoundTrip(ts[1..], i + 1);
    }
  }

  // ----- main results -----

  /** Parsing the signature of a method gives its name and type tree back if the
      types can be read, and fails if not. */
  lemma SelectorRoundTrip(name: string, inputs: seq<Ty>)
    requires IsWord(name, true) && AreWellNamed(inputs)
    ensures Token(Signature(name, inputs), true) == Ok((name, "(" + Joined(inputs) + ")"))
    ensures Parsed(Signature(name, inputs)) ==
              if AreParsable(inputs) then Ok(Selector(name, ArgsOf(inputs, 0))) else Err
  {
    var rest := "(" + Joined(inputs) + ")";
    assert Signature(name, inputs) == name + rest;
    TokenStops(name, rest, true);
    if inputs == [] {
      assert rest == "()";
    } else {
      assert "(" + Joined(inputs) + (")" + []) == rest;
      NotEmptyList(inputs);
      ParsedIs(Signature(name, inputs), name, rest);
      if AreParsable(inputs) {
        CompositeRoundTrip(inputs, []);
        assert Closed(NodesOf(inputs), ")" + []) == (NodesOf(inputs), []);
        AssembliesRoundTrip(inputs, 0);
      } else {
        CompositeRejected(inputs, []);
      }
    }
  }

  lemma ParsedIs(s: string, name: string, rest: string)
    requires Token(s, true) == Ok((name, rest)) && |rest| >= 2 && rest[1] != ')'
    ensures var c := Composite(rest);
            Parsed(s) == if c.Err? || c.value.1 != [] then Err else Ok(Selector(name, Assembled(c.value.0, 0)))
  {
  }

  // ----- what cannot be read is rejected -----

  /** An error, or brackets left over that nothing can read. */
  predicate IsRejected(r: Result<(Node, string)>)
  {
    r.Err? || IsLeftOver(r.value.1)
  }

  predicate IsLeftOver(s: string)
  {
    |s| > 1 && s[0] == '[' && (IsDigit(s[1]) || s[1] == ']')
  }

  /** Two dimensions or a fixed one stay behind a tuple. */
  lemma ClosedLeaves(parts: seq<Node>, dims: seq<string>, k: string)
    requires AreNumerals(dims) && dims != [] && dims != [""]
    ensures IsLeftOver(Closed(parts, ")" + (Brackets(dims) + k)).1)
  {
  }

  lemma {:induction false} TypeRejected(t: Ty, k: string)
    requires IsWellNamed(t) && !IsParsable(t)
    ensures IsRejected(TypeOf(Printed(t) + k))
    decreases t, 1
  {
    var after := Brackets(t.dims) + k;
    Regroup("(" + Joined(t.elems), ")", Brackets(t.dims), k);
    if t.elems == [] || !AreParsable(t.elems) {
      CompositeRejected(t.elems, after);
    } else {
      CompositeRoundTrip(t.elems, after);
      ClosedLeaves(NodesOf(t.elems), t.dims, k);
    }
  }

  lemma {:induction false} CompositeRejected(ts: seq<Ty>, after: string)
    requires AreWellNamed(ts) && (ts == [] || !AreParsable(ts))
    ensures Composite("(" + Joined(ts) + (")" + after)).Err?
    decreases ts, 1
  {
    var s := "(" + Joined(ts) + (")" + after);
    if ts == [] {
      assert s[1..] == ")" + after;
      assert TypeOf(s[1..]).Err?;
    } else {
      var k := Following(ts[1..]) + (")" + after);
      assert s[1..] == Printed(ts[0]) + k;
      FirstRejected(ts, after);
    }
  }

  /** Of the types left, one cannot be read. */
  lemma {:induction false} FirstRejected(ts: seq<Ty>, after: string)
    requires ts != [] && AreWellNamed(ts) && !AreParsable(ts)
    ensures var r := TypeOf(Printed(ts[0]) + (Following(ts[1..]) + (")" + after))); r.Err? || More(r.value.1).Err?
    decreases ts, 0
  {
    var k := Following(ts[1..]) + (")" + after);
    if IsParsable(ts[0]) {
      FollowingStops(ts[1..], after);
      TypeRoundTrip(ts[0], k);
      assert !AreParsable(ts[1..]);
      MoreRejected(ts[1..], after);
    } else {
      TypeRejected(ts[0], k);
      var r := TypeOf(Printed(ts[0]) + k);
    }
  }

  lemma {:induction false} MoreRejected(ts: seq<Ty>, after: string)
    requires AreWellNamed(ts) && !AreParsable(ts)
    ensures More(Following(ts) + (")" + after)).Err?
    decreases ts, 1
  {
    var s := Following(ts) + (")" + after);
    var k := Following(ts[1..]) + (")" + after);
    assert s[0] == ',' && s[1..] == Printed(ts[0]) + k;
    FirstRejected(ts, after);
  }

  lemma NotEmptyList(ts: seq<Ty>)
    requires AreWellNamed(ts) && ts != []
    ensures Joined(ts) != [] && Joined(ts)[0] != ')'
  {
  }

  function LastBracket(s: string): (i: int)
    ensures -1 <= i < |s| && (i >= 0 ==> s[i] == '[') && forall k :: i < k < |s| ==> s[k] != '['
  {
    if s == [] then -1 else if s[|s| - 1] == '[' then |s| - 1 else LastBracket(s[..|s| - 1])
  }

  /** The canonical string NewType gives an argument: brackets are peeled off from
      the right, and a tuple is written out. */
  function Canonical(kind: string, components: seq<Arg>): string
    decreases components, 1, |kind|
  {
    var i := LastBracket(kind);
    if i >= 0 then Canonical(kind[..i], components) + kind[i..]
    else if kind == "tuple" then "(" + CanonicalList(components) + ")"
    else kind
  }

  function CanonicalList(args: seq<Arg>): string
    decreases args, 0
  {
    if args == [] then [] else Canonical(args[0].kind, args[0].components) + CanonicalRest(args[1..])
  }

  function CanonicalRest(args: seq<Arg>): string
    decreases args, 0
  {
    if args == [] then [] else "," + Canonical(args[0].kind, args[0].components) + CanonicalRest(args[1..])
  }

  /** A text that is not "tuple", alone or with brackets. */
  predicate IsPlain(kind: string)
  {
    |kind| < 5 || kind[..5] != "tuple" || (|kind| > 5 && kind[5] != '[')
  }

  lemma {:induction false} PlainIsCanonical(kind: string, components: seq<Arg>)
    requires IsPlain(kind)
    ensures Canonical(kind, components) == kind
    decreases |kind|
  {
    var i := LastBracket(kind);
    if i < 0 {
    } else {
      assert i >= 5 ==> kind[..i][..5] == kind[..5];
      PlainIsCanonical(kind[..i], components);
      assert kind[..i] + kind[i..] == kind;
    }
  }

  lemma BaseIsPlain(base: string, dims: seq<string>)
    requires IsWord(base, false) && base != "tuple"
    ensures IsPlain(base + Brackets(dims))
  {
    var kind := base + Brackets(dims);
    assert |base| >= 5 ==> kind[..5] == base[..5];
    assert |base| == 5 ==> base == base[..5];
    assert |base| < |kind| ==> kind[|base|] == '[';
    assert |base| < 5 && |kind| >= 5 ==> kind[..5][|base|] == '[';
  }

  /** NewType prints the parsed arguments as the types they were printed from. */
  lemma {:induction false} CanonicalOfArg(t: Ty, i: nat)
    requires IsWellNamed(t)
    ensures Canonical(ArgOf(t, i).kind, ArgOf(t, i).components) == Printed(t)
    decreases t
  {
    match t
    case Elem(base, dims) =>
      BaseIsPlain(base, dims);
      PlainIsCanonical(base + Brackets(dims), []);
    case Tuple(elems, dims) =>
      CanonicalOfArgs(elems, 0);
      var args := ArgsOf(elems, 0);
      assert LastBracket("tuple") == -1;
      assert Canonical("tuple", args) == "(" + Joined(elems) + ")";
      TupleIsCanonical(dims, args);
  }

  /** The brackets behind a tuple are peeled off one by one. */
  lemma {:induction false} TupleIsCanonical(dims: seq<string>, args: seq<Arg>)
    requires AreNumerals(dims)
    ensures Canonical("tuple" + Brackets(dims), args) == Canonical("tuple", args) + Brackets(dims)
    decreases |dims|
  {
    if dims == [] {
      assert "tuple" + Brackets(dims) == "tuple";
      assert Canonical("tuple", args) + [] == Canonical("tuple", args);
    } else {
      var n := |dims| - 1;
      var front, last := "tuple" + Brackets(dims[..n]), "[" + dims[n] + "]";
      BracketsSnoc(dims[..n], dims[n]);
      assert dims == dims[..n] + [dims[n]];
      PeelLast(front, last, dims[n], args);
      TupleIsCanonical(dims[..n], args);
      Regroup3("tuple", Brackets(dims[..n]), last);
      Regroup3(Canonical("tuple", args), Brackets(dims[..n]), last);
    }
  }

  lemma PeelLast(front: string, last: string, d: string, args: seq<Arg>)
    requires IsNumeral(d) && last == "[" + d + "]"
    ensures Canonical(front + last, args) == Canonical(front, args) + last
  {
    var kind := front + last;
    LastBracketAt(kind, |front|);
    assert kind[..|front|] == front && kind[|front|..] == last;
  }

  lemma {:induction false} BracketsSnoc(dims: seq<string>, d: string)
    ensures Brackets(dims + [d]) == Brackets(dims) + ("[" + d + "]")
  {
    if dims == [] {
      assert dims + [d] == [d];
    } else {
      assert (dims + [d])[1..] == dims[1..] + [d];
      BracketsSnoc(dims[1..], d);
    }
  }

  lemma LastBracketAt(s: string, i: nat)
    requires i < |s| && s[i] == '[' && forall k :: i < k < |s| ==> s[k] != '['
    ensures LastBracket(s) == i
  {
  }

  lemma {:induction false} CanonicalOfArgs(ts: seq<Ty>, i: nat)
    requires AreWellNamed(ts)
    ensures CanonicalList(ArgsOf(ts, i)) == Joined(ts) && CanonicalRest(ArgsOf(ts, i)) == Following(ts)
    decreases ts
  {
    if ts == [] {
    } else {
      CanonicalOfArg(ts[0], i);
      CanonicalOfArgs(ts[1..], i + 1);
    }
  }

  // ----- different types give different arguments -----

  lemma {:induction false} BracketsTell(ds: seq<string>, es: seq<string>)
    requires AreNumerals(ds) && AreNumerals(es) && Brackets(ds) == Brackets(es)
    ensures ds == es
  {
    if ds == [] || es == [] {
    } else {
      var s := Brackets(ds);
      FirstBracket(ds);
      FirstBracket(es);
      assert ds[0] == es[0];
      BracketsTell(ds[1..], es[1..]);
      assert ds == [ds[0]] + ds[1..] && es == [es[0]] + es[1..];
    }
  }

  lemma FirstBracket(ds: seq<string>)
    requires AreNumerals(ds) && ds != []
    ensures var s := Brackets(ds);
            |s| >= 2 && var n := Digits(s[1..]);
            1 + n < |s| && ds[0] == s[1..1 + n] && Brackets(ds[1..]) == s[n + 2..]
  {
    CutBracket(ds[0], Brackets(ds[1..]), Brackets(ds));
  }

  lemma CutBracket(d: string, more: string, s: string)
    requires IsNumeral(d) && s == "[" + d + "]" + more
    ensures |s| >= 2 && var n := Digits(s[1..]);
            1 + n < |s| && d == s[1..1 + n] && more == s[n + 2..]
  {
    assert s[1..] == d + ("]" + more);
    DigitsStop(d, "]" + more);
  }

  lemma NameTells(a: string, ds: seq<string>, b: string, es: seq<string>)
    requires IsWord(a, false) && IsWord(b, false) && AreNumerals(ds) && AreNumerals(es)
    requires a + Brackets(ds) == b + Brackets(es)
    ensures a == b && ds == es
  {
    TokenStops(a, Brackets(ds), false);
    TokenStops(b, Brackets(es), false);
    BracketsTell(ds, es);
  }

  lemma {:induction false} ArgTells(t: Ty, u: Ty, i: nat)
    requires IsWellNamed(t) && IsWellNamed(u) && ArgOf(t, i) == ArgOf(u, i)
    ensures t == u
    decreases t
  {
    var a, b := if t.Elem? then t.base else "tuple", if u.Elem? then u.base else "tuple";
    NameTells(a, t.dims, b, u.dims);
    if t.Tuple? { ArgsTell(t.elems, u.elems, 0); }
  }

  /** Types that differ give arguments that differ. */
  lemma {:induction false} ArgsTell(ts: seq<Ty>, us: seq<Ty>, i: nat)
    requires AreWellNamed(ts) && AreWellNamed(us) && ArgsOf(ts, i) == ArgsOf(us, i)
    ensures ts == us
    decreases ts
  {
    if ts == [] || us == [] {
    } else {
      var as', bs := ArgsOf(ts, i), ArgsOf(us, i);
      assert as'[0] == ArgOf(ts[0], i) && bs[0] == ArgOf(us[0], i);
      assert as'[1..] == ArgsOf(ts[1..], i + 1) && bs[1..] == ArgsOf(us[1..], i + 1);
      ArgTells(ts[0], us[0], i);
      ArgsTell(ts[1..], us[1..], i + 1);
      assert ts == [ts[0]] + ts[1..] && us == [us[0]] + us[1..];
    }
  }

  // ----- different types give different strings -----

  lemma SuffixTells(ds: seq<string>, k: string, es: seq<string>, l: string)
    requires AreNumerals(ds) && AreNumerals(es) && Stops(k) && Stops(l) && Brackets(ds) + k == Brackets(es) + l
    ensures ds == es && k == l
  {
    SuffixesStop(ds, k);
    SuffixesStop(es, l);
    BracketsTell(ds, es);
  }

  lemma WordTells(a: string, k: string, b: string, l: string, isIdent: bool)
    requires IsWord(a, isIdent) && IsWord(b, isIdent) && k != [] && l != []
    requires !ContinuesToken(k[0], isIdent) && !ContinuesToken(l[0], isIdent) && a + k == b + l
    ensures a == b && k == l
  {
    TokenStops(a, k, isIdent);
    TokenStops(b, l, isIdent);
  }

  /** The string of a type starts with a letter or an opening parenthesis. */
  lemma PrintedStarts(t: Ty)
    requires IsWellNamed(t)
    ensures Printed(t) != [] && (if t.Elem? then IsAlpha(Printed(t)[0]) else Printed(t)[0] == '(')
  {
  }

  lemma SuffixStops(ds: seq<string>, k: string)
    requires Stops(k)
    ensures var s := Brackets(ds) + k; s != [] && !ContinuesToken(s[0], false)
  {
  }

  lemma ElementTells(t: Ty, k: string, u: Ty, l: string)
    requires t.Elem? && u.Elem? && IsWellNamed(t) && IsWellNamed(u) && Stops(k) && Stops(l)
    requires Printed(t) + k == Printed(u) + l
    ensures t == u && k == l
  {
    Regroup3(t.base, Brackets(t.dims), k);
    Regroup3(u.base, Brackets(u.dims), l);
    SuffixStops(t.dims, k);
    SuffixStops(u.dims, l);
    WordTells(t.base, Brackets(t.dims) + k, u.base, Brackets(u.dims) + l, false);
    SuffixTells(t.dims, k, u.dims, l);
  }

  lemma CutFirst(c: char, a: string, b: string)
    requires [c] + a == [c] + b
    ensures a == b
  {
    assert ([c] + a)[1..] == a && ([c] + b)[1..] == b;
  }

  lemma TupleSpread(t: Ty, k: string)
    requires t.Tuple?
    ensures Printed(t) + k == "(" + (Joined(t.elems) + (")" + (Brackets(t.dims) + k)))
  {
  }

  lemma AfterComma(ts: seq<Ty>, k: string)
    requires ts != []
    ensures Following(ts) + k == "," + (Printed(ts[0]) + (Following(ts[1..]) + k))
  {
  }

  lemma FollowedStops(ts: seq<Ty>, k: string)
    requires k != [] && k[0] == ')'
    ensures Stops(Following(ts) + k)
  {
  }

  lemma {:induction false} PrintedTells(t: Ty, k: string, u: Ty, l: string)
    requires IsWellNamed(t) && IsWellNamed(u) && Stops(k) && Stops(l) && Printed(t) + k == Printed(u) + l
    ensures t == u && k == l
    decreases t
  {
    PrintedStarts(t);
    PrintedStarts(u);
    assert (Printed(t) + k)[0] == Printed(t)[0] && (Printed(u) + l)[0] == Printed(u)[0];
    if t.Elem? {
      ElementTells(t, k, u, l);
    } else {
      var k', l' := Brackets(t.dims) + k, Brackets(u.dims) + l;
      TupleSpread(t, k);
      TupleSpread(u, l);
      CutFirst('(', Joined(t.elems) + (")" + k'), Joined(u.elems) + (")" + l'));
      JoinedTells(t.elems, ")" + k', u.elems, ")" + l');
      CutFirst(')', k', l');
      SuffixTells(t.dims, k, u.dims, l);
    }
  }

  /** A list of types is told from its string, which a closing parenthesis ends. */
  lemma {:induction false} JoinedTells(ts: seq<Ty>, k: string, us: seq<Ty>, l: string)
    requires AreWellNamed(ts) && AreWellNamed(us) && k != [] && l != [] && k[0] == l[0] == ')'
    requires Joined(ts) + k == Joined(us) + l
    ensures ts == us && k == l
    decreases ts
  {
    if ts == [] || us == [] {
      ListStarts(ts, k);
      ListStarts(us, l);
    } else {
      Regroup3(Printed(ts[0]), Following(ts[1..]), k);
      Regroup3(Printed(us[0]), Following(us[1..]), l);
      FollowedStops(ts[1..], k);
      FollowedStops(us[1..], l);
      PrintedTells(ts[0], Following(ts[1..]) + k, us[0], Following(us[1..]) + l);
      FollowingTells(ts[1..], k, us[1..], l);
      assert ts == [ts[0]] + ts[1..] && us == [us[0]] + us[1..];
    }
  }

  lemma ListStarts(ts: seq<Ty>, k: string)
    requires AreWellNamed(ts) && k != [] && k[0] == ')'
    ensures var s := Joined(ts) + k; s[0] == ')' <==> ts == []
    ensures ts == [] ==> Joined(ts) + k == k
  {
    if ts != [] {
      PrintedStarts(ts[0]);
      assert (Joined(ts) + k)[0] == Printed(ts[0])[0];
    }
  }

  lemma {:induction false} FollowingTells(ts: seq<Ty>, k: string, us: seq<Ty>, l: string)
    requires AreWellNamed(ts) && AreWellNamed(us) && k != [] && l != [] && k[0] == l[0] == ')'
    requires Following(ts) + k == Following(us) + l
    ensures ts == us && k == l
    decreases ts
  {
    if ts == [] || us == [] {
      assert ts == [] ==> (Following(ts) + k)[0] == ')' && Following(ts) + k == k;
      assert us == [] ==> (Following(us) + l)[0] == ')' && Following(us) + l == l;
    } else {
      FollowedStops(ts[1..], k);
      FollowedStops(us[1..], l);
      AfterComma(ts, k);
      AfterComma(us, l);
      CutFirst(',', Printed(ts[0]) + (Following(ts[1..]) + k), Printed(us[0]) + (Following(us[1..]) + l));
      PrintedTells(ts[0], Following(ts[1..]) + k, us[0], Following(us[1..]) + l);
      FollowingTells(ts[1..], k, us[1..], l);
      assert ts == [ts[0]] + ts[1..] && us == [us[0]] + us[1..];
    }
  }

  /** Equal signatures are of equal names and types, whether the parser can read
      them or not. */
  lemma SignatureTells(name: string, ts: seq<Ty>, name': string, us: seq<Ty>)
    requires IsWord(name, true) && IsWord(name', true) && AreWellNamed(ts) && AreWellNamed(us)
    requires Signature(name, ts) == Signature(name', us)
    ensures name == name' && ts == us
  {
    var k, l := "(" + (Joined(ts) + ")"), "(" + (Joined(us) + ")");
    assert Signature(name, ts) == name + k && Signature(name', us) == name' + l;
    WordTells(name, k, name', l, true);
    assert k[1..] == Joined(ts) + ")" && l[1..] == Joined(us) + ")";
    JoinedTells(ts, ")", us, ")");
  }

  /** So a parsed selector has the signature it was parsed from. */
  lemma SignatureRoundTrip(name: string, inputs: seq<Ty>)
    requires IsWord(name, true) && AreWellNamed(inputs) && AreParsable(inputs)
    ensures Token(Signature(name, inputs), true) == Ok((name, "(" + Joined(inputs) + ")"))
    ensures var r := Parsed(Signature(name, inputs));
            r.Ok? && r.value.name + "(" + CanonicalList(r.value.inputs) + ")" == Signature(name, inputs)
  {
    SelectorRoundTrip(name, inputs);
    CanonicalOfArgs(inputs, 0);
  }

  // ----- the parser -----

  method ParseToken(s: string, isIdent: bool) returns (r: Result<(string, string)>)
    ensures r == Token(s, isIdent)
  {
    if |s| == 0 {
      return Err;
    }
    var position := 1;
    if !StartsToken(s[0], isIdent) {
      return Err;
    }
    while position < |s|
      invariant 1 <= position <= |s|
      invariant 1 + Span(s[1..], isIdent) == position + Span(s[position..], isIdent)
    {
      if !ContinuesToken(s[position], isIdent) {
        break;
      }
      assert s[position..][1..] == s[position + 1..];
      position := position + 1;
    }
    return Ok((s[..position], s[position..]));
  }

  /** One pair of brackets: the digits are moved over one by one. */
  method ParseBrackets(parsed: string, s: string) returns (ok: bool, parsed': string, rest: string)
    requires s != [] && s[0] == '['
    ensures ok <==> 1 + Digits(s[1..]) < |s| && s[1 + Digits(s[1..])] == ']'
    ensures ok ==> var n := 2 + Digits(s[1..]); parsed' == parsed + s[..n] && rest == s[n..]
  {
    parsed' := parsed + [s[0]];
    rest := s[1..];
    ghost var i := 1;
    while |rest| > 0 && IsDigit(rest[0])
      invariant 1 <= i <= |s| && rest == s[i..] && parsed' == parsed + s[..i]
      invariant 1 + Digits(s[1..]) == i + Digits(rest)
      decreases |rest|
    {
      parsed' := parsed' + [rest[0]];
      rest := rest[1..];
      i := i + 1;
    }
    if |rest| == 0 || rest[0] != ']' {
      return false, parsed', rest;
    }
    parsed' := parsed' + [rest[0]];
    rest := rest[1..];
    ok := true;
  }

  method ParseElementaryType(s: string) returns (r: Result<(Node, string)>)
    ensures r == Elementary(s)
  {
    var t := ParseToken(s, false);
    if t.Err? {
      return Err;
    }
    var parsedType, rest := t.value.0, t.value.1;
    ghost var done := "";
    BeforeNone(Suffixes(rest));
    while |rest| > 0 && rest[0] == '['
      invariant parsedType == t.value.0 + done && SuffixedSoFar(t.value.1, done, rest)
      decreases |rest|
    {
      SuffixStep(t.value.1, done, rest);
      ghost var brackets := if 2 + Digits(rest[1..]) <= |rest| then rest[..2 + Digits(rest[1..])] else "";
      var ok;
      ok, parsedType, rest := ParseBrackets(parsedType, rest);
      if !ok {
        return Err;
      }
      done := done + brackets;
    }
    assert done + "" == done;
    return Ok((Text(parsedType), rest));
  }

  lemma BeforeNone(r: Result<(string, string)>)
    ensures Before("", r) == r
  {
    if r.Ok? { assert "" + r.value.0 == r.value.0; }
  }

  ghost predicate SuffixedSoFar(all: string, done: string, rest: string)
  {
    Suffixes(all) == Before(done, Suffixes(rest))
  }

  lemma SuffixStep(all: string, done: string, s: string)
    requires s != [] && s[0] == '[' && SuffixedSoFar(all, done, s)
    ensures var n := 2 + Digits(s[1..]);
            if n <= |s| && s[n - 1] == ']' then SuffixedSoFar(all, done + s[..n], s[n..]) else Suffixes(all).Err?
  {
    var n := 2 + Digits(s[1..]);
    if n <= |s| && s[n - 1] == ']' {
      var r := Suffixes(s[n..]);
      if r.Ok? { Regroup3(done, s[..n], r.value.0); }
    }
  }

  /** Nodes in front of what is parsed after them. */
  ghost function BeforeNodes(done: seq<Node>, r: Result<(seq<Node>, string)>): Result<(seq<Node>, string)>
  {
    if r.Err? then Err else Ok((done + r.value.0, r.value.1))
  }

  lemma BeforeNode(done: seq<Node>, s: string)
    requires s != [] && s[0] != ')' && TypeOf(s[1..]).Ok?
    ensures var t := TypeOf(s[1..]).value; BeforeNodes(done, More(s)) == BeforeNodes(done + [t.0], More(t.1))
  {
    var t := TypeOf(s[1..]).value;
    var r := More(t.1);
    if r.Ok? { assert done + ([t.0] + r.value.0) == done + [t.0] + r.value.0; }
  }

  method ParseCompositeType(s: string) returns (r: Result<(seq<Node>, string)>)
    requires s != []
    ensures r == Composite(s)
    decreases |s|, 0
  {
    if s[0] != '(' {
      return Err;
    }
    var t := ParseType(s[1..]);
    if t.Err? {
      return Err;
    }
    var result, rest := [t.value.0], t.value.1;
    ghost var all := BeforeNodes(result, More(rest));
    while |rest| > 0 && rest[0] != ')'
      invariant |rest| < |s|
      invariant all == BeforeNodes(result, More(rest))
      decreases |rest|
    {
      t := ParseType(rest[1..]);
      if t.Err? {
        return Err;
      }
      BeforeNode(result, rest);
      rest := t.value.1;
      result := result + [t.value.0];
    }
    assert all == Ok((result, rest)) by { assert result + [] == result; }
    if |rest| == 0 || rest[0] != ')' {
      return Err;
    }
    if |rest| >= 3 && rest[1] == '[' && rest[2] == ']' {
      return Ok((result + [Text("[]")], rest[3..]));
    }
    return Ok((result, rest[1..]));
  }

  method ParseType(s: string) returns (r: Result<(Node, string)>)
    ensures r == TypeOf(s)
    decreases |s|, 1
  {
    if |s| == 0 {
      return Err;
    }
    if s[0] == '(' {
      var c := ParseCompositeType(s);
      return if c.Err? then Err else Ok((Parts(c.value.0), c.value.1));
    } else {
      r := ParseElementaryType(s);
    }
  }

  ghost predicate AssembledSoFar(args: seq<Node>, i: nat, arguments: seq<Arg>)
    requires i <= |args|
  {
    Assembled(args, 0) == arguments + Assembled(args[i..], i)
  }

  lemma AssembleStep(args: seq<Node>, i: nat, arguments: seq<Arg>)
    requires i < |args| && AssembledSoFar(args, i, arguments)
    ensures AssembledSoFar(args, i + 1, arguments + [AssembledOne(args[i], i)])
  {
  }

  method AssembleArgs(args: seq<Node>) returns (arguments: seq<Arg>)
    ensures arguments == Assembled(args, 0)
    decreases args
  {
    arguments := [];
    assert args[0..] == args;
    for i := 0 to |args|
      invariant AssembledSoFar(args, i, arguments)
    {
      var name := NameOf(i);
      AssembleStep(args, i, arguments);
      match args[i] {
        case Text(s) =>
          arguments := arguments + [Arg(name, s, [])];
        case Parts(components) =>
          var subArgs := AssembleArgs(components);
          var tupleType := "tuple";
          if |subArgs| != 0 && subArgs[|subArgs| - 1].kind == "[]" {
            subArgs := subArgs[..|subArgs| - 1];
            tupleType := "tuple[]";
          }
          arguments := arguments + [Arg(name, tupleType, subArgs)];
      }
    }
  }

  /** ParseSelector; the source fails on the empty rest of a bare identifier. */
  method ParseSelector(s: string) returns (r: Result<Selector>)
    requires Token(s, true).Ok? ==> Token(s, true).value.1 != []
    ensures r == Parsed(s)
  {
    var t := ParseToken(s, true);
    if t.Err? {
      return Err;
    }
    var name, rest := t.value.0, t.value.1;
    var args: seq<Node> := [];
    if |rest| >= 2 && rest[0] == '(' && rest[1] == ')' {
      assert rest[..2] == "()";
      rest := rest[2..];
    } else {
      var c := ParseCompositeType(rest);
      if c.Err? {
        return Err;
      }
      args, rest := c.value.0, c.value.1;
    }
    if |rest| > 0 {
      return Err;
    }
    var fakeArgs := AssembleArgs(args);
    return Ok(Selector(name, fakeArgs));
  }
}
