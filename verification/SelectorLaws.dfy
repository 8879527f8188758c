/** What the selector parser accepts: every accepted string is spelled out from a
    list of types, and is their signature exactly if the types are separated by
    commas and nothing follows the list. */
module SelectorLaws {
  import opened Selectors

  // ----- tokens -----

  /** Letters, digits after the first place, and $ and _ in identifiers. */
  predicate IsTokenChar(c: char, isIdent: bool, isFirst: bool)
  {
    || 'a' <= c <= 'z' || 'A' <= c <= 'Z' || (!isFirst && '0' <= c <= '9') || (isIdent && (c == '$' || c == '_'))
  }

  lemma {:induction false} SpanIs(s: string, isIdent: bool)
    ensures var n := Span(s, isIdent);
            && (forall i :: 0 <= i < n ==> IsTokenChar(s[i], isIdent, false))
            && (n < |s| ==> !IsTokenChar(s[n], isIdent, false))
  {
    if s == [] || !ContinuesToken(s[0], isIdent) {
    } else {
      SpanIs(s[1..], isIdent);
    }
  }

  /** A token is the longest beginning of such characters. */
  lemma TokenIs(s: string, isIdent: bool)
    ensures var r := Token(s, isIdent);
            && (r.Ok? <==> s != [] && IsTokenChar(s[0], isIdent, true))
            && (r.Ok? ==>
                  var (w, rest) := r.value;
                  && s == w + rest && w != [] && (forall i :: 0 < i < |w| ==> IsTokenChar(w[i], isIdent, false))
                  && (rest != [] ==> !IsTokenChar(rest[0], isIdent, false)))
  {
    if Token(s, isIdent).Ok? {
      SpanIs(s[1..], isIdent);
      var (w, rest) := Token(s, isIdent).value;
      forall i | 0 < i < |w|
        ensures IsTokenChar(w[i], isIdent, false)
      {
        assert w[i] == s[1..][i - 1];
      }
    }
  }

  lemma TokenIsWord(s: string, isIdent: bool)
    requires Token(s, isIdent).Ok?
    ensures IsWord(Token(s, isIdent).value.0, isIdent)
  {
    TokenIs(s, isIdent);
    var w := Token(s, isIdent).value.0;
    forall i | 0 <= i < |w|
      ensures ContinuesToken(w[i], isIdent)
    {
      if i > 0 { assert IsTokenChar(w[i], isIdent, false); }
    }
  }

  lemma Ended(s: string)
    ensures s + [] == s
  {
  }

  // ----- numbers in names -----

  /** The number a row of digits stands for. */
  function ValueOf(s: string): int
  {
    if s == [] then 0 else 10 * ValueOf(s[..|s| - 1]) + (s[|s| - 1] as int - '0' as int)
  }

  /** Arguments are numbered in decimal, without leading zeros. */
  lemma {:induction false} DecimalIs(n: nat)
    ensures var s := Decimal(n);
            && s != [] && IsNumeral(s) && ValueOf(s) == n && (s[0] == '0' ==> n == 0)
  {
    if n < 10 {
    } else {
      DecimalIs(n / 10);
      var s := Decimal(n);
      assert s[..|s| - 1] == Decimal(n / 10);
    }
  }

  lemma NameIs(i: nat)
    ensures var s := NameOf(i); s[..4] == "name" && ValueOf(s[4..]) == i && (s[4] == '0' ==> i == 0)
  {
    DecimalIs(i);
    assert NameOf(i)[4..] == Decimal(i);
  }

  // ----- spellings -----

  /** A type as it is spelled: with whatever stands between the members of a tuple. */
  datatype Spelling =
    | Plain(base: string, dims: seq<string>)
    | Listed(elems: seq<Spelling>, seps: seq<char>, isSlice: bool)

  predicate IsSpelling(l: Spelling)
  {
    match l
    case Plain(base, dims) => IsWord(base, false) && AreNumerals(dims)
    case Listed(elems, seps, _) =>
      elems != [] && |seps| == |elems| - 1 && forall i :: 0 <= i < |elems| ==> IsSpelling(elems[i])
  }

  predicate AreSpellings(ls: seq<Spelling>, seps: seq<char>)
  {
    |seps| == |ls| && forall i :: 0 <= i < |ls| ==> IsSpelling(ls[i])
  }

  function Spelled(l: Spelling): string
    requires IsSpelling(l)
    decreases l, 0
  {
    match l
    case Plain(base, dims) => base + Brackets(dims)
    case Listed(elems, seps, isSlice) =>
      "(" + Spelled(elems[0]) + SpelledMore(elems[1..], seps) + ")" + (if isSlice then "[]" else "")
  }

  function SpelledMore(ls: seq<Spelling>, seps: seq<char>): string
    requires AreSpellings(ls, seps)
    decreases ls, 0
  {
    if ls == [] then [] else [seps[0]] + Spelled(ls[0]) + SpelledMore(ls[1..], seps[1..])
  }

  function NodeFor(l: Spelling): Node
    decreases l
  {
    match l
    case Plain(base, dims) => Text(base + Brackets(dims))
    case Listed(elems, _, isSlice) => Parts(NodesFor(elems) + (if isSlice then [Text("[]")] else []))
  }

  function NodesFor(ls: seq<Spelling>): (ns: seq<Node>)
    ensures |ns| == |ls|
    decreases ls
  {
    if ls == [] then [] else [NodeFor(ls[0])] + NodesFor(ls[1..])
  }

  lemma {:induction false} SuffixesSpell(s: string) returns (dims: seq<string>)
    requires Suffixes(s).Ok?
    ensures var (text, rest) := Suffixes(s).value; AreNumerals(dims) && text == Brackets(dims) && s == text + rest
    decreases |s|
  {
    if s == [] || s[0] != '[' {
      dims := [];
    } else {
      var n := 1 + Digits(s[1..]);
      dims := SuffixesSpell(s[n + 1..]);
      SuffixSpells(s, n, dims, Suffixes(s[n + 1..]).value.1);
      dims := [s[1..n]] + dims;
    }
  }

  lemma SuffixSpells(s: string, n: nat, dims: seq<string>, rest: string)
    requires s != [] && n == 1 + Digits(s[1..]) < |s| && s[0] == '[' && s[n] == ']'
    requires AreNumerals(dims) && s[n + 1..] == Brackets(dims) + rest
    ensures AreNumerals([s[1..n]] + dims) && Brackets([s[1..n]] + dims) == s[..n + 1] + Brackets(dims)
    ensures s == s[..n + 1] + Brackets(dims) + rest
  {
    var d := s[1..n];
    DigitsAre(s[1..]);
    assert forall i :: 0 <= i < |d| ==> d[i] == s[1..][i];
    assert ([d] + dims)[1..] == dims && s[..n + 1] == "[" + d + "]";
    assert s == s[..n + 1] + s[n + 1..];
  }

  lemma {:induction false} DigitsAre(s: string)
    ensures forall i :: 0 <= i < Digits(s) ==> IsDigit(s[i])
  {
    if s == [] || !IsDigit(s[0]) {
    } else {
      DigitsAre(s[1..]);
      assert forall i :: 0 < i < Digits(s) ==> s[i] == s[1..][i - 1];
    }
  }

  lemma ElementarySpells(s: string) returns (l: Spelling)
    requires Elementary(s).Ok?
    ensures IsSpelling(l) && Elementary(s).value.0 == NodeFor(l) && s == Spelled(l) + Elementary(s).value.1
  {
    TokenIs(s, false);
    var (w, rest) := Token(s, false).value;
    var dims := SuffixesSpell(rest);
    l := Plain(w, dims);
    TokenIsWord(s, false);
  }

  /** What is parsed as a type is a spelling, followed by what is left. */
  lemma {:induction false} TypeSpells(s: string) returns (l: Spelling)
    requires TypeOf(s).Ok?
    ensures IsSpelling(l) && TypeOf(s).value.0 == NodeFor(l) && s == Spelled(l) + TypeOf(s).value.1
    decreases |s|, 1
  {
    if s[0] == '(' {
      l := CompositeSpells(s);
    } else {
      l := ElementarySpells(s);
    }
  }

  lemma {:induction false} MoreSpells(s: string) returns (ls: seq<Spelling>, seps: seq<char>)
    requires More(s).Ok?
    ensures AreSpellings(ls, seps) && More(s).value.0 == NodesFor(ls) && s == SpelledMore(ls, seps) + More(s).value.1
    decreases |s|, 2
  {
    if s == [] || s[0] == ')' {
      ls, seps := [], [];
    } else {
      var l := TypeSpells(s[1..]);
      ls, seps := MoreSpells(TypeOf(s[1..]).value.1);
      MoreCons(s[0], l, ls, seps);
      Glue(s, Spelled(l), SpelledMore(ls, seps), More(TypeOf(s[1..]).value.1).value.1);
      ls, seps := [l] + ls, [s[0]] + seps;
    }
  }

  lemma Glue(s: string, a: string, b: string, e: string)
    requires s != [] && s[1..] == a + (b + e)
    ensures s == [s[0]] + a + b + e
  {
    assert s == [s[0]] + s[1..];
  }

  lemma MoreCons(c: char, l: Spelling, ls: seq<Spelling>, seps: seq<char>)
    requires IsSpelling(l) && AreSpellings(ls, seps)
    ensures AreSpellings([l] + ls, [c] + seps) && NodesFor([l] + ls) == [NodeFor(l)] + NodesFor(ls)
    ensures SpelledMore([l] + ls, [c] + seps) == [c] + Spelled(l) + SpelledMore(ls, seps)
  {
    assert ([l] + ls)[1..] == ls && ([c] + seps)[1..] == seps;
  }

  lemma {:induction false} CompositeSpells(s: string) returns (l: Spelling)
    requires s != [] && Composite(s).Ok?
    ensures l.Listed? && IsSpelling(l)
    ensures var (parts, rest) := Composite(s).value; NodeFor(l) == Parts(parts) && s == Spelled(l) + rest
    decreases |s|, 0
  {
    var first := TypeSpells(s[1..]);
    var k := TypeOf(s[1..]).value.1;
    var ls, seps := MoreSpells(k);
    l := ListSpells(s, first, ls, seps, k, More(k).value.1);
  }

  /** The end of a list, with the mark of a slice or without. */
  lemma ListSpells(s: string, first: Spelling, ls: seq<Spelling>, seps: seq<char>, k: string, rest: string)
    returns (l: Spelling)
    requires IsSpelling(first) && AreSpellings(ls, seps) && s != [] && s[0] == '(' && rest != [] && rest[0] == ')'
    requires s[1..] == Spelled(first) + k && k == SpelledMore(ls, seps) + rest
    ensures l.Listed? && IsSpelling(l) && l.elems == [first] + ls
    ensures var (parts, end) := Closed([NodeFor(first)] + NodesFor(ls), rest);
            NodeFor(l) == Parts(parts) && s == Spelled(l) + end
  {
    var isSlice := |rest| >= 3 && rest[1] == '[' && rest[2] == ']';
    l := Listed([first] + ls, seps, isSlice);
    assert ([first] + ls)[1..] == ls;
    assert NodesFor([first] + ls) == [NodeFor(first)] + NodesFor(ls);
    var mark, end := if isSlice then "[]" else "", if isSlice then rest[3..] else rest[1..];
    assert rest == ")" + (mark + end);
    Glue(s, Spelled(first), SpelledMore(ls, seps), ")" + (mark + end));
    Regroup4("(", Spelled(first), SpelledMore(ls, seps), mark, end);
  }

  lemma Regroup4(a: string, b: string, c: string, mark: string, end: string)
    ensures a + b + c + (")" + (mark + end)) == a + b + c + ")" + mark + end
  {
  }

  // ----- signatures -----

  /** The type that is spelled. */
  function TyOf(l: Spelling): Ty
    decreases l
  {
    match l
    case Plain(base, dims) => Elem(base, dims)
    case Listed(elems, _, isSlice) => Tuple(TysOf(elems), if isSlice then [""] else [])
  }

  function TysOf(ls: seq<Spelling>): (ts: seq<Ty>)
    ensures |ts| == |ls|
    decreases ls
  {
    if ls == [] then [] else [TyOf(ls[0])] + TysOf(ls[1..])
  }

  /** Commas everywhere between the members. */
  predicate HasCommas(l: Spelling)
    decreases l
  {
    l.Listed? ==> (forall i :: 0 <= i < |l.seps| ==> l.seps[i] == ',')
                  && forall i :: 0 <= i < |l.elems| ==> HasCommas(l.elems[i])
  }

  predicate HaveCommas(ls: seq<Spelling>, seps: seq<char>)
  {
    (forall i :: 0 <= i < |seps| ==> seps[i] == ',') && forall i :: 0 <= i < |ls| ==> HasCommas(ls[i])
  }

  lemma Zip(a: string, b: string, c: string, d: string)
    requires |a| == |c|
    ensures a + b == c + d <==> a == c && b == d
  {
    if a + b == c + d { assert (a + b)[..|a|] == a && (c + d)[..|c|] == c && (a + b)[|a|..] == b; }
  }

  /** A spelling is as long as the type's own string, and the same exactly with commas. */
  lemma {:induction false} SpelledIsPrinted(l: Spelling)
    requires IsSpelling(l)
    ensures |Spelled(l)| == |Printed(TyOf(l))| && (Spelled(l) == Printed(TyOf(l)) <==> HasCommas(l))
    decreases l, 0
  {
    if l.Listed? {
      ListIsPrinted(l.elems, l.seps);
      TupleIsPrinted(l, Spelled(l.elems[0]) + SpelledMore(l.elems[1..], l.seps), Joined(TysOf(l.elems)));
      assert HasCommas(l) <==> HaveCommas(l.elems, l.seps);
    }
  }

  lemma TupleIsPrinted(l: Spelling, list: string, joined: string)
    requires l.Listed? && IsSpelling(l) && joined == Joined(TysOf(l.elems)) && |list| == |joined|
    requires list == Spelled(l.elems[0]) + SpelledMore(l.elems[1..], l.seps)
    ensures |Spelled(l)| == |Printed(TyOf(l))| && (Spelled(l) == Printed(TyOf(l)) <==> list == joined)
  {
    var mark := if l.isSlice then "[]" else "";
    MarkIs(l);
    Around(Spelled(l.elems[0]) + SpelledMore(l.elems[1..], l.seps), mark, joined);
    Regroup3("(", Spelled(l.elems[0]), SpelledMore(l.elems[1..], l.seps));
  }

  lemma Around(list: string, mark: string, joined: string)
    requires |list| == |joined|
    ensures var a, b := "(" + list + ")" + mark, "(" + joined + ")" + mark; |a| == |b| && (a == b <==> list == joined)
  {
    Zip("(" + list + ")", mark, "(" + joined + ")", mark);
    Zip("(" + list, ")", "(" + joined, ")");
    Zip("(", list, "(", joined);
  }

  lemma MarkIs(l: Spelling)
    requires l.Listed?
    ensures Brackets(TyOf(l).dims) == if l.isSlice then "[]" else ""
  {
    assert Brackets([""]) == "[]";
  }

  lemma {:induction false} ListIsPrinted(ls: seq<Spelling>, seps: seq<char>)
    requires ls != [] && |seps| == |ls| - 1 && forall i :: 0 <= i < |ls| ==> IsSpelling(ls[i])
    ensures var list, joined := Spelled(ls[0]) + SpelledMore(ls[1..], seps), Joined(TysOf(ls));
            |list| == |joined| && (list == joined <==> HaveCommas(ls, seps))
    decreases ls, 1
  {
    SpelledIsPrinted(ls[0]);
    MoreIsPrinted(ls[1..], seps);
    assert TysOf(ls)[1..] == TysOf(ls[1..]);
    Zip(Spelled(ls[0]), SpelledMore(ls[1..], seps), Printed(TyOf(ls[0])), Following(TysOf(ls[1..])));
  }

  lemma {:induction false} MoreIsPrinted(ls: seq<Spelling>, seps: seq<char>)
    requires AreSpellings(ls, seps)
    ensures var more, following := SpelledMore(ls, seps), Following(TysOf(ls));
            |more| == |following| && (more == following <==> HaveCommas(ls, seps))
    decreases ls, 0
  {
    if ls == [] {
    } else {
      SpelledIsPrinted(ls[0]);
      MoreIsPrinted(ls[1..], seps[1..]);
      assert TysOf(ls)[1..] == TysOf(ls[1..]);
      var a, b := Spelled(ls[0]), SpelledMore(ls[1..], seps[1..]);
      var c, d := Printed(TyOf(ls[0])), Following(TysOf(ls[1..]));
      Zip([seps[0]] + a, b, "," + c, d);
      Zip([seps[0]], a, ",", c);
    }
  }

  /** What is accepted is a name and a spelled list, with the mark of a slice behind
      it or nothing; it is the signature of the types spelled exactly if there are
      commas between them and no mark. */
  lemma AcceptedIsSpelled(s: string) returns (name: string, l: Spelling)
    requires Token(s, true).Ok? ==> Token(s, true).value.1 != []
    requires Parsed(s).Ok? && Parsed(s).value.inputs != []
    ensures IsWord(name, true) && l.Listed? && IsSpelling(l) && s == name + Spelled(l)
    ensures NodeFor(l).Parts? && Parsed(s).value == Selector(name, Assembled(NodeFor(l).parts, 0))
    ensures s == Signature(name, TysOf(l.elems)) <==> HasCommas(l) && !l.isSlice
  {
    TokenIs(s, true);
    var rest;
    name, rest := Token(s, true).value.0, Token(s, true).value.1;
    AcceptedList(s, name, rest);
    TokenIsWord(s, true);
    l := CompositeSpells(rest);
    Ended(Spelled(l));
    SignatureOf(name, l);
  }

  lemma AcceptedList(s: string, name: string, rest: string)
    requires Token(s, true) == Ok((name, rest)) && rest != [] && Parsed(s).Ok? && Parsed(s).value.inputs != []
    ensures Composite(rest).Ok? && Composite(rest).value.1 == []
    ensures Parsed(s).value == Selector(name, Assembled(Composite(rest).value.0, 0))
  {
  }

  lemma SignatureOf(name: string, l: Spelling)
    requires l.Listed? && IsSpelling(l)
    ensures name + Spelled(l) == Signature(name, TysOf(l.elems)) <==> HasCommas(l) && !l.isSlice
  {
    var list := Joined(TysOf(l.elems));
    assert Signature(name, TysOf(l.elems)) == name + ("(" + list + ")");
    Zip(name, Spelled(l), name, "(" + list + ")");
    SpelledIsPrinted(l);
    MarkIs(l);
    assert Printed(TyOf(l)) == "(" + list + ")" + (if l.isSlice then "[]" else "");
  }

  // ----- which is more than signatures -----

  predicate IsSeparator(c: char)
  {
    !IsTokenChar(c, false, false) && c != '[' && c != ')'
  }

  lemma WordType(w: string, rest: string)
    requires IsWord(w, false) && rest != [] && (IsSeparator(rest[0]) || rest[0] == ')')
    ensures TypeOf(w + rest) == Ok((Text(w), rest))
  {
    TokenStops(w, rest, false);
    assert w + "" == w && (w + rest)[0] == w[0];
  }

  lemma MoreOfOne(c: char, b: string)
    requires IsSeparator(c) && IsWord(b, false)
    ensures More([c] + (b + ")")) == Ok(([Text(b)], ")"))
  {
    var s := [c] + (b + ")");
    assert s[1..] == b + ")";
    WordType(b, ")");
    assert More(")") == Ok(([], ")"));
    assert [Text(b)] + [] == [Text(b)];
  }

  lemma CompositeOf(a: string, k: string, more: seq<Node>, end: string)
    requires IsWord(a, false) && k != [] && (IsSeparator(k[0]) || k[0] == ')')
    requires More(k) == Ok((more, end)) && end != []
    ensures Composite("(" + (a + k)) == Ok(Closed([Text(a)] + more, end))
  {
    var s := "(" + (a + k);
    assert s[1..] == a + k;
    WordType(a, k);
  }

  lemma ParsedOf(name: string, list: string, nodes: seq<Node>)
    requires IsWord(name, true) && |list| >= 2 && list[0] == '(' && list[1] != ')' && Composite(list) == Ok((nodes, []))
    ensures Token(name + list, true) == Ok((name, list))
    ensures Parsed(name + list) == Ok(Selector(name, Assembled(nodes, 0)))
  {
    TokenStops(name, list, true);
    ParsedIs(name + list, name, list);
  }

  lemma TwoAssembled(a: string, b: string)
    ensures Assembled([Text(a), Text(b)], 0) == [Arg(NameOf(0), a, []), Arg(NameOf(1), b, [])]
  {
    var nodes := [Text(a), Text(b)];
    assert nodes[1..] == [Text(b)] && [Text(b)][1..] == [];
    assert Assembled([Text(b)], 1) == [Arg(NameOf(1), b, [])] + Assembled([], 2);
    assert Assembled(nodes, 0) == [Arg(NameOf(0), a, [])] + Assembled([Text(b)], 1);
  }

  /** Whatever separates two types is taken for a comma. */
  lemma AnySeparator(name: string, a: string, b: string, c: char)
    requires IsWord(name, true) && IsWord(a, false) && IsWord(b, false) && IsSeparator(c)
    ensures var s := name + ("(" + (a + ([c] + (b + ")"))));
            && Token(s, true).Ok? && Token(s, true).value.1 != []
            && Parsed(s) == Ok(Selector(name, [Arg(NameOf(0), a, []), Arg(NameOf(1), b, [])]))
  {
    var k := [c] + (b + ")");
    MoreOfOne(c, b);
    CompositeOf(a, k, [Text(b)], ")");
    assert [Text(a)] + [Text(b)] == [Text(a), Text(b)] && Closed([Text(a), Text(b)], ")") == ([Text(a), Text(b)], []);
    ParsedOf(name, "(" + (a + k), [Text(a), Text(b)]);
    TwoAssembled(a, b);
  }

  /** Brackets behind the list of arguments are accepted, as an argument that is no
      type. */
  lemma MarkedList(name: string, a: string)
    requires IsWord(name, true) && IsWord(a, false)
    ensures var s := name + ("(" + (a + ")[]"));
            && Token(s, true).Ok? && Token(s, true).value.1 != []
            && Parsed(s) == Ok(Selector(name, [Arg(NameOf(0), a, []), Arg(NameOf(1), "[]", [])]))
  {
    var k := ")[]";
    assert More(k) == Ok(([], k));
    CompositeOf(a, k, [], k);
    assert [Text(a)] + [] == [Text(a)] && [Text(a)] + [Text("[]")] == [Text(a), Text("[]")] && k[3..] == [];
    ParsedOf(name, "(" + (a + k), [Text(a), Text("[]")]);
    TwoAssembled(a, "[]");
  }
}
