/** Accounts, the order of their URLs, and the binary search over sorted slices. */
module Accounts {
  type Address = nat

  datatype Url = Url(scheme: string, path: string)

  datatype Account = Account(address: Address, url: Url)

  /** strings.Compare. */
  function Compare(a: string, b: string): int
  {
    if a == b then 0
    else if a == [] then -1
    else if b == [] then 1
    else if a[0] < b[0] then -1
    else if a[0] > b[0] then 1
    else Compare(a[1..], b[1..])
  }

  /** URL.Cmp. */
  function Cmp(u: Url, v: Url): int
  {
    if u.scheme == v.scheme then Compare(u.path, v.path) else Compare(u.scheme, v.scheme)
  }

  lemma {:induction false} CompareIsOrder(a: string, b: string)
    ensures Compare(a, b) == 0 <==> a == b
    ensures Compare(a, b) == -Compare(b, a) && -1 <= Compare(a, b) <= 1
  {
    if a == b || a == [] || b == [] || a[0] != b[0] {
    } else {
      CompareIsOrder(a[1..], b[1..]);
      assert a == [a[0]] + a[1..] && b == [b[0]] + b[1..];
    }
  }

  lemma {:induction false} CompareTrans(a: string, b: string, c: string)
    requires Compare(a, b) < 0 && Compare(b, c) < 0
    ensures Compare(a, c) < 0
  {
    if a == [] || b == [] || c == [] || a[0] != b[0] || b[0] != c[0] {
    } else {
      CompareTrans(a[1..], b[1..], c[1..]);
    }
  }

  /** Lexicographic: a proper beginning, or less at the first place they differ. */
  ghost predicate IsLess(a: string, b: string)
  {
    a < b || exists k :: 0 <= k < |a| && k < |b| && a[..k] == b[..k] && a[k] < b[k]
  }

  lemma {:induction false} CompareMeans(a: string, b: string)
    ensures Compare(a, b) < 0 <==> IsLess(a, b)
  {
    if a == [] || b == [] || a[0] != b[0] {
      if a != [] && b != [] && a[0] < b[0] { assert a[..0] == b[..0]; }
    } else {
      CompareMeans(a[1..], b[1..]);
      LessRest(a, b);
    }
  }

  lemma LessRest(a: string, b: string)
    requires a != [] && b != [] && a[0] == b[0]
    ensures IsLess(a, b) <==> IsLess(a[1..], b[1..])
  {
    if IsLess(a, b) && !(a < b) {
      var k :| 0 <= k < |a| && k < |b| && a[..k] == b[..k] && a[k] < b[k];
      assert a[1..][..k - 1] == a[..k][1..] && b[1..][..k - 1] == b[..k][1..];
      assert a[1..][k - 1] == a[k] && b[1..][k - 1] == b[k];
    }
    if IsLess(a[1..], b[1..]) && !(a[1..] < b[1..]) {
      var k :| 0 <= k < |a[1..]| && k < |b[1..]| && a[1..][..k] == b[1..][..k] && a[1..][k] < b[1..][k];
      assert a[..k + 1] == [a[0]] + a[1..][..k] && b[..k + 1] == [b[0]] + b[1..][..k];
      assert a[k + 1] < b[k + 1];
    }
    assert a == [a[0]] + a[1..] && b == [b[0]] + b[1..];
  }

  /** Strictly before, in the order of Cmp. */
  predicate Below(u: Url, v: Url)
  {
    Cmp(u, v) < 0
  }

  /** Cmp is a total order: exactly one of before, equal and after. */
  lemma CmpIsOrder(u: Url, v: Url)
    ensures Cmp(u, v) == 0 <==> u == v
    ensures Cmp(u, v) > 0 <==> Below(v, u)
    ensures !(Below(u, v) && Below(v, u)) && (u == v || Below(u, v) || Below(v, u))
  {
    CompareIsOrder(u.path, v.path);
    CompareIsOrder(u.scheme, v.scheme);
  }

  /** The order is lexicographic, by scheme first and then by path. */
  lemma BelowMeans(u: Url, v: Url)
    ensures Below(u, v) <==> IsLess(u.scheme, v.scheme) || (u.scheme == v.scheme && IsLess(u.path, v.path))
  {
    CompareMeans(u.scheme, v.scheme);
    CompareMeans(u.path, v.path);
    CompareIsOrder(u.scheme, v.scheme);
  }

  lemma BelowTrans(u: Url, v: Url, w: Url)
    requires Below(u, v) && Below(v, w)
    ensures Below(u, w)
  {
    CompareIsOrder(u.scheme, v.scheme);
    CompareIsOrder(v.scheme, w.scheme);
    CompareIsOrder(u.scheme, w.scheme);
    if u.scheme == v.scheme == w.scheme {
      CompareTrans(u.path, v.path, w.path);
    } else if u.scheme != v.scheme && v.scheme != w.scheme {
      CompareTrans(u.scheme, v.scheme, w.scheme);
    }
  }

  lemma NotBelowTrans(u: Url, v: Url, w: Url)
    requires !Below(u, v) && !Below(v, w)
    ensures !Below(u, w)
  {
    CmpIsOrder(u, v);
    CmpIsOrder(v, w);
    if Below(u, w) {
      if u != v { BelowTrans(v, u, w); }
      CmpIsOrder(v, w);
    }
  }

  ghost predicate AscendingAccounts(accs: seq<Account>)
  {
    forall i, j :: 0 <= i < j < |accs| ==> Below(accs[i].url, accs[j].url)
  }

  /** sort.Search: the least index from which on f holds, or n. */
  method Search(n: nat, f: nat --> bool) returns (i: nat)
    requires forall k :: 0 <= k < n ==> f.requires(k)
    requires forall j, k :: 0 <= j < k < n && f(j) ==> f(k)
    ensures i <= n
    ensures forall k :: 0 <= k < i ==> !f(k)
    ensures forall k :: i <= k < n ==> f(k)
  {
    i := 0;
    var j: nat := n;
    while i < j
      invariant i <= j <= n
      invariant forall k :: 0 <= k < i ==> !f(k)
      invariant forall k :: j <= k < n ==> f(k)
    {
      var h := (i + j) / 2;
      if !f(h) {
        i := h + 1;
      } else {
        j := h;
      }
    }
  }

  ghost predicate InOrder(all: seq<Account>)
  {
    forall i, j :: 0 <= i < j < |all| ==> !Below(all[j].url, all[i].url)
  }

  /** The first place not before a URL. */
  ghost function Place(all: seq<Account>, u: Url): (n: nat)
    ensures n <= |all| && forall i :: 0 <= i < n ==> Below(all[i].url, u)
    ensures n < |all| ==> !Below(all[n].url, u)
  {
    if all == [] || !Below(all[0].url, u) then 0 else 1 + Place(all[1..], u)
  }

  /** The binary search finds that place. */
  method FindPlace(all: seq<Account>, u: Url) returns (n: nat)
    requires InOrder(all)
    ensures n == Place(all, u)
  {
    forall j, k | 0 <= j < k < |all| && Cmp(all[j].url, u) >= 0
      ensures Cmp(all[k].url, u) >= 0
    {
      NotBelowTrans(all[k].url, all[j].url, u);
    }
    var f := (i: nat) requires i < |all| => Cmp(all[i].url, u) >= 0;
    n := Search(|all|, f);
    forall i: nat | i < n
      ensures Below(all[i].url, u)
    {
      assert !f(i);
    }
    assert n < |all| ==> f(n);
  }

  lemma RemoveInOrder(all: seq<Account>, n: nat)
    requires InOrder(all) && n < |all|
    ensures InOrder(all[..n] + all[n + 1..])
  {
  }

  lemma PlaceKeepsOrder(all: seq<Account>, n: nat, a: Account)
    requires InOrder(all) && n == Place(all, a.url)
    ensures InOrder(all[..n] + [a] + all[n..])
  {
    forall i | n <= i < |all|
      ensures !Below(all[i].url, a.url)
    {
      if i > n { NotBelowTrans(all[i].url, all[n].url, a.url); }
    }
    forall i | 0 <= i < n
      ensures !Below(a.url, all[i].url)
    {
      CmpIsOrder(a.url, all[i].url);
    }
  }
}
