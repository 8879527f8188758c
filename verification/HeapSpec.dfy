/** container/heap on a flat sequence, with the two orders of common/prque. */
module HeapSpec {
  import opened Common

  type Value = nat

  datatype Item = Item(value: Value, priority: int)

  /** Priorities compared as they are, or by the sign of their 64-bit difference. */
  datatype Order = Plain | WrapAround

  /** Less of sstack: a comes out before b. */
  predicate Before(ord: Order, a: Item, b: Item)
  {
    match ord
    case Plain => a.priority > b.priority
    case WrapAround => ToInt64(a.priority - b.priority) > 0
  }

  // ----- container/heap -----

  function Swapped(s: seq<Item>, i: nat, j: nat): seq<Item>
    requires i < |s| && j < |s|
  {
    s[i := s[j]][j := s[i]]
  }

  function Parent(j: nat): (i: nat)
    ensures j > 0 ==> i < j
  {
    if j == 0 then 0 else (j - 1) / 2
  }

  /** up: the item at j rises while it comes before its parent. */
  function Up(ord: Order, s: seq<Item>, j: nat): (r: seq<Item>)
    requires j < |s|
    ensures |r| == |s|
    decreases j
  {
    var i := Parent(j);
    if j == 0 || !Before(ord, s[j], s[i]) then s else Up(ord, Swapped(s, i, j), i)
  }

  /** The child of i that comes first, among the first n items. */
  function FirstChild(ord: Order, s: seq<Item>, i: nat, n: nat): (j: nat)
    requires 2 * i + 1 < n <= |s|
    ensures i < j < n && Parent(j) == i
  {
    var j1 := 2 * i + 1;
    if j1 + 1 < n && Before(ord, s[j1 + 1], s[j1]) then j1 + 1 else j1
  }

  /** down: the item at i sinks while a child comes before it. Also where to. */
  function Down(ord: Order, s: seq<Item>, i: nat, n: nat): (r: (seq<Item>, nat))
    requires n <= |s|
    ensures |r.0| == |s| && i <= r.1
    decreases n - i
  {
    if 2 * i + 1 >= n then (s, i)
    else
      var j := FirstChild(ord, s, i, n);
      if !Before(ord, s[j], s[i]) then (s, i) else Down(ord, Swapped(s, i, j), j, n)
  }

  function Pushed(ord: Order, s: seq<Item>, x: Item): seq<Item>
  {
    Up(ord, s + [x], |s|)
  }

  function Popped(ord: Order, s: seq<Item>): (seq<Item>, Item)
    requires s != []
  {
    var n := |s| - 1;
    var r := Down(ord, Swapped(s, 0, n), 0, n).0;
    (r[..n], r[n])
  }

  function Removed(ord: Order, s: seq<Item>, i: nat): (seq<Item>, Item)
    requires i < |s|
  {
    var n := |s| - 1;
    if i == n then (s[..n], s[n])
    else
      var r := Fixed(ord, Swapped(s, i, n), i, n);
      (r[..n], r[n])
  }

  /** Down, and up if nothing moved. */
  function Fixed(ord: Order, s: seq<Item>, i: nat, n: nat): (r: seq<Item>)
    requires i < n <= |s|
    ensures |r| == |s|
  {
    var (d, k) := Down(ord, s, i, n);
    if k > i then d else Up(ord, d, i)
  }

  // ----- the order as a number -----

  /** Position in the order. A wrap-around priority counts from `base`. */
  function Key(ord: Order, base: int, x: Item): int
  {
    match ord
    case Plain => x.priority
    case WrapAround => (x.priority - base) % TT64
  }

  /** Wrap-around priorities lie within less than 2^63 of the base. */
  predicate InWindow(ord: Order, base: int, x: Item)
  {
    ord.WrapAround? ==> Key(ord, base, x) < TT63
  }

  ghost predicate AllInWindow(ord: Order, base: int, s: seq<Item>)
  {
    forall i :: 0 <= i < |s| ==> InWindow(ord, base, s[i])
  }

  /** Within the window the wrapped difference orders by key. */
  lemma BeforeIsGreater(ord: Order, base: int, a: Item, b: Item)
    requires InWindow(ord, base, a) && InWindow(ord, base, b)
    ensures Before(ord, a, b) <==> Key(ord, base, a) > Key(ord, base, b)
  {
  }

  // ----- permutations -----

  lemma SwappedMultiset(s: seq<Item>, i: nat, j: nat)
    requires i < |s| && j < |s|
    ensures multiset(Swapped(s, i, j)) == multiset(s)
  {
  }

  lemma {:induction false} UpMultiset(ord: Order, s: seq<Item>, j: nat)
    requires j < |s|
    ensures multiset(Up(ord, s, j)) == multiset(s)
    decreases j
  {
    var i := Parent(j);
    if j == 0 || !Before(ord, s[j], s[i]) {
    } else {
      SwappedMultiset(s, i, j);
      UpMultiset(ord, Swapped(s, i, j), i);
    }
  }

  /** Down permutes the first n items and leaves the rest. */
  lemma {:induction false} DownMultiset(ord: Order, s: seq<Item>, i: nat, n: nat)
    requires n <= |s|
    ensures multiset(Down(ord, s, i, n).0) == multiset(s)
    ensures Down(ord, s, i, n).0[n..] == s[n..]
    decreases n - i
  {
    if 2 * i + 1 >= n {
    } else {
      var j := FirstChild(ord, s, i, n);
      if Before(ord, s[j], s[i]) {
        SwappedMultiset(s, i, j);
        DownMultiset(ord, Swapped(s, i, j), j, n);
      }
    }
  }

  lemma {:induction false} UpKeepsEnd(ord: Order, s: seq<Item>, j: nat)
    requires j < |s|
    ensures Up(ord, s, j)[j + 1..] == s[j + 1..]
    decreases j
  {
    var i := Parent(j);
    if j == 0 || !Before(ord, s[j], s[i]) {
    } else {
      var t := Swapped(s, i, j);
      UpKeepsEnd(ord, t, i);
      assert Up(ord, t, i)[j + 1..] == Up(ord, t, i)[i + 1..][j - i..];
      assert t[j + 1..] == t[i + 1..][j - i..];
    }
  }

  // ----- heap order -----

  /** The item at c does not come before its parent. */
  predicate InOrder(ord: Order, base: int, s: seq<Item>, c: nat)
    requires c < |s|
  {
    Key(ord, base, s[c]) <= Key(ord, base, s[Parent(c)])
  }

  ghost predicate Ordered(ord: Order, base: int, s: seq<Item>, n: nat)
    requires n <= |s|
  {
    AllInWindow(ord, base, s) && forall c: nat :: c < n ==> InOrder(ord, base, s, c)
  }

  /** The children of i do not come before i's parent. */
  ghost predicate Bridged(ord: Order, base: int, s: seq<Item>, n: nat, i: nat)
    requires i < n <= |s|
  {
    i > 0 ==>
      forall c: nat :: c < n && c > 0 && Parent(c) == i ==> Key(ord, base, s[c]) <= Key(ord, base, s[Parent(i)])
  }

  /** Ordered but for j against its parent. */
  ghost predicate OrderedBelow(ord: Order, base: int, s: seq<Item>, n: nat, j: nat)
    requires j < n <= |s|
  {
    && AllInWindow(ord, base, s) && Bridged(ord, base, s, n, j)
    && forall c: nat :: c < n && c != j ==> InOrder(ord, base, s, c)
  }

  /** Ordered but for i against its children. */
  ghost predicate OrderedAbove(ord: Order, base: int, s: seq<Item>, n: nat, i: nat)
    requires i < n <= |s|
  {
    && AllInWindow(ord, base, s) && Bridged(ord, base, s, n, i)
    && forall c: nat :: c < n && (c == 0 || Parent(c) != i) ==> InOrder(ord, base, s, c)
  }

  /** Ordered but for i, both ways. */
  ghost predicate OrderedAround(ord: Order, base: int, s: seq<Item>, n: nat, i: nat)
    requires i < n <= |s|
  {
    && AllInWindow(ord, base, s) && Bridged(ord, base, s, n, i)
    && forall c: nat :: c < n && c != i && (c == 0 || Parent(c) != i) ==> InOrder(ord, base, s, c)
  }

  lemma RiseStep(ord: Order, base: int, s: seq<Item>, n: nat, j: nat)
    requires 0 < j < n <= |s| && OrderedBelow(ord, base, s, n, j) && Before(ord, s[j], s[Parent(j)])
    ensures OrderedBelow(ord, base, Swapped(s, Parent(j), j), n, Parent(j))
  {
    var i := Parent(j);
    BeforeIsGreater(ord, base, s[j], s[i]);
    var t := Swapped(s, i, j);
    forall c: nat | c < n && c != i
      ensures InOrder(ord, base, t, c)
    {
      assert InOrder(ord, base, s, i);
      if c != j { assert InOrder(ord, base, s, c); }
    }
    forall c: nat | c < n && c > 0 && Parent(c) == i && i > 0
      ensures Key(ord, base, t[c]) <= Key(ord, base, t[Parent(i)])
    {
      assert InOrder(ord, base, s, i);
      if c != j { assert InOrder(ord, base, s, c); }
    }
  }

  /** Up repairs an item that may come before its parent. */
  lemma {:induction false} UpOrders(ord: Order, base: int, s: seq<Item>, n: nat, j: nat)
    requires j < n <= |s| && OrderedBelow(ord, base, s, n, j)
    ensures Ordered(ord, base, Up(ord, s, j), n)
    decreases j
  {
    if j == 0 {
    } else {
      BeforeIsGreater(ord, base, s[j], s[Parent(j)]);
      if Before(ord, s[j], s[Parent(j)]) {
        RiseStep(ord, base, s, n, j);
        UpOrders(ord, base, Swapped(s, Parent(j), j), n, Parent(j));
      }
    }
  }

  lemma FirstChildIsGreatest(ord: Order, base: int, s: seq<Item>, i: nat, n: nat, c: nat)
    requires AllInWindow(ord, base, s) && 2 * i + 1 < n <= |s| && 0 < c < n && Parent(c) == i
    ensures Key(ord, base, s[c]) <= Key(ord, base, s[FirstChild(ord, s, i, n)])
  {
    var j1 := 2 * i + 1;
    assert c == j1 || c == j1 + 1;
    if j1 + 1 < n { BeforeIsGreater(ord, base, s[j1 + 1], s[j1]); }
  }

  lemma SinkStep(ord: Order, base: int, s: seq<Item>, n: nat, i: nat)
    requires 2 * i + 1 < n <= |s| && OrderedAround(ord, base, s, n, i)
    requires Before(ord, s[FirstChild(ord, s, i, n)], s[i])
    ensures var j := FirstChild(ord, s, i, n); OrderedAbove(ord, base, Swapped(s, i, j), n, j)
  {
    var j := FirstChild(ord, s, i, n);
    BeforeIsGreater(ord, base, s[j], s[i]);
    var t := Swapped(s, i, j);
    forall c: nat | c < n && (c == 0 || Parent(c) != j)
      ensures InOrder(ord, base, t, c)
    {
      if c > 0 && Parent(c) == i {
        FirstChildIsGreatest(ord, base, s, i, n, c);
      } else if c != i {
        assert InOrder(ord, base, s, c);
      }
    }
    forall c: nat | c < n && c > 0 && Parent(c) == j
      ensures Key(ord, base, t[c]) <= Key(ord, base, t[Parent(j)])
    {
      assert InOrder(ord, base, s, c);
    }
  }

  lemma SettledHere(ord: Order, base: int, s: seq<Item>, n: nat, i: nat)
    requires i < n <= |s| && AllInWindow(ord, base, s)
    requires 2 * i + 1 < n ==> !Before(ord, s[FirstChild(ord, s, i, n)], s[i])
    ensures forall c: nat :: 0 < c < n && Parent(c) == i ==> InOrder(ord, base, s, c)
  {
    if 2 * i + 1 < n {
      var j := FirstChild(ord, s, i, n);
      BeforeIsGreater(ord, base, s[j], s[i]);
      forall c: nat | 0 < c < n && Parent(c) == i
        ensures InOrder(ord, base, s, c)
      {
        FirstChildIsGreatest(ord, base, s, i, n, c);
      }
    }
  }

  /** Down repairs an item that a child may come before. */
  lemma {:induction false} DownOrders(ord: Order, base: int, s: seq<Item>, n: nat, i: nat)
    requires i < n <= |s| && OrderedAbove(ord, base, s, n, i)
    ensures Ordered(ord, base, Down(ord, s, i, n).0, n)
    decreases n - i
  {
    if 2 * i + 1 < n && Before(ord, s[FirstChild(ord, s, i, n)], s[i]) {
      var j := FirstChild(ord, s, i, n);
      SinkStep(ord, base, s, n, i);
      DownOrders(ord, base, Swapped(s, i, j), n, j);
    } else {
      SettledHere(ord, base, s, n, i);
    }
  }

  /** Fixing one item wrong in either direction: down, and up if it did not move. */
  lemma FixOrders(ord: Order, base: int, s: seq<Item>, n: nat, i: nat)
    requires i < n <= |s| && OrderedAround(ord, base, s, n, i)
    ensures Ordered(ord, base, Fixed(ord, s, i, n), n)
  {
    if 2 * i + 1 < n && Before(ord, s[FirstChild(ord, s, i, n)], s[i]) {
      var j := FirstChild(ord, s, i, n);
      SinkStep(ord, base, s, n, i);
      DownOrders(ord, base, Swapped(s, i, j), n, j);
    } else {
      SettledHere(ord, base, s, n, i);
      UpOrders(ord, base, s, n, i);
    }
  }

  /** The root of a heap comes last after nothing. */
  lemma {:induction false} RootIsGreatest(ord: Order, base: int, s: seq<Item>, n: nat, c: nat)
    requires c < n <= |s| && Ordered(ord, base, s, n)
    ensures Key(ord, base, s[c]) <= Key(ord, base, s[0])
    decreases c
  {
    if c == 0 {
    } else {
      assert InOrder(ord, base, s, c);
      RootIsGreatest(ord, base, s, n, Parent(c));
    }
  }

  // ----- the operations -----

  ghost predicate IsHeap(ord: Order, base: int, s: seq<Item>)
  {
    Ordered(ord, base, s, |s|)
  }

  /** Push keeps the heap and adds exactly the new item. */
  lemma PushKeepsHeap(ord: Order, base: int, s: seq<Item>, x: Item)
    requires IsHeap(ord, base, s) && InWindow(ord, base, x)
    ensures IsHeap(ord, base, Pushed(ord, s, x))
    ensures multiset(Pushed(ord, s, x)) == multiset(s) + multiset{x}
  {
    var t := s + [x];
    var n := |s|;
    forall c: nat | c < n + 1 && c != n
      ensures InOrder(ord, base, t, c)
    {
      assert InOrder(ord, base, s, c);
    }
    assert OrderedBelow(ord, base, t, n + 1, n);
    UpOrders(ord, base, t, n + 1, n);
    UpMultiset(ord, t, n);
  }

  lemma MultisetSplit(s: seq<Item>, n: nat)
    requires |s| == n + 1
    ensures multiset(s) == multiset(s[..n]) + multiset{s[n]}
  {
    assert s == s[..n] + [s[n]];
  }

  lemma OrderedPrefix(ord: Order, base: int, s: seq<Item>, n: nat)
    requires n <= |s| && Ordered(ord, base, s, n)
    ensures IsHeap(ord, base, s[..n])
  {
    forall c: nat | c < n
      ensures InOrder(ord, base, s[..n], c)
    {
      assert InOrder(ord, base, s, c);
    }
  }

  lemma AboveAfterSwap(ord: Order, base: int, s: seq<Item>)
    requires IsHeap(ord, base, s) && |s| > 1
    ensures OrderedAbove(ord, base, Swapped(s, 0, |s| - 1), |s| - 1, 0)
  {
    var n := |s| - 1;
    var t := Swapped(s, 0, n);
    assert forall k :: 0 < k < n ==> t[k] == s[k];
    forall c: nat | c < n && (c == 0 || Parent(c) != 0)
      ensures InOrder(ord, base, t, c)
    {
      if c > 0 { StillInOrder(ord, base, s, t, c); }
    }
  }

  /** Pop keeps the heap and takes exactly one item, none comes before it. */
  lemma PopTakesGreatest(ord: Order, base: int, s: seq<Item>)
    requires IsHeap(ord, base, s) && s != []
    ensures var (r, x) := Popped(ord, s);
            && IsHeap(ord, base, r) && x == s[0] && |r| == |s| - 1
            && multiset(s) == multiset(r) + multiset{x}
            && forall i :: 0 <= i < |s| ==> Key(ord, base, s[i]) <= Key(ord, base, x)
  {
    var n := |s| - 1;
    var t := Swapped(s, 0, n);
    var d := Down(ord, t, 0, n).0;
    DownMultiset(ord, t, 0, n);
    SwappedMultiset(s, 0, n);
    assert d[n] == d[n..][0] == t[n..][0] == s[0];
    MultisetSplit(d, n);
    if n > 0 {
      AboveAfterSwap(ord, base, s);
      DownOrders(ord, base, t, n, 0);
      OrderedPrefix(ord, base, d, n);
    }
    forall i | 0 <= i < |s|
      ensures Key(ord, base, s[i]) <= Key(ord, base, s[0])
    {
      RootIsGreatest(ord, base, s, |s|, i);
    }
  }

  lemma AroundAfterSwap(ord: Order, base: int, s: seq<Item>, i: nat)
    requires IsHeap(ord, base, s) && i < |s| - 1
    ensures OrderedAround(ord, base, Swapped(s, i, |s| - 1), |s| - 1, i)
  {
    var n := |s| - 1;
    var t := Swapped(s, i, n);
    assert forall k :: 0 <= k < n && k != i ==> t[k] == s[k];
    forall c: nat | c < n && c != i && (c == 0 || Parent(c) != i)
      ensures InOrder(ord, base, t, c)
    {
      StillInOrder(ord, base, s, t, c);
    }
    forall c: nat | c < n && c > 0 && Parent(c) == i && i > 0
      ensures Key(ord, base, t[c]) <= Key(ord, base, t[Parent(i)])
    {
      assert InOrder(ord, base, s, c) && InOrder(ord, base, s, i);
    }
  }

  lemma StillInOrder(ord: Order, base: int, s: seq<Item>, t: seq<Item>, c: nat)
    requires c < |s| == |t| && InOrder(ord, base, s, c) && t[c] == s[c] && t[Parent(c)] == s[Parent(c)]
    ensures InOrder(ord, base, t, c)
  {
  }

  /** Remove keeps the heap and takes exactly the item at the index given. */
  lemma RemoveTakesIndexed(ord: Order, base: int, s: seq<Item>, i: nat)
    requires IsHeap(ord, base, s) && i < |s|
    ensures var (r, x) := Removed(ord, s, i);
            && IsHeap(ord, base, r) && x == s[i] && |r| == |s| - 1
            && multiset(s) == multiset(r) + multiset{x}
  {
    var n := |s| - 1;
    if i == n {
      MultisetSplit(s, n);
      OrderedKept(ord, base, s, n);
    } else {
      FixTakes(ord, base, s, i, n, Fixed(ord, Swapped(s, i, n), i, n));
    }
  }

  lemma FixTakes(ord: Order, base: int, s: seq<Item>, i: nat, n: nat, r: seq<Item>)
    requires IsHeap(ord, base, s) && i < n == |s| - 1 && r == Fixed(ord, Swapped(s, i, n), i, n)
    ensures |r| == n + 1 && IsHeap(ord, base, r[..n]) && r[n] == s[i]
    ensures multiset(s) == multiset(r[..n]) + multiset{r[n]}
  {
    var t := Swapped(s, i, n);
    SwappedMultiset(s, i, n);
    AroundAfterSwap(ord, base, s, i);
    FixOrders(ord, base, t, n, i);
    FixKeeps(ord, t, n, i);
    MultisetSplit(r, n);
    OrderedPrefix(ord, base, r, n);
  }

  /** Down, and up if nothing moved, keep the items and the last of them. */
  lemma FixKeeps(ord: Order, t: seq<Item>, n: nat, i: nat)
    requires i < n && |t| == n + 1
    ensures multiset(Fixed(ord, t, i, n)) == multiset(t) && Fixed(ord, t, i, n)[n] == t[n]
  {
    DownMultiset(ord, t, i, n);
    var (d, k) := Down(ord, t, i, n);
    assert d[n] == d[n..][0] == t[n..][0] == t[n];
    UpMultiset(ord, d, i);
    UpKeepsEnd(ord, d, i);
    var u := Up(ord, d, i);
    assert u[n] == u[i + 1..][n - i - 1] == d[i + 1..][n - i - 1] == d[n];
  }

  lemma OrderedKept(ord: Order, base: int, s: seq<Item>, n: nat)
    requires IsHeap(ord, base, s) && n <= |s|
    ensures IsHeap(ord, base, s[..n])
  {
    OrderedPrefix(ord, base, s, n);
  }

  // ----- moving windows -----

  /** The priorities spread less than 2^63 now, wherever that window lies. */
  ghost predicate Fits(ord: Order, s: seq<Item>)
  {
    exists base :: AllInWindow(ord, base, s)
  }

  /** A heap in some window. */
  ghost predicate IsHeaped(ord: Order, s: seq<Item>)
  {
    exists base :: IsHeap(ord, base, s)
  }

  /** A heap is one in every window that holds its items. */
  lemma Rebase(ord: Order, base: int, base': int, s: seq<Item>)
    requires IsHeap(ord, base, s) && AllInWindow(ord, base', s)
    ensures IsHeap(ord, base', s)
  {
    forall c: nat | c < |s|
      ensures InOrder(ord, base', s, c)
    {
      assert InOrder(ord, base, s, c);
      BeforeIsGreater(ord, base, s[c], s[Parent(c)]);
      BeforeIsGreater(ord, base', s[c], s[Parent(c)]);
    }
  }

  lemma PushKeeps(ord: Order, s: seq<Item>, x: Item)
    requires IsHeaped(ord, s) && Fits(ord, s + [x])
    ensures IsHeaped(ord, Pushed(ord, s, x)) && multiset(Pushed(ord, s, x)) == multiset(s) + multiset{x}
  {
    var base :| IsHeap(ord, base, s);
    var base' :| AllInWindow(ord, base', s + [x]);
    forall i | 0 <= i < |s|
      ensures InWindow(ord, base', s[i])
    {
      assert (s + [x])[i] == s[i];
    }
    assert (s + [x])[|s|] == x;
    Rebase(ord, base, base', s);
    PushKeepsHeap(ord, base', s, x);
  }

  /** Pop takes an item that no other comes before. */
  lemma PopTakesFirst(ord: Order, s: seq<Item>)
    requires IsHeaped(ord, s) && s != []
    ensures var (r, x) := Popped(ord, s);
            && IsHeaped(ord, r) && x == s[0] && multiset(s) == multiset(r) + multiset{x}
            && forall i :: 0 <= i < |s| ==> !Before(ord, s[i], x)
  {
    var base :| IsHeap(ord, base, s);
    PopTakesGreatest(ord, base, s);
    forall i | 0 <= i < |s|
      ensures !Before(ord, s[i], s[0])
    {
      BeforeIsGreater(ord, base, s[i], s[0]);
    }
  }

  /** If the priorities stand, modulo 2^64 in the wrap-around order, for numbers that
      spread less than 2^63, the item popped has the greatest of them. */
  lemma PopIsGreatest(ord: Order, s: seq<Item>, ns: seq<int>, low: int)
    requires IsHeaped(ord, s) && s != [] && |ns| == |s|
    requires ord.Plain? ==> forall i :: 0 <= i < |s| ==> ns[i] == s[i].priority
    requires ord.WrapAround? ==>
               forall i :: 0 <= i < |s| ==> low <= ns[i] < low + TT63 && (ns[i] - s[i].priority) % TT64 == 0
    ensures Popped(ord, s).1 == s[0] && forall i :: 0 <= i < |s| ==> ns[i] <= ns[0]
  {
    PopTakesFirst(ord, s);
    forall i | 0 <= i < |s|
      ensures ns[i] <= ns[0]
    {
      if ord.WrapAround? {
        SameKey(low, s[i], ns[i]);
        SameKey(low, s[0], ns[0]);
        BeforeIsGreater(ord, low, s[i], s[0]);
      }
    }
  }

  lemma SameKey(low: int, x: Item, n: int)
    requires low <= n < low + TT63 && (n - x.priority) % TT64 == 0
    ensures Key(WrapAround, low, x) == n - low
  {
  }

  lemma RemoveTakes(ord: Order, s: seq<Item>, i: nat)
    requires IsHeaped(ord, s) && i < |s|
    ensures var (r, x) := Removed(ord, s, i);
            IsHeaped(ord, r) && x == s[i] && multiset(s) == multiset(r) + multiset{x}
  {
    var base :| IsHeap(ord, base, s);
    RemoveTakesIndexed(ord, base, s, i);
  }

  // ----- runs -----

  datatype Op = PushOp(x: Item) | PopOp | RemoveOp(i: int)

  /** The source panics on an empty pop and on an index beyond the end, and asks
      that the priorities in the queue spread less than 2^63 at any point. */
  ghost predicate Allowed(ord: Order, s: seq<Item>, op: Op)
  {
    match op
    case PushOp(x) => Fits(ord, s + [x])
    case PopOp => s != []
    case RemoveOp(i) => i < |s|
  }

  /** The new items, and the items taken out. A negative index removes nothing. */
  ghost function Exec(ord: Order, s: seq<Item>, op: Op): (seq<Item>, multiset<Item>)
    requires Allowed(ord, s, op)
  {
    match op
    case PushOp(x) => (Pushed(ord, s, x), multiset{})
    case PopOp => var (r, x) := Popped(ord, s); (r, multiset{x})
    case RemoveOp(i) => if i < 0 then (s, multiset{}) else var (r, x) := Removed(ord, s, i); (r, multiset{x})
  }

  /** A run from s: every operation is allowed where it happens. The window may
      move with every operation. */
  ghost predicate IsRun(ord: Order, s: seq<Item>, ops: seq<Op>)
    decreases |ops|
  {
    ops == [] || (Allowed(ord, s, ops[0]) && IsRun(ord, Exec(ord, s, ops[0]).0, ops[1..]))
  }

  ghost function RunItems(ord: Order, s: seq<Item>, ops: seq<Op>): (seq<Item>, multiset<Item>)
    requires IsRun(ord, s, ops)
    decreases |ops|
  {
    if ops == [] then (s, multiset{})
    else
      var (t, out) := Exec(ord, s, ops[0]);
      var (r, rest) := RunItems(ord, t, ops[1..]);
      (r, out + rest)
  }

  ghost function PushedBy(ops: seq<Op>): multiset<Item>
  {
    if ops == [] then multiset{}
    else (if ops[0].PushOp? then multiset{ops[0].x} else multiset{}) + PushedBy(ops[1..])
  }

  lemma ExecKeeps(ord: Order, s: seq<Item>, op: Op)
    requires IsHeaped(ord, s) && Allowed(ord, s, op)
    ensures var (t, out) := Exec(ord, s, op);
            && IsHeaped(ord, t)
            && multiset(s) + (if op.PushOp? then multiset{op.x} else multiset{}) == multiset(t) + out
  {
    match op
    case PushOp(x) => PushKeeps(ord, s, x);
    case PopOp => PopTakesFirst(ord, s);
    case RemoveOp(i) => if i >= 0 { RemoveTakes(ord, s, i); }
  }

  /** Every run keeps the heap, and what was there and what was pushed is what
      is left and what was taken out. */
  lemma {:induction false} RunKeepsHeap(ord: Order, s: seq<Item>, ops: seq<Op>)
    requires IsHeaped(ord, s) && IsRun(ord, s, ops)
    ensures var (r, out) := RunItems(ord, s, ops);
            IsHeaped(ord, r) && multiset(s) + PushedBy(ops) == multiset(r) + out
    decreases |ops|
  {
    if ops == [] {
    } else {
      ExecKeeps(ord, s, ops[0]);
      var (t, out) := Exec(ord, s, ops[0]);
      RunKeepsHeap(ord, t, ops[1..]);
      var (r, rest) := RunItems(ord, t, ops[1..]);
      var p := if ops[0].PushOp? then multiset{ops[0].x} else multiset{};
      Exchange(multiset(s), p, multiset(t), out, PushedBy(ops[1..]), multiset(r), rest);
    }
  }

  /** Priorities may advance past any one window: a run that pushes 0 and
      2^63 - 1, removes the first and pushes 2^63, although no window holds both
      ends. */
  lemma WindowMoves()
    ensures var a, b, c := Item(0, 0), Item(1, TT63 - 1), Item(2, TT63);
            var ops := [PushOp(a), PushOp(b), RemoveOp(1), PushOp(c)];
            && IsRun(WrapAround, [], ops) && RunItems(WrapAround, [], ops) == ([c, b], multiset{a})
            && !Fits(WrapAround, [a, c])
  {
    var a, b, c := Item(0, 0), Item(1, TT63 - 1), Item(2, TT63);
    NoWindow(a, c);
    PushedApart(a, b, 0);
    PushedApart(b, c, TT63 - 1);
    PushedAlone(a);
    assert [b, a][..1] == [b];
    FirstOp([b], PushOp(c), [], [c, b], multiset{}, [c, b], multiset{}, multiset{});
    assert [PushOp(c)] + [] == [PushOp(c)];
    FirstOp([b, a], RemoveOp(1), [PushOp(c)], [b], multiset{a}, [c, b], multiset{}, multiset{a});
    assert [RemoveOp(1)] + [PushOp(c)] == [RemoveOp(1), PushOp(c)];
    FirstOp([a], PushOp(b), [RemoveOp(1), PushOp(c)], [b, a], multiset{}, [c, b], multiset{a}, multiset{a});
    assert [PushOp(b)] + [RemoveOp(1), PushOp(c)] == [PushOp(b), RemoveOp(1), PushOp(c)];
    FirstOp([], PushOp(a), [PushOp(b), RemoveOp(1), PushOp(c)], [a], multiset{}, [c, b], multiset{a}, multiset{a});
    assert [PushOp(a)] + [PushOp(b), RemoveOp(1), PushOp(c)] == [PushOp(a), PushOp(b), RemoveOp(1), PushOp(c)];
  }

  /** A run that gives these items and takes these out. */
  ghost predicate RunGives(s: seq<Item>, ops: seq<Op>, r: seq<Item>, out: multiset<Item>)
  {
    IsRun(WrapAround, s, ops) && RunItems(WrapAround, s, ops) == (r, out)
  }

  lemma FirstOp(s: seq<Item>, op: Op, ops: seq<Op>, t: seq<Item>, out: multiset<Item>, r: seq<Item>,
                rest: multiset<Item>, all: multiset<Item>)
    requires Allowed(WrapAround, s, op) && Exec(WrapAround, s, op) == (t, out) && RunGives(t, ops, r, rest)
    requires all == out + rest
    ensures RunGives(s, [op] + ops, r, all)
  {
    assert ([op] + ops)[1..] == ops;
  }

  lemma PushedAlone(x: Item)
    ensures Fits(WrapAround, [] + [x]) && Pushed(WrapAround, [], x) == [x]
  {
    assert AllInWindow(WrapAround, x.priority, [] + [x]);
  }

  lemma PushedApart(a: Item, b: Item, base: int)
    requires Key(WrapAround, base, a) < Key(WrapAround, base, b) < TT63
    ensures Fits(WrapAround, [a] + [b]) && Pushed(WrapAround, [a], b) == [b, a]
  {
    assert AllInWindow(WrapAround, base, [a] + [b]);
    BeforeIsGreater(WrapAround, base, b, a);
    assert Swapped([a] + [b], 0, 1) == [b, a];
  }

  lemma NoWindow(a: Item, c: Item)
    requires c.priority == a.priority + TT63
    ensures !Fits(WrapAround, [a, c])
  {
    forall base
      ensures !AllInWindow(WrapAround, base, [a, c])
    {
      assert !InWindow(WrapAround, base, [a, c][0]) || !InWindow(WrapAround, base, [a, c][1]);
    }
  }

  lemma Exchange(s: multiset<Item>, p: multiset<Item>, t: multiset<Item>, out: multiset<Item>,
                 p': multiset<Item>, r: multiset<Item>, rest: multiset<Item>)
    requires s + p == t + out && t + p' == r + rest
    ensures s + (p + p') == r + (out + rest)
  {
    forall x: Item
      ensures (s + (p + p'))[x] == (r + (out + rest))[x]
    {
      assert (s + p)[x] == (t + out)[x] && (t + p')[x] == (r + rest)[x];
    }
  }
}
