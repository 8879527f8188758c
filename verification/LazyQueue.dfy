/** The lazy queue of common/prque/lazyqueue.go: two heaps ordered by estimates
    that trade places, and a third for popping by actual priority. */
module LazyPriorityQueue {
  import opened Common
  import opened HeapSpec
  import opened PriorityQueue
  import opened LazyServing

  /** The heap at place `which` reports even indices when it is at the offset. */
  function CallbackAt(which: nat, indexOffset: nat): Callback
  {
    if which == indexOffset then Even else Odd
  }

  /** The two heaps between calls: heaps of estimates with no value in both, every
      item's last reported index says which heap and where, and -1 was the last
      report for every other value. */
  ghost predicate Sound(last: map<Value, int>, indexOffset: nat, s0: seq<Item>, s1: seq<Item>)
  {
    && IsHeap(Plain, 0, s0) && IsHeap(Plain, 0, s1) && ValuesOf(s0) !! ValuesOf(s1)
    && Indexed(last, CallbackAt(0, indexOffset), s0) && Indexed(last, CallbackAt(1, indexOffset), s1)
    && AbsentReported(last, ValuesOf(s0) + ValuesOf(s1))
  }

  ghost predicate AbsentReported(last: map<Value, int>, queued: set<Value>)
  {
    forall v :: v in last && v !in queued ==> last[v] == -1
  }

  lemma OthersTrans(l0: map<Value, int>, l1: map<Value, int>, l2: map<Value, int>, us: set<Value>, ws: set<Value>,
                    vs: set<Value>)
    ensures OthersKept(l0, l1, us) && OthersKept(l1, l2, ws) && us <= vs && ws <= vs ==> OthersKept(l0, l2, vs)
  {
  }

  lemma Traded(items: multiset<Item>, less: multiset<Item>, x: Item, y: Item)
    ensures items == less + multiset{x} ==> x in items && less + multiset{y} == items - multiset{x} + multiset{y}
  {
  }

  lemma PutBack(all: set<Value>, less: set<Value>, v: Value)
    ensures v in all && less == all - {v} ==> less + {v} == all
  {
  }

  lemma SoundPush(last: map<Value, int>, last': map<Value, int>, off: nat, s0: seq<Item>, s1: seq<Item>, x: Item)
    requires Sound(last, off, s0, s1) && x.value !in ValuesOf(s0) && x.value !in ValuesOf(s1)
    requires OthersKept(last, last', ValuesOf(s1) + {x.value})
    requires Indexed(last', CallbackAt(1, off), Pushed(Plain, s1, x))
    ensures Sound(last', off, s0, Pushed(Plain, s1, x))
    ensures ValuesOf(Pushed(Plain, s1, x)) == ValuesOf(s1) + {x.value}
  {
    PushKeepsHeap(Plain, 0, s1, x);
    ValuesOfParts(Pushed(Plain, s1, x), s1, x);
  }

  lemma SoundPop0(last: map<Value, int>, last': map<Value, int>, off: nat, s0: seq<Item>, s1: seq<Item>, x: Item)
    requires Sound(last, off, s0, s1) && s0 != [] && x == Popped(Plain, s0).1
    requires Leaves(last, last', CallbackAt(0, off), s0, Popped(Plain, s0).0, x)
    ensures Sound(last', off, Popped(Plain, s0).0, s1)
    ensures Taken(s0, Popped(Plain, s0).0, x) && x.value !in ValuesOf(s1)
  {
    PopTakesGreatest(Plain, 0, s0);
    ValuesOfParts(s0, Popped(Plain, s0).0, x);
  }

  lemma SoundPop1(last: map<Value, int>, last': map<Value, int>, off: nat, s0: seq<Item>, s1: seq<Item>, x: Item)
    requires Sound(last, off, s0, s1) && s1 != [] && x == Popped(Plain, s1).1
    requires Leaves(last, last', CallbackAt(1, off), s1, Popped(Plain, s1).0, x)
    ensures Sound(last', off, s0, Popped(Plain, s1).0)
    ensures Taken(s1, Popped(Plain, s1).0, x) && x.value !in ValuesOf(s0)
  {
    PopTakesGreatest(Plain, 0, s1);
    ValuesOfParts(s1, Popped(Plain, s1).0, x);
  }

  /** r is s without x, and x's value is in s only once. */
  ghost predicate Taken(s: seq<Item>, r: seq<Item>, x: Item)
  {
    && multiset(s) == multiset(r) + multiset{x}
    && ValuesOf(s) == ValuesOf(r) + {x.value} && x.value !in ValuesOf(r)
  }

  lemma SoundRemove(last: map<Value, int>, last': map<Value, int>, off: nat, s0: seq<Item>, s1: seq<Item>,
                    which: nat, i: nat, x: Item)
    requires Sound(last, off, s0, s1) && which <= 1 && i < |if which == 0 then s0 else s1|
    requires var s := if which == 0 then s0 else s1;
             x == Removed(Plain, s, i).1 && Leaves(last, last', CallbackAt(which, off), s, Removed(Plain, s, i).0, x)
    ensures var s := if which == 0 then s0 else s1;
            var r := Removed(Plain, s, i).0;
            && Taken(s, r, x) && x == s[i]
            && Sound(last', off, if which == 0 then r else s0, if which == 0 then s1 else r)
  {
    var s := if which == 0 then s0 else s1;
    var other := if which == 0 then s1 else s0;
    RemoveTakesIndexed(Plain, 0, s, i);
    ValuesOfParts(s, Removed(Plain, s, i).0, x);
  }

  /** Which heap a reported index belongs to: (index & 1) ^ indexOffset. */
  function PlaceOf(index: nat, indexOffset: nat): nat
  {
    if index % 2 == indexOffset then 0 else 1
  }

  /** Across swaps, the last index reported for a queued value finds its heap and
      its position there, and only that value has that index. */
  lemma IndexFindsItem(last: map<Value, int>, off: nat, s0: seq<Item>, s1: seq<Item>, v: Value)
    requires off <= 1 && Sound(last, off, s0, s1) && v in ValuesOf(s0) + ValuesOf(s1)
    ensures v in last && last[v] >= 0
    ensures var s := if PlaceOf(last[v], off) == 0 then s0 else s1;
            last[v] / 2 < |s| && s[last[v] / 2].value == v
  {
  }

  /** An index reported names one value. */
  lemma IndexNames(last: map<Value, int>, off: nat, s0: seq<Item>, s1: seq<Item>, index: nat)
    requires off <= 1 && Sound(last, off, s0, s1)
    ensures forall v :: v in ValuesOf(s0) + ValuesOf(s1) && v in last && last[v] == index ==>
              var s := if PlaceOf(index, off) == 0 then s0 else s1; index / 2 < |s| && s[index / 2].value == v
  {
  }

  // ----- estimates -----

  /** The value that stands for nil. */
  const NIL: Value := 0

  /** The item is one of `kept` if its value is, and otherwise carries its estimate
      made now. */
  ghost function Estimated(maxPriority: Estimate, now: int, until: int, kept: seq<Item>): Item -> bool
  {
    (x: Item) => if x.value in ValuesOf(kept) then x in kept else x == Fresh(maxPriority, x.value, now, until)
  }

  lemma KeptAreEstimated(maxPriority: Estimate, now: int, until: int, kept: seq<Item>)
    ensures Every(kept, Estimated(maxPriority, now, until, kept))
  {
    forall i | 0 <= i < |kept|
      ensures Estimated(maxPriority, now, until, kept)(kept[i])
    {
      assert kept[i].value in ValuesOf(kept);
    }
  }

  /** A value taken out of one of two parts. */
  lemma TakenFrom(v0: set<Value>, v1: set<Value>, v0': set<Value>, x: Value)
    requires x in v0 + v1 && v0' + v1 == v0 + v1 - {x} && v0' !! v1
    ensures x in v0 && v0' <= v0
  {
    assert x !in v1;
  }

  /** Every item is one of those before, or carries its estimate made now. */
  ghost predicate IsFrom(items: multiset<Item>, before: multiset<Item>, maxPriority: Estimate, now: int, until: int)
  {
    forall x :: x in items ==> x in before || x == Fresh(maxPriority, x.value, now, until)
  }

  /** Sound heaps are heaps of different values. */
  lemma SoundIsApart(last: map<Value, int>, off: nat, s0: seq<Item>, s1: seq<Item>, made: map<Value, Made>)
    requires off <= 1 && Sound(last, off, s0, s1)
    ensures IsApart(Lane(s0, s1, [], made)) && Values(Lane(s0, s1, [], made)) == ValuesOf(s0) + ValuesOf(s1)
  {
    IndexedIsDistinct(last, CallbackAt(0, off), s0);
    IndexedIsDistinct(last, CallbackAt(1, off), s1);
  }

  /** A heap item that was there or carries an estimate made now, and bounds if
      the call can rely on that. */
  ghost function Sensible(c: Turn, sure: bool, items: multiset<Item>): Item -> bool
  {
    (x: Item) => (x in items || x == Fresh(c.maxPriority, x.value, c.now, c.until)) && (sure ==> Bounding(c)(x))
  }

  lemma StartsSensible(c: Turn, sure: bool, l: Lane)
    requires sure ==> Every(l.s0, Bounding(c)) && Every(l.s1, Bounding(c))
    ensures var q := Sensible(c, sure, multiset(l.s0) + multiset(l.s1)); Every(l.s0, q) && Every(l.s1, q)
  {
    forall s: seq<Item>, i | (s == l.s0 || s == l.s1) && 0 <= i < |s|
      ensures Sensible(c, sure, multiset(l.s0) + multiset(l.s1))(s[i])
    {
      assert s[i] in multiset(s);
      assert sure ==> Bounding(c)(s[i]);
    }
  }

  lemma EndsSensible(c: Turn, all: set<Value>, sure: bool, items: multiset<Item>, l: Lane, left: set<Value>)
    ensures Stands(c, all, Sensible(c, sure, items), l, left) && l.p == [] ==>
              Queued(l) == left && IsFrom(multiset(l.s0) + multiset(l.s1), items, c.maxPriority, c.now, c.until)
  {
    var q := Sensible(c, sure, items);
    if Stands(c, all, q, l, left) && l.p == [] {
      assert Queued(l) == Values(l);
      forall x | x in multiset(l.s0) + multiset(l.s1)
        ensures x in items || x == Fresh(c.maxPriority, x.value, c.now, c.until)
      {
        var s := if x in l.s0 then l.s0 else l.s1;
        var i :| 0 <= i < |s| && s[i] == x;
        assert q(s[i]);
      }
    }
  }

  /** What a call gives a queue. */
  ghost predicate Gives(c: Turn, all: set<Value>, sure: bool, l: Lane, script: seq<Reply>, served: (seq<Handed>, Lane))
  {
    && IsServed(At(c.priority, c.now), sure, all, all, script, 0, served.0)
    && served.1.p == [] && Queued(served.1) == Left(all, served.0)
    && IsFrom(multiset(served.1.s0) + multiset(served.1.s1), multiset(l.s0) + multiset(l.s1),
              c.maxPriority, c.now, c.until)
  }

  lemma ServedSensible(c: Turn, all: set<Value>, sure: bool, l: Lane, script: seq<Reply>)
    requires IsApart(l) && l.p == [] && Values(l) == all
    requires sure ==> Every(l.s0, Bounding(c)) && Every(l.s1, Bounding(c))
    requires sure ==> IsUpperNow(c)
    ensures var (log, end) := Served(c, l, script, 0, {});
            && IsServed(At(c.priority, c.now), sure, all, all, script, 0, log)
            && Stands(c, all, Sensible(c, sure, multiset(l.s0) + multiset(l.s1)), end, Left(all, log)) && end.p == []
  {
    StartsSensible(c, sure, l);
    ServedIs(c, all, Sensible(c, sure, multiset(l.s0) + multiset(l.s1)), sure, l, script);
  }

  lemma ServedGives(c: Turn, all: set<Value>, sure: bool, l: Lane, script: seq<Reply>)
    requires IsApart(l) && l.p == [] && Values(l) == all
    requires sure ==> Every(l.s0, Bounding(c)) && Every(l.s1, Bounding(c))
    requires sure ==> IsUpperNow(c)
    ensures Gives(c, all, sure, l, script, Served(c, l, script, 0, {}))
  {
    ServedSensible(c, all, sure, l, script);
    var (log, end) := Served(c, l, script, 0, {});
    EndsSensible(c, all, sure, multiset(l.s0) + multiset(l.s1), end, Left(all, log));
  }

  lemma OneLeft(left: set<Value>, h: Handed)
    ensures h.back == [] ==> Left(left, [h]) == left - {h.item.value}
  {
    LeftCons(left, h, []);
    assert [h] + [] == [h];
    assert h.back == [] ==> SetOf(h.back) == {};
  }

  lemma NoValues(s: seq<Item>)
    ensures ValuesOf(s) == {} ==> s == []
  {
    if s != [] { assert s[0].value in ValuesOf(s); }
  }

  lemma EveryPushed(s: seq<Item>, x: Item, p: Item -> bool)
    ensures IsHeap(Plain, 0, s) && Every(s, p) && p(x) ==> Every(Pushed(Plain, s, x), p)
  {
    if IsHeap(Plain, 0, s) {
      PushKeepsHeap(Plain, 0, s, x);
      EveryOfParts(Pushed(Plain, s, x), s, x, p);
    }
  }

  class LazyQueue {
    const registry: Registry
    const popQueue: SStack
    const priority: Priority
    const maxPriority: Estimate
    const period: int
    var q0: SStack
    var q1: SStack
    var maxUntil: int
    var indexOffset: nat
    var lastRefresh1: int
    var lastRefresh2: int

    /** The two heaps and what was reported about their items. */
    ghost predicate QueuesOk()
      reads this, q0, q1, registry
    {
      && indexOffset <= 1 && q0 != q1 && q0.registry == registry && q1.registry == registry
      && q0.Valid() && q1.Valid() && q0.order == Plain && q1.order == Plain
      && q0.callback == CallbackAt(0, indexOffset) && q1.callback == CallbackAt(1, indexOffset)
      && Sound(registry.last, indexOffset, q0.Flat(), q1.Flat())
    }

    /** The pop queue is a third heap, with no callback. */
    ghost predicate PopOk()
      reads this, popQueue
    {
      && q0 != popQueue && q1 != popQueue && popQueue.registry != registry
      && popQueue.Valid() && popQueue.callback == Silent && popQueue.order == Plain
    }

    /** Between calls the pop queue is empty. */
    ghost predicate Valid()
      reads this, q0, q1, popQueue, registry
    {
      QueuesOk() && PopOk() && popQueue.Flat() == []
    }

    /** The values queued, in either heap. */
    ghost function Contents(): set<Value>
      reads this, q0, q1
      requires q0.Valid() && q1.Valid()
    {
      ValuesOf(q0.Flat()) + ValuesOf(q1.Flat())
    }

    /** The items of both heaps, with their estimates. */
    ghost function Items(): multiset<Item>
      reads this, q0, q1
      requires q0.Valid() && q1.Valid()
    {
      multiset(q0.Flat()) + multiset(q1.Flat())
    }

    /** Reports were made about these values only, and none is forgotten. */
    twostate predicate Spared(vs: set<Value>)
      reads registry
    {
      OthersKept(old(registry.last), registry.last, vs)
    }

    /** Takes the greatest estimate off the first heap. */
    method TakeFirst() returns (x: Item)
      requires QueuesOk() && q0.size > 0
      modifies q0, registry
      ensures QueuesOk() && q1.Flat() == old(q1.Flat()) && Spared(old(Contents()))
      ensures (q0.Flat(), x) == Popped(Plain, old(q0.Flat())) && old(Items()) == Items() + multiset{x}
      ensures x.value in old(Contents()) && Contents() == old(Contents()) - {x.value}
    {
      ghost var last, s0, s1 := registry.last, q0.Flat(), q1.Flat();
      x := HeapPop(q0);
      SoundPop0(last, registry.last, indexOffset, s0, s1, x);
    }

    /** Takes the greatest estimate off the second heap. */
    method TakeSecond() returns (x: Item)
      requires QueuesOk() && q1.size > 0
      modifies q1, registry
      ensures QueuesOk() && q0.Flat() == old(q0.Flat()) && Spared(old(Contents()))
      ensures (q1.Flat(), x) == Popped(Plain, old(q1.Flat())) && old(Items()) == Items() + multiset{x}
      ensures x.value in old(Contents()) && Contents() == old(Contents()) - {x.value}
    {
      ghost var last, s0, s1 := registry.last, q0.Flat(), q1.Flat();
      x := HeapPop(q1);
      SoundPop1(last, registry.last, indexOffset, s0, s1, x);
    }

    /** Push places the item in the second heap, with its estimate. */
    method Push(data: Value, now: int)
      requires QueuesOk() && data !in Contents()
      modifies q1, registry
      ensures QueuesOk() && q0.Flat() == old(q0.Flat()) && Spared(old(Contents()) + {data})
      ensures q1.Flat() == Pushed(Plain, old(q1.Flat()), Fresh(maxPriority, data, now, maxUntil))
      ensures Items() == old(Items()) + multiset{Fresh(maxPriority, data, now, maxUntil)}
      ensures Contents() == old(Contents()) + {data}
    {
      ghost var last, s0, s1 := registry.last, q0.Flat(), q1.Flat();
      var x := Item(data, maxPriority(data, now, maxUntil));
      HeapPush(q1, x);
      SoundPush(last, registry.last, indexOffset, s0, s1, x);
      PushKeepsHeap(Plain, 0, s1, x);
    }

    /** refresh re-estimates the items of the first heap into the second, and
        the heaps trade places. */
    method RefreshOnce(now: int)
      requires QueuesOk()
      modifies this`q0, this`q1, this`maxUntil, this`indexOffset, q0, q1, registry
      ensures QueuesOk() && Contents() == old(Contents()) && q0 == old(q1) && q1 == old(q0)
      ensures q1.Flat() == [] && indexOffset == 1 - old(indexOffset) && Spared(old(Contents()))
      ensures Every(q0.Flat(), Estimated(maxPriority, now, now + period, old(q1.Flat())))
      ensures maxUntil == now + period + period
    {
      maxUntil := now + period;
      ghost var s1 := q1.Flat();
      KeptAreEstimated(maxPriority, now, now + period, s1);
      Drain(now, ValuesOf(q0.Flat()), Estimated(maxPriority, now, now + period, s1));
      q0, q1 := q1, q0;
      indexOffset := 1 - indexOffset;
      maxUntil := maxUntil + period;
    }

    /** The loop of refresh: the first heap empties into the second. */
    method Drain(now: int, ghost vs: set<Value>, ghost p: Item -> bool)
      requires QueuesOk() && Every(q1.Flat(), p) && ValuesOf(q0.Flat()) <= vs
      requires forall v :: v in vs ==> p(Fresh(maxPriority, v, now, maxUntil))
      modifies q0, q1, registry
      ensures QueuesOk() && Contents() == old(Contents()) && q0.Flat() == [] && Spared(old(Contents()))
      ensures Every(q1.Flat(), p)
    {
      ghost var last0 := registry.last;
      while q0.size != 0
        invariant QueuesOk() && Contents() == old(Contents()) && Every(q1.Flat(), p) && ValuesOf(q0.Flat()) <= vs
        invariant OthersKept(last0, registry.last, Contents())
        decreases q0.size
      {
        ghost var last1 := registry.last;
        MoveOne(now, vs, p);
        OthersTrans(last0, last1, registry.last, Contents(), Contents(), Contents());
      }
    }

    method MoveOne(now: int, ghost vs: set<Value>, ghost p: Item -> bool)
      requires QueuesOk() && q0.size > 0 && Every(q1.Flat(), p) && ValuesOf(q0.Flat()) <= vs
      requires forall v :: v in vs ==> p(Fresh(maxPriority, v, now, maxUntil))
      modifies q0, q1, registry
      ensures QueuesOk() && Contents() == old(Contents()) && q0.size == old(q0.size) - 1
      ensures Every(q1.Flat(), p) && Spared(old(Contents())) && ValuesOf(q0.Flat()) <= vs
    {
      ghost var all, last0, v0 := Contents(), registry.last, ValuesOf(q0.Flat());
      var x := TakeFirst();
      TakenFrom(v0, ValuesOf(q1.Flat()), ValuesOf(q0.Flat()), x.value);
      ghost var s1, last1 := q1.Flat(), registry.last;
      PutBack(all, Contents(), x.value);
      Push(x.value, now);
      EveryPushed(s1, Fresh(maxPriority, x.value, now, maxUntil), p);
      OthersTrans(last0, last1, registry.last, all, all, all);
    }

    method RefreshEmpty(now: int)
      requires QueuesOk() && Contents() == {}
      modifies this`q0, this`q1, this`maxUntil, this`indexOffset, q0, q1, registry
      ensures QueuesOk() && Contents() == {} && Items() == multiset{} && q0 == old(q1) && q1 == old(q0)
      ensures indexOffset == 1 - old(indexOffset) && maxUntil == now + period + period
    {
      RefreshOnce(now);
      NoValues(q0.Flat());
    }

    /** Construction reads the clock three times. The application must not have
        anything queued under this registry. */
    constructor (registry: Registry, priority: Priority, maxPriority: Estimate, period: int,
                 now1: int, now2: int, now3: int)
      requires now1 <= now2 <= now3 && AbsentReported(registry.last, {})
      modifies registry
      ensures Valid() && Contents() == {} && Items() == multiset{}
      ensures fresh(q0) && fresh(q1) && fresh(popQueue) && fresh(popQueue.registry) && this.registry == registry
      ensures this.priority == priority && this.maxPriority == maxPriority && this.period == period
      ensures lastRefresh1 == now1 && lastRefresh2 == now2 && maxUntil == now3 + period + period && indexOffset == 1
    {
      this.registry, this.priority, this.maxPriority, this.period := registry, priority, maxPriority, period;
      var none := new Registry();
      var pop := new SStack(Plain, Silent, none);
      var first := new SStack(Plain, Even, registry);
      var second := new SStack(Plain, Odd, registry);
      popQueue, q0, q1 := pop, first, second;
      maxUntil, indexOffset, lastRefresh1, lastRefresh2 := 0, 0, now1, now2;
      new;
      RefreshEmpty(now3);
    }

    /** One round of Refresh. */
    method RefreshAndShift(now: int)
      requires QueuesOk()
      modifies this, q0, q1, registry
      ensures QueuesOk() && Contents() == old(Contents()) && q0 == old(q1) && q1 == old(q0)
      ensures q1.Flat() == [] && indexOffset == 1 - old(indexOffset) && Spared(old(Contents()))
      ensures old(q1.Flat()) == [] ==> Every(q0.Flat(), Anew(maxPriority, Made(now, now + period)))
      ensures maxUntil == now + period + period && lastRefresh2 == old(lastRefresh1) && lastRefresh1 == now
    {
      RefreshOnce(now);
      lastRefresh2 := lastRefresh1;
      lastRefresh1 := now;
    }

    /** Refresh does nothing before two periods have passed since the last one,
        and otherwise exactly two swaps, after which every item has just been
        re-estimated until one period from now. */
    method Refresh(now: int) returns (ghost swaps: nat)
      requires QueuesOk() && period > 0 && lastRefresh1 <= lastRefresh2
      modifies this, q0, q1, registry
      ensures QueuesOk() && Contents() == old(Contents()) && lastRefresh1 <= lastRefresh2 && Spared(old(Contents()))
      ensures q0 == old(q0) && q1 == old(q1) && indexOffset == old(indexOffset)
      ensures swaps == if now - old(lastRefresh2) >= period * 2 then 2 else 0
      ensures swaps == 0 ==>
                && q0.Flat() == old(q0.Flat()) && q1.Flat() == old(q1.Flat()) && lastRefresh2 == old(lastRefresh2)
                && lastRefresh1 == old(lastRefresh1)
                && maxUntil == old(maxUntil)
      ensures swaps == 2 ==>
                && lastRefresh1 == lastRefresh2 == now && maxUntil == now + period + period
                && Every(q0.Flat(), Anew(maxPriority, Made(now, now + period))) && q1.Flat() == []
    {
      swaps := 0;
      ghost var last0 := registry.last;
      while now - lastRefresh2 >= period * 2
        invariant QueuesOk() && Contents() == old(Contents()) && swaps <= 2
        invariant if swaps == 1 then q0 == old(q1) && q1 == old(q0) else q0 == old(q0) && q1 == old(q1)
        invariant OthersKept(last0, registry.last, Contents())
        invariant lastRefresh1 == if swaps == 0 then old(lastRefresh1) else now
        invariant lastRefresh2 ==
                    if swaps == 0 then old(lastRefresh2) else if swaps == 1 then old(lastRefresh1) else now
        invariant swaps == 0 ==> q0.Flat() == old(q0.Flat()) && q1.Flat() == old(q1.Flat()) && maxUntil == old(maxUntil)
        invariant swaps > 0 ==>
                    q1.Flat() == [] && now - old(lastRefresh2) >= period * 2 && maxUntil == now + period + period
        invariant swaps == 2 ==> Every(q0.Flat(), Anew(maxPriority, Made(now, now + period)))
        invariant indexOffset == if swaps == 1 then 1 - old(indexOffset) else old(indexOffset)
        decreases 2 - swaps
      {
        ghost var last1 := registry.last;
        RefreshAndShift(now);
        OthersTrans(last0, last1, registry.last, Contents(), Contents(), Contents());
        swaps := swaps + 1;
      }
    }

    method RemoveFirst(i: nat) returns (item: Item)
      requires QueuesOk() && i < q0.size
      modifies q0, registry
      ensures QueuesOk() && old(Items()) == Items() + multiset{item} && Spared(old(Contents()))
      ensures item == old(q0.Flat())[i] && item.value in registry.last
      ensures item.value in old(Contents()) && Contents() == old(Contents()) - {item.value}
    {
      ghost var last, s0, s1 := registry.last, q0.Flat(), q1.Flat();
      item := HeapRemove(q0, i);
      SoundRemove(last, registry.last, indexOffset, s0, s1, 0, i, item);
    }

    method RemoveSecond(i: nat) returns (item: Item)
      requires QueuesOk() && i < q1.size
      modifies q1, registry
      ensures QueuesOk() && old(Items()) == Items() + multiset{item} && Spared(old(Contents()))
      ensures item == old(q1.Flat())[i] && item.value in registry.last
      ensures item.value in old(Contents()) && Contents() == old(Contents()) - {item.value}
    {
      ghost var last, s0, s1 := registry.last, q0.Flat(), q1.Flat();
      item := HeapRemove(q1, i);
      SoundRemove(last, registry.last, indexOffset, s0, s1, 1, i, item);
    }

    /** Remove takes out the very item whose last reported index is given, in
        whichever heap it sits now; -1 takes out nothing. An index beyond the
        heap makes the source panic. */
    method Remove(index: int) returns (data: Option<Value>, ghost x: Item)
      requires QueuesOk()
      requires index >= 0 ==> index / 2 < (if PlaceOf(index, indexOffset) == 0 then q0 else q1).size
      modifies q0, q1, registry
      ensures QueuesOk() && Spared(old(Contents()))
      ensures index < 0 ==> data == None && Contents() == old(Contents()) && Items() == old(Items())
      ensures index >= 0 ==>
                && data == Some(x.value) && old(Items()) == Items() + multiset{x}
                && x.value in old(Contents()) && Contents() == old(Contents()) - {x.value}
                && x.value in registry.last && registry.last[x.value] == -1
      ensures index >= 0 ==>
                forall v :: v in old(Contents()) && v in old(registry.last) && old(registry.last)[v] == index ==>
                  v == x.value
    {
      if index < 0 {
        return None, Item(0, 0);
      }
      IndexNames(registry.last, indexOffset, q0.Flat(), q1.Flat(), index);
      var item;
      if PlaceOf(index, indexOffset) == 0 {
        item := RemoveFirst(index / 2);
      } else {
        item := RemoveSecond(index / 2);
      }
      return Some(item.value), item;
    }

    /** Update re-estimates the item with the given index, and only that; with a
        negative index the source pushes the nil value. */
    method Update(index: int, now: int) returns (ghost x: Item)
      requires QueuesOk() && (index < 0 ==> NIL !in Contents())
      requires index >= 0 ==> index / 2 < (if PlaceOf(index, indexOffset) == 0 then q0 else q1).size
      modifies q0, q1, registry
      ensures QueuesOk() && Spared(old(Contents()) + {NIL})
      ensures index < 0 ==>
                && Items() == old(Items()) + multiset{Fresh(maxPriority, NIL, now, maxUntil)}
                && Contents() == old(Contents()) + {NIL}
      ensures index >= 0 ==>
                && x in old(Items()) && Contents() == old(Contents())
                && Items() == old(Items()) - multiset{x} + multiset{Fresh(maxPriority, x.value, now, maxUntil)}
      ensures index >= 0 ==>
                forall v :: v in old(Contents()) && v in old(registry.last) && old(registry.last)[v] == index ==>
                  v == x.value
    {
      ghost var all, items, last0 := Contents(), Items(), registry.last;
      var data;
      data, x := Remove(index);
      ghost var last1 := registry.last;
      if data.Some? {
        PutBack(all, Contents(), data.value);
        Traded(items, Items(), x, Fresh(maxPriority, x.value, now, maxUntil));
        Push(data.value, now);
        OthersTrans(last0, last1, registry.last, all, all, all + {NIL});
      } else {
        Push(NIL, now);
        OthersTrans(last0, last1, registry.last, all, all + {NIL}, all + {NIL});
      }
    }

    /** peekIndex: where the greatest estimate is, -1 if both heaps are empty. */
    function PeekIndex(): (k: int)
      reads this, q0, q1
      requires q0.Valid() && q1.Valid()
      ensures k == Top(Lane(q0.Flat(), q1.Flat(), [], map[]))
    {
      if q0.size != 0 then
        if q1.size != 0 && Cell(q1.blocks, 0).value.priority > Cell(q0.blocks, 0).value.priority then 1 else 0
      else if q1.size != 0 then 1
      else -1
    }

    /** The greatest estimate, when there is one. */
    function TopEstimate(): int
      reads this, q0, q1
      requires q0.Valid() && q1.Valid() && PeekIndex() != -1
    {
      if PeekIndex() == 0 then Cell(q0.blocks, 0).value.priority else Cell(q1.blocks, 0).value.priority
    }

    /** No estimate can beat the top of the pop queue. */
    predicate TopIsReady()
      reads this, q0, q1, popQueue
      requires q0.Valid() && q1.Valid() && popQueue.Valid()
      ensures TopIsReady() == IsReady(Lane(q0.Flat(), q1.Flat(), popQueue.Flat(), map[]))
    {
      popQueue.size != 0 && (PeekIndex() == -1 || TopEstimate() < Cell(popQueue.blocks, 0).value.priority)
    }

    /** What a call now works with. */
    ghost function TurnAt(now: int): Turn
      reads this
    {
      Turn(priority, maxPriority, now, maxUntil)
    }

    /** The estimates hold now, and so do estimates made now. */
    ghost predicate IsSure(now: int)
      reads this, q0, q1
      requires q0.Valid() && q1.Valid()
    {
      && Every(q0.Flat(), Bounding(TurnAt(now))) && Every(q1.Flat(), Bounding(TurnAt(now)))
      && IsUpperNow(TurnAt(now))
    }

    /** The heaps are those of the lane. */
    ghost predicate Matches(l: Lane)
      reads this, q0, q1, popQueue
      requires q0.Valid() && q1.Valid() && popQueue.Valid()
    {
      q0.Flat() == l.s0 && q1.Flat() == l.s1 && popQueue.Flat() == l.p
    }

    /** Takes the item with the greatest estimate of both heaps. */
    method TakeTop(ghost l: Lane) returns (x: Item)
      requires QueuesOk() && PeekIndex() != -1 && q0.Flat() == l.s0 && q1.Flat() == l.s1
      modifies q0, q1, registry
      ensures QueuesOk() && Spared(Queued(l)) && x == PoppedTop(l).1
      ensures q0.Flat() == (if Top(l) == 0 then PoppedTop(l).0 else l.s0)
      ensures q1.Flat() == (if Top(l) == 0 then l.s1 else PoppedTop(l).0)
    {
      if PeekIndex() == 0 {
        x := TakeFirst();
      } else {
        x := TakeSecond();
      }
    }

    /** Moves the item with the greatest estimate to the pop queue. */
    method Advance(now: int, ghost all: set<Value>, ghost l: Lane)
      requires QueuesOk() && PopOk() && PeekIndex() != -1 && Matches(l) && Queued(l) <= all
      modifies q0, q1, popQueue, registry, popQueue.registry
      ensures QueuesOk() && PopOk() && Matches(Moved(TurnAt(now), l)) && Spared(all)
    {
      var x := TakeTop(l);
      HeapPush(popQueue, Item(x.value, priority(x.value, now)));
    }

    /** The callback pushes values back. */
    method PushBack(vs: seq<Value>, now: int, ghost all: set<Value>, ghost inv: (Lane, set<Value>) -> bool,
                    ghost l: Lane, ghost left: set<Value>)
      requires QueuesOk() && PopOk() && Matches(l) && IsClosed(TurnAt(now), all, inv) && inv(l, left)
      requires SetOf(vs) <= all && SetOf(vs) !! left && AreOnce(vs)
      modifies q1, registry
      ensures QueuesOk() && PopOk() && Matches(QueueingAll(TurnAt(now), l, vs)) && Spared(all)
      decreases |vs|
    {
      if vs != [] {
        ghost var last0 := registry.last;
        Push(vs[0], now);
        ghost var last1 := registry.last;
        PushBack(vs[1..], now, all, inv, Queueing(TurnAt(now), l, vs[0]), left + {vs[0]});
        OthersTrans(last0, last1, registry.last, Queued(l) + {vs[0]}, all, all);
      }
    }

    /** Hands out the top of the pop queue and asks the callback. */
    method HandOut(now: int, reply: Reply, out: set<Value>, ghost all: set<Value>,
                   ghost inv: (Lane, set<Value>) -> bool,
                   ghost l: Lane, ghost left: set<Value>) returns (h: Handed)
      requires QueuesOk() && PopOk() && Matches(l) && IsClosed(TurnAt(now), all, inv) && inv(l, left)
      requires popQueue.size > 0 && out == all - left
      modifies q1, popQueue, registry, popQueue.registry
      ensures QueuesOk() && PopOk() && h == First(l, reply, out)
      ensures Matches(QueueingAll(TurnAt(now), Handing(l), h.back)) && Spared(all)
    {
      var i := HeapPop(popQueue);
      h := Handed(i, Having(reply.back, out + {i.value}));
      HavingIs(reply.back, out + {i.value});
      PushBack(h.back, now, all, inv, Handing(l), left - {i.value});
    }

    /** After a stop the pop queue goes back into the second heap. */
    method GiveBack(now: int, ghost all: set<Value>, ghost inv: (Lane, set<Value>) -> bool, ghost l: Lane,
                    ghost left: set<Value>)
      requires QueuesOk() && PopOk() && Matches(l) && IsClosed(TurnAt(now), all, inv) && inv(l, left)
      modifies q1, popQueue, registry, popQueue.registry
      ensures QueuesOk() && PopOk() && Matches(Returning(TurnAt(now), l)) && Spared(all)
    {
      ghost var last0, cur := registry.last, l;
      while popQueue.size != 0
        invariant QueuesOk() && PopOk() && Matches(cur) && inv(cur, left)
        invariant Returning(TurnAt(now), cur) == Returning(TurnAt(now), l) && OthersKept(last0, registry.last, all)
        decreases popQueue.size
      {
        ghost var last1 := registry.last;
        cur := ReturnOne(now, all, inv, cur, left);
        OthersTrans(last0, last1, registry.last, all, all, all);
      }
    }

    method ReturnOne(now: int, ghost all: set<Value>, ghost inv: (Lane, set<Value>) -> bool, ghost l: Lane,
                     ghost left: set<Value>) returns (ghost l': Lane)
      requires QueuesOk() && PopOk() && Matches(l) && IsClosed(TurnAt(now), all, inv) && inv(l, left)
      requires popQueue.size > 0
      modifies q1, popQueue, registry, popQueue.registry
      ensures QueuesOk() && PopOk() && Matches(l') && inv(l', left) && Spared(all)
      ensures l' == Queueing(TurnAt(now), Handing(l), Popped(Plain, l.p).1.value)
      ensures popQueue.size == old(popQueue.size) - 1
    {
      var x := HeapPop(popQueue);
      CloseReturn(TurnAt(now), all, inv, l, left);
      Push(x.value, now);
      l' := Queueing(TurnAt(now), Handing(l), x.value);
    }

    /** The inner loop of MultiPop: hands out while no estimate can beat the top
        of the pop queue, until the callback says stop. */
    method ServeReady(now: int, script: seq<Reply>, log0: seq<Handed>, out0: set<Value>, ghost all: set<Value>,
                      ghost inv: (Lane, set<Value>) -> bool, ghost goal: (seq<Handed>, Lane), ghost l0: Lane,
                      ghost left0: set<Value>)
      returns (log: seq<Handed>, out: set<Value>, stopped: bool, ghost l: Lane, ghost left: set<Value>)
      requires QueuesOk() && PopOk() && Matches(l0) && IsClosed(TurnAt(now), all, inv) && inv(l0, left0)
      requires out0 == all - left0 && Remains(goal, log0, TurnAt(now), l0, script, out0) && |log0| <= |script|
      modifies q1, popQueue, registry, popQueue.registry
      ensures QueuesOk() && PopOk() && Matches(l) && inv(l, left) && Spared(all)
      ensures stopped ==> goal == (log, Returning(TurnAt(now), l))
      ensures !stopped ==>
                && out == all - left && Remains(goal, log, TurnAt(now), l, script, out) && !IsReady(l)
                && |log0| <= |log| <= |script| && (|log| == |log0| ==> l == l0)
    {
      log, out, stopped, l, left := log0, out0, false, l0, left0;
      ghost var last0 := registry.last;
      while TopIsReady()
        invariant QueuesOk() && PopOk() && Matches(l) && inv(l, left) && OthersKept(last0, registry.last, all)
        invariant out == all - left && Remains(goal, log, TurnAt(now), l, script, out)
        invariant |log0| <= |log| <= |script| && (|log| == |log0| ==> l == l0)
        decreases |script| - |log|
      {
        ghost var last1 := registry.last;
        ReadySame(l);
        var goOn;
        log, out, goOn, l, left := HandAndLog(now, script, log, out, all, inv, goal, l, left);
        OthersTrans(last0, last1, registry.last, all, all, all);
        if !goOn {
          stopped := true;
          return;
        }
      }
      ReadySame(l);
    }

    /** One item of the inner loop. */
    method HandAndLog(now: int, script: seq<Reply>, log: seq<Handed>, out: set<Value>, ghost all: set<Value>,
                      ghost inv: (Lane, set<Value>) -> bool, ghost goal: (seq<Handed>, Lane), ghost l: Lane,
                      ghost left: set<Value>)
      returns (log': seq<Handed>, out': set<Value>, goOn: bool, ghost l': Lane, ghost left': set<Value>)
      requires QueuesOk() && PopOk() && Matches(l) && IsClosed(TurnAt(now), all, inv) && inv(l, left)
      requires out == all - left && Remains(goal, log, TurnAt(now), l, script, out) && IsReady(l)
      modifies q1, popQueue, registry, popQueue.registry
      ensures QueuesOk() && PopOk() && Matches(l') && inv(l', left') && Spared(all)
      ensures |log'| == |log| + 1 && goOn == ReplyAt(script, |log|).goOn
      ensures if goOn then out' == all - left' && Remains(goal, log', TurnAt(now), l', script, out')
              else goal == (log', Returning(TurnAt(now), l'))
    {
      var reply := ReplyAt(script, |log|);
      FirstKeeps(TurnAt(now), all, inv, l, left, reply);
      RemainsHand(goal, log, TurnAt(now), l, script, out);
      var h := HandOut(now, reply, out, all, inv, l, left);
      log', out', goOn := log + [h], out + {h.item.value} - (set v | v in h.back), reply.goOn;
      l', left' := QueueingAll(TurnAt(now), Handing(l), h.back), left - {h.item.value} + SetOf(h.back);
    }

    /** Both loops of MultiPop. */
    method ServeAll(now: int, script: seq<Reply>, ghost all: set<Value>, ghost inv: (Lane, set<Value>) -> bool,
                    ghost goal: (seq<Handed>, Lane), ghost l0: Lane)
      returns (log: seq<Handed>, stopped: bool, ghost l: Lane, ghost left: set<Value>)
      requires QueuesOk() && PopOk() && Matches(l0) && l0.p == [] && IsClosed(TurnAt(now), all, inv) && inv(l0, all)
      requires Remains(goal, [], TurnAt(now), l0, script, {})
      modifies q0, q1, popQueue, registry, popQueue.registry
      ensures QueuesOk() && PopOk() && Matches(l) && inv(l, left) && Spared(all)
      ensures goal == (log, if stopped then Returning(TurnAt(now), l) else l)
    {
      log, stopped, l, left := [], false, l0, all;
      var out: set<Value> := {};
      ghost var last0 := registry.last;
      while PeekIndex() != -1
        invariant QueuesOk() && PopOk() && Matches(l) && inv(l, left) && OthersKept(last0, registry.last, all)
        invariant out == all - left && Remains(goal, log, TurnAt(now), l, script, out) && !IsReady(l)
        invariant |log| <= |script|
        decreases |script| - |log|, |l.s0| + |l.s1|
      {
        ghost var last1 := registry.last;
        log, out, stopped, l, left := ServeMore(now, script, log, out, all, inv, goal, l, left);
        OthersTrans(last0, last1, registry.last, all, all, all);
        if stopped {
          return;
        }
      }
      RemainsEnd(goal, log, TurnAt(now), l, script, out);
    }

    /** One round of the outer loop. */
    method ServeMore(now: int, script: seq<Reply>, log0: seq<Handed>, out0: set<Value>, ghost all: set<Value>,
                     ghost inv: (Lane, set<Value>) -> bool, ghost goal: (seq<Handed>, Lane), ghost l0: Lane,
                     ghost left0: set<Value>)
      returns (log: seq<Handed>, out: set<Value>, stopped: bool, ghost l: Lane, ghost left: set<Value>)
      requires QueuesOk() && PopOk() && Matches(l0) && IsClosed(TurnAt(now), all, inv) && inv(l0, left0)
      requires out0 == all - left0 && Remains(goal, log0, TurnAt(now), l0, script, out0) && |log0| <= |script|
      requires PeekIndex() != -1 && !IsReady(l0)
      modifies q0, q1, popQueue, registry, popQueue.registry
      ensures QueuesOk() && PopOk() && Matches(l) && inv(l, left) && Spared(all)
      ensures stopped ==> goal == (log, Returning(TurnAt(now), l))
      ensures !stopped ==>
                && out == all - left && Remains(goal, log, TurnAt(now), l, script, out) && !IsReady(l)
                && |log0| <= |log| <= |script| && (|log| == |log0| ==> |l.s0| + |l.s1| < |l0.s0| + |l0.s1|)
    {
      ghost var last0, l1 := registry.last, Moved(TurnAt(now), l0);
      CloseMove(TurnAt(now), all, inv, l0, left0);
      RemainsMove(goal, log0, TurnAt(now), l0, script, out0);
      Advance(now, all, l0);
      ghost var last1 := registry.last;
      log, out, stopped, l, left := ServeReady(now, script, log0, out0, all, inv, goal, l1, left0);
      OthersTrans(last0, last1, registry.last, all, all, all);
    }

    /** MultiPop, by what it will have handed out. */
    method ServeAndReturn(now: int, script: seq<Reply>, ghost all: set<Value>, ghost inv: (Lane, set<Value>) -> bool,
                          ghost goal: (seq<Handed>, Lane), ghost l: Lane) returns (log: seq<Handed>, ghost end: Lane)
      requires QueuesOk() && PopOk() && Matches(l) && l.p == [] && IsClosed(TurnAt(now), all, inv) && inv(l, all)
      requires Remains(goal, [], TurnAt(now), l, script, {})
      modifies q0, q1, popQueue, registry, popQueue.registry
      ensures QueuesOk() && PopOk() && Matches(end) && Spared(all) && (log, end) == goal
    {
      var stopped;
      ghost var left;
      ghost var last0 := registry.last;
      log, stopped, end, left := ServeAll(now, script, all, inv, goal, l);
      if stopped {
        ghost var last1 := registry.last;
        GiveBack(now, all, inv, end, left);
        OthersTrans(last0, last1, registry.last, all, all, all);
        end := Returning(TurnAt(now), end);
      }
    }

    /** The whole call, from a lane whose values are apart. */
    method ServeLane(now: int, script: seq<Reply>, ghost all: set<Value>, ghost l: Lane)
      returns (log: seq<Handed>, ghost end: Lane)
      requires QueuesOk() && PopOk() && Matches(l) && l.p == [] && IsApart(l) && Values(l) == all
      modifies q0, q1, popQueue, registry, popQueue.registry
      ensures QueuesOk() && PopOk() && Matches(end) && Spared(all)
      ensures (log, end) == Served(TurnAt(now), l, script, 0, {})
    {
      ghost var c := TurnAt(now);
      ghost var inv := Invariant(c, all, l);
      ghost var goal := Served(c, l, script, 0, {});
      RemainsStart(goal, c, l, script);
      log, end := ServeAndReturn(now, script, all, inv, goal, l);
    }

    /** MultiPop hands out exactly what the heaps give. That is the best of what
        is there at the time if the estimates hold, until the callback stops it or
        nothing is left; everything else stays queued, with its estimate or one
        made now. */
    method MultiPop(now: int, script: seq<Reply>, ghost made: map<Value, Made>)
      returns (log: seq<Handed>, ghost end: Lane)
      requires Valid()
      modifies q0, q1, popQueue, registry, popQueue.registry
      ensures Valid() && Spared(old(Contents()))
      ensures (log, end) == Served(TurnAt(now), Lane(old(q0.Flat()), old(q1.Flat()), [], made), script, 0, {})
      ensures Matches(end)
      ensures IsServed(At(priority, now), old(IsSure(now)), old(Contents()), old(Contents()), script, 0, log)
      ensures Contents() == Left(old(Contents()), log) && IsFrom(Items(), old(Items()), maxPriority, now, maxUntil)
    {
      ghost var c, l, all, sure := TurnAt(now), Lane(q0.Flat(), q1.Flat(), [], made), Contents(), IsSure(now);
      SoundIsApart(registry.last, indexOffset, l.s0, l.s1, made);
      ServedGives(c, all, sure, l, script);
      log, end := ServeLane(now, script, all, l);
      assert Gives(c, all, sure, l, script, (log, end));
    }

    /** Pop returns a queued value of the greatest actual priority, with that
        priority; it returns nothing when the queue is empty. */
    method Pop(now: int, ghost made: map<Value, Made>) returns (res: Option<Item>)
      requires Valid()
      modifies q0, q1, popQueue, registry, popQueue.registry
      ensures Valid() && Spared(old(Contents()))
      ensures res == Choice(TurnAt(now), Lane(old(q0.Flat()), old(q1.Flat()), [], made))
      ensures res.None? <==> old(Contents()) == {}
      ensures res.None? ==> Contents() == {}
      ensures res.Some? ==>
                && IsBest(At(priority, now), old(IsSure(now)), old(Contents()), res.value)
                && Contents() == old(Contents()) - {res.value.value}
      ensures IsFrom(Items(), old(Items()), maxPriority, now, maxUntil)
    {
      OneServed(TurnAt(now), Lane(q0.Flat(), q1.Flat(), [], made));
      var log;
      ghost var end;
      log, end := MultiPop(now, [], made);
      if log == [] {
        return None;
      }
      OneLeft(old(Contents()), log[0]);
      return Some(log[0].item);
    }
  }
}
