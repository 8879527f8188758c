/** What the lazy queue of common/prque/lazyqueue.go hands out, as a function of
    its heaps: popping by actual priority from heaps ordered by estimates. */
module LazyServing {
  import opened Common
  import opened HeapSpec
  import opened PriorityQueue

  // ----- priorities that change with time -----

  /** The actual priority of a value at a time. */
  type Priority = (Value, int) -> int

  /** The estimate made at one time for all times until another. */
  type Estimate = (Value, int, int) -> int

  /** The estimate is at least the priority in any moment from when it is made
      until the time it is made for. */
  ghost predicate IsUpper(priority: Priority, maxPriority: Estimate)
  {
    forall v, now, t, until :: now <= t <= until ==> priority(v, t) <= maxPriority(v, now, until)
  }

  ghost function At(priority: Priority, now: int): Value -> int
  {
    (v: Value) => priority(v, now)
  }

  ghost function Fresh(maxPriority: Estimate, v: Value, now: int, until: int): Item
  {
    Item(v, maxPriority(v, now, until))
  }

  /** When an estimate was made, and until when. */
  datatype Made = Made(at: int, until: int)

  /** The item carries the estimate made then. */
  ghost function Anew(maxPriority: Estimate, m: Made): Item -> bool
  {
    (x: Item) => x == Fresh(maxPriority, x.value, m.at, m.until)
  }

  // ----- facts about items -----

  /** Every item satisfies p: the same of any rearrangement. */
  ghost predicate Every(s: seq<Item>, p: Item -> bool)
  {
    forall i :: 0 <= i < |s| ==> p(s[i])
  }

  lemma EveryOfParts(s: seq<Item>, r: seq<Item>, x: Item, p: Item -> bool)
    requires multiset(s) == multiset(r) + multiset{x}
    ensures Every(s, p) <==> Every(r, p) && p(x)
  {
    if Every(s, p) {
      assert x in multiset(s);
      assert x in s;
      forall i | 0 <= i < |r|
        ensures p(r[i])
      {
        assert r[i] in multiset(r);
        assert r[i] in multiset(s);
        assert r[i] in s;
      }
    }
    if Every(r, p) && p(x) {
      forall i | 0 <= i < |s|
        ensures p(s[i])
      {
        assert s[i] in multiset(s);
        assert s[i] == x || s[i] in r;
      }
    }
  }

  /** No two items have the same value. */
  ghost predicate Distinct(s: seq<Item>)
  {
    |ValuesOf(s)| == |s|
  }

  lemma {:induction false} AtMostOneEach(s: seq<Item>)
    ensures |ValuesOf(s)| <= |s|
  {
    if s == [] {
    } else {
      var r, x := s[..|s| - 1], s[|s| - 1];
      AtMostOneEach(r);
      assert s == r + [x];
      ValuesOfParts(s, r, x);
    }
  }

  lemma DistinctParts(s: seq<Item>, r: seq<Item>, x: Item)
    requires multiset(s) == multiset(r) + multiset{x}
    ensures Distinct(s) <==> Distinct(r) && x.value !in ValuesOf(r)
  {
    ValuesOfParts(s, r, x);
    AtMostOneEach(r);
    assert |s| == |multiset(s)| == |multiset(r)| + 1 == |r| + 1;
    if x.value in ValuesOf(r) { assert ValuesOf(s) == ValuesOf(r); }
  }

  lemma DistinctTells(s: seq<Item>, i: nat, j: nat)
    requires Distinct(s) && i < |s| && j < |s| && i != j
    ensures s[i].value != s[j].value
  {
    var r := s[..j] + s[j + 1..];
    assert s == s[..j] + [s[j]] + s[j + 1..];
    DistinctParts(s, r, s[j]);
    assert s[i] == if i < j then r[i] else r[i - 1];
  }

  /** Reported positions tell values apart. */
  lemma {:induction false} IndexedIsDistinct(last: map<Value, int>, cb: Callback, s: seq<Item>)
    requires Indexed(last, cb, s) && !cb.Silent?
    ensures Distinct(s)
  {
    if s == [] {
    } else {
      var r, x := s[..|s| - 1], s[|s| - 1];
      IndexedIsDistinct(last, cb, r);
      assert s == r + [x];
      DistinctParts(s, r, x);
    }
  }

  /** A heap of items with different values. */
  ghost predicate IsPile(s: seq<Item>)
  {
    IsHeap(Plain, 0, s) && Distinct(s)
  }

  lemma PilePop(s: seq<Item>, p: Item -> bool)
    requires IsPile(s) && s != []
    ensures var (r, x) := Popped(Plain, s);
            && IsPile(r) && |r| == |s| - 1 && x == s[0] && x.value !in ValuesOf(r)
            && ValuesOf(s) == ValuesOf(r) + {x.value} && (Every(s, p) <==> Every(r, p) && p(x))
  {
    var (r, x) := Popped(Plain, s);
    PopTakesGreatest(Plain, 0, s);
    ValuesOfParts(s, r, x);
    DistinctParts(s, r, x);
    EveryOfParts(s, r, x, p);
  }

  lemma PilePush(s: seq<Item>, x: Item, p: Item -> bool)
    requires IsPile(s) && x.value !in ValuesOf(s)
    ensures var t := Pushed(Plain, s, x);
            IsPile(t) && ValuesOf(t) == ValuesOf(s) + {x.value} && (Every(t, p) <==> Every(s, p) && p(x))
  {
    var t := Pushed(Plain, s, x);
    PushKeepsHeap(Plain, 0, s, x);
    ValuesOfParts(t, s, x);
    DistinctParts(t, s, x);
    EveryOfParts(t, s, x, p);
  }

  // ----- one call -----

  /** The two heaps, the pop queue, and when each queued value's estimate was made. */
  datatype Lane = Lane(s0: seq<Item>, s1: seq<Item>, p: seq<Item>, made: map<Value, Made>)

  /** What a call works with: the callbacks, its time and the time estimates are made for. */
  datatype Turn = Turn(priority: Priority, maxPriority: Estimate, now: int, until: int)

  /** Where the greatest estimate is, -1 if both heaps are empty. */
  function Top(l: Lane): int
  {
    if l.s0 != [] then if l.s1 != [] && l.s1[0].priority > l.s0[0].priority then 1 else 0
    else if l.s1 != [] then 1
    else -1
  }

  function TopItem(l: Lane): Item
    requires Top(l) != -1
  {
    if Top(l) == 0 then l.s0[0] else l.s1[0]
  }

  /** No estimate can beat the top of the pop queue. */
  predicate IsReady(l: Lane)
  {
    l.p != [] && (Top(l) == -1 || TopItem(l).priority < l.p[0].priority)
  }

  ghost function PoppedTop(l: Lane): (seq<Item>, Item)
    requires Top(l) != -1
  {
    Popped(Plain, if Top(l) == 0 then l.s0 else l.s1)
  }

  /** The value with the greatest estimate moves to the pop queue. */
  ghost function Moved(c: Turn, l: Lane): (l': Lane)
    requires Top(l) != -1
    ensures |l'.s0| + |l'.s1| == |l.s0| + |l.s1| - 1
  {
    var (r, x) := PoppedTop(l);
    Lane(if Top(l) == 0 then r else l.s0, if Top(l) == 0 then l.s1 else r,
         Pushed(Plain, l.p, Item(x.value, c.priority(x.value, c.now))), l.made - {x.value})
  }

  /** Values move until the pop queue's top can be handed out. */
  ghost function Readied(c: Turn, l: Lane): Lane
    decreases |l.s0| + |l.s1|
  {
    if IsReady(l) || Top(l) == -1 then l else Readied(c, Moved(c, l))
  }

  ghost function Handing(l: Lane): Lane
    requires l.p != []
  {
    l.(p := Popped(Plain, l.p).0)
  }

  /** A value joins the second heap with an estimate made now. */
  ghost function Queueing(c: Turn, l: Lane, v: Value): Lane
  {
    l.(s1 := Pushed(Plain, l.s1, Fresh(c.maxPriority, v, c.now, c.until)), made := l.made[v := Made(c.now, c.until)])
  }

  ghost function QueueingAll(c: Turn, l: Lane, vs: seq<Value>): Lane
    decreases |vs|
  {
    if vs == [] then l else QueueingAll(c, Queueing(c, l, vs[0]), vs[1..])
  }

  /** The pop queue goes back into the second heap. */
  ghost function Returning(c: Turn, l: Lane): Lane
    decreases |l.p|
  {
    if l.p == [] then l else Returning(c, Queueing(c, Handing(l), Popped(Plain, l.p).1.value))
  }

  /** What the callback does with an item: which of the values handed to it it
      pushes back, in which order, and whether it goes on. */
  datatype Reply = Reply(back: seq<Value>, goOn: bool)

  /** The replies are given in order; after the last of them the callback stops. */
  function ReplyAt(script: seq<Reply>, k: nat): Reply
  {
    if k < |script| then script[k] else Reply([], false)
  }

  /** Of the values named, those the callback has, each once. */
  function Having(back: seq<Value>, out: set<Value>): seq<Value>
  {
    if back == [] then []
    else if back[0] in out then [back[0]] + Having(back[1..], out - {back[0]})
    else Having(back[1..], out)
  }

  ghost function SetOf(vs: seq<Value>): set<Value>
  {
    set v | v in vs
  }

  /** An item handed out and the values the callback pushed back then. */
  datatype Handed = Handed(item: Item, back: seq<Value>)

  /** The top of the pop queue is handed out, and the callback names values to push back. */
  ghost function First(r: Lane, reply: Reply, out: set<Value>): Handed
    requires r.p != []
  {
    var x := Popped(Plain, r.p).1;
    Handed(x, Having(reply.back, out + {x.value}))
  }

  /** MultiPop: what is handed out from the k-th reply on, and the lane after it. */
  ghost function Served(c: Turn, l: Lane, script: seq<Reply>, k: nat, out: set<Value>): (seq<Handed>, Lane)
    decreases |script| - k
  {
    var r := Readied(c, l);
    if r.p == [] then ([], r)
    else
      var h := First(r, ReplyAt(script, k), out);
      var l' := QueueingAll(c, Handing(r), h.back);
      if !ReplyAt(script, k).goOn then ([h], Returning(c, l'))
      else
        var (log, end) := Served(c, l', script, k + 1, out + {h.item.value} - SetOf(h.back));
        ([h] + log, end)
  }

  /** Pop: the first item handed out. */
  ghost function Choice(c: Turn, l: Lane): Option<Item>
  {
    var r := Readied(c, l);
    if r.p == [] then None else Some(Popped(Plain, r.p).1)
  }

  /** A callback that stops at once gets that item. */
  lemma OneServed(c: Turn, l: Lane)
    ensures var log := Served(c, l, [], 0, {}).0;
            log == if Choice(c, l).None? then [] else [Handed(Choice(c, l).value, [])]
  {
  }

  lemma ReadySame(l: Lane)
    ensures IsReady(Lane(l.s0, l.s1, l.p, map[])) == IsReady(l) && Top(Lane(l.s0, l.s1, [], map[])) == Top(l)
  {
  }

  // ----- what every step keeps -----

  ghost function Queued(l: Lane): set<Value>
  {
    ValuesOf(l.s0) + ValuesOf(l.s1)
  }

  /** The values queued or in the pop queue. */
  ghost function Values(l: Lane): set<Value>
  {
    Queued(l) + ValuesOf(l.p)
  }

  /** Three heaps, and no value twice. */
  ghost predicate IsApart(l: Lane)
  {
    && IsPile(l.s0) && IsPile(l.s1) && IsPile(l.p)
    && ValuesOf(l.s0) !! ValuesOf(l.s1) && Queued(l) !! ValuesOf(l.p)
  }

  /** What holds of a lane and the values in it during a call: closed under its steps. */
  ghost predicate IsClosed(c: Turn, all: set<Value>, inv: (Lane, set<Value>) -> bool)
  {
    && (forall l, left :: inv(l, left) ==> Queued(l) <= left <= all && (l.p == [] && Top(l) == -1 ==> left == {}))
    && (forall l, left {:trigger inv(l, left), Moved(c, l)} :: inv(l, left) && Top(l) != -1 ==> inv(Moved(c, l), left))
    && (forall l, left {:trigger inv(l, left), Handing(l)} :: inv(l, left) && l.p != [] ==>
          var v := Popped(Plain, l.p).1.value; v in left && inv(Handing(l), left - {v}))
    && (forall l, left, v {:trigger inv(l, left), Queueing(c, l, v)} :: inv(l, left) && v in all && v !in left ==>
          inv(Queueing(c, l, v), left + {v}))
  }

  lemma CloseMove(c: Turn, all: set<Value>, inv: (Lane, set<Value>) -> bool, l: Lane, left: set<Value>)
    requires Top(l) != -1
    ensures IsClosed(c, all, inv) && inv(l, left) ==> Queued(l) <= all && inv(Moved(c, l), left)
  {
    assert IsClosed(c, all, inv) && inv(l, left) ==> inv(Moved(c, l), left);
  }

  lemma CloseHand(c: Turn, all: set<Value>, inv: (Lane, set<Value>) -> bool, l: Lane, left: set<Value>)
    requires l.p != []
    ensures IsClosed(c, all, inv) && inv(l, left) ==>
              var v := Popped(Plain, l.p).1.value; v in left && left <= all && inv(Handing(l), left - {v})
  {
    assert IsClosed(c, all, inv) && inv(l, left) ==> inv(Handing(l), left - {Popped(Plain, l.p).1.value});
  }

  lemma CloseQueue(c: Turn, all: set<Value>, inv: (Lane, set<Value>) -> bool, l: Lane, left: set<Value>, v: Value)
    ensures IsClosed(c, all, inv) && inv(l, left) ==> Queued(l) <= left <= all
    ensures IsClosed(c, all, inv) && inv(l, left) && v in all && v !in left ==> inv(Queueing(c, l, v), left + {v})
  {
  }

  lemma CloseReturn(c: Turn, all: set<Value>, inv: (Lane, set<Value>) -> bool, l: Lane, left: set<Value>)
    requires l.p != []
    ensures IsClosed(c, all, inv) && inv(l, left) ==>
              var v := Popped(Plain, l.p).1.value;
              v !in Queued(l) && Queued(l) + {v} <= all && inv(Queueing(c, Handing(l), v), left)
  {
    var v := Popped(Plain, l.p).1.value;
    CloseHand(c, all, inv, l, left);
    CloseQueue(c, all, inv, Handing(l), left - {v}, v);
    if IsClosed(c, all, inv) && inv(l, left) {
      assert left - {v} + {v} == left && Queued(Handing(l)) <= left - {v};
    }
  }

  /** What is left of the values after items were handed out. */
  ghost function Left(left: set<Value>, log: seq<Handed>): set<Value>
    decreases |log|
  {
    if log == [] then left else Left(left - {log[0].item.value} + SetOf(log[0].back), log[1..])
  }

  lemma {:induction false} ReadiedKeeps(c: Turn, all: set<Value>, inv: (Lane, set<Value>) -> bool, l: Lane,
                                        left: set<Value>)
    ensures IsClosed(c, all, inv) && inv(l, left) ==>
              var r := Readied(c, l); inv(r, left) && (r.p != [] ==> IsReady(r)) && (r.p == [] ==> left == {})
    decreases |l.s0| + |l.s1|
  {
    if IsReady(l) || Top(l) == -1 {
    } else {
      ReadiedKeeps(c, all, inv, Moved(c, l), left);
    }
  }

  /** Values in a row, none twice. */
  ghost predicate AreOnce(vs: seq<Value>)
  {
    forall i, j :: 0 <= i < j < |vs| ==> vs[i] != vs[j]
  }

  lemma {:induction false} HavingIs(back: seq<Value>, out: set<Value>)
    ensures SetOf(Having(back, out)) == SetOf(back) * out && AreOnce(Having(back, out))
  {
    if back == [] {
    } else if back[0] in out {
      HavingIs(back[1..], out - {back[0]});
      var rest := Having(back[1..], out - {back[0]});
      assert SetOf([back[0]] + rest) == {back[0]} + SetOf(rest) && SetOf(back) == {back[0]} + SetOf(back[1..]);
      assert back[0] !in SetOf(rest);
    } else {
      HavingIs(back[1..], out);
      assert SetOf(back) == {back[0]} + SetOf(back[1..]);
    }
  }

  lemma {:induction false} QueueingKeeps(c: Turn, all: set<Value>, inv: (Lane, set<Value>) -> bool, l: Lane,
                                         left: set<Value>, vs: seq<Value>)
    ensures IsClosed(c, all, inv) && inv(l, left) && SetOf(vs) <= all && SetOf(vs) !! left && AreOnce(vs) ==>
              inv(QueueingAll(c, l, vs), left + SetOf(vs))
    decreases |vs|
  {
    if vs == [] {
      assert left + SetOf(vs) == left;
    } else {
      assert SetOf(vs) == {vs[0]} + SetOf(vs[1..]);
      assert left + SetOf(vs) == left + {vs[0]} + SetOf(vs[1..]);
      QueueingKeeps(c, all, inv, Queueing(c, l, vs[0]), left + {vs[0]}, vs[1..]);
    }
  }

  lemma {:induction false} ReturningKeeps(c: Turn, all: set<Value>, inv: (Lane, set<Value>) -> bool, l: Lane,
                                          left: set<Value>)
    ensures IsClosed(c, all, inv) && inv(l, left) ==> inv(Returning(c, l), left) && Returning(c, l).p == []
    decreases |l.p|
  {
    if l.p == [] {
    } else {
      var v := Popped(Plain, l.p).1.value;
      assert v in left ==> left - {v} + {v} == left;
      ReturningKeeps(c, all, inv, Queueing(c, Handing(l), v), left);
    }
  }

  lemma FirstKeeps(c: Turn, all: set<Value>, inv: (Lane, set<Value>) -> bool, r: Lane, left: set<Value>, reply: Reply)
    requires r.p != []
    ensures IsClosed(c, all, inv) && inv(r, left) ==>
              var h := First(r, reply, all - left);
              var left' := left - {h.item.value} + SetOf(h.back);
              && inv(QueueingAll(c, Handing(r), h.back), left')
              && all - left + {h.item.value} == all - (left - {h.item.value})
              && all - left + {h.item.value} - SetOf(h.back) == all - left'
  {
    if IsClosed(c, all, inv) && inv(r, left) {
      var h := First(r, reply, all - left);
      HavingIs(reply.back, all - left + {h.item.value});
      assert inv(Handing(r), left - {h.item.value}) && left <= all;
      QueueingKeeps(c, all, inv, Handing(r), left - {h.item.value}, h.back);
    }
  }

  lemma LeftCons(left: set<Value>, h: Handed, log: seq<Handed>)
    ensures Left(left, [h] + log) == Left(left - {h.item.value} + SetOf(h.back), log)
  {
    assert ([h] + log)[1..] == log;
  }

  /** One item of a call: the lane it was ready in, the item, and the lane and
      the values left when the callback is done with it. */
  datatype Step = Step(r: Lane, h: Handed, next: Lane, left: set<Value>)

  ghost function StepOf(c: Turn, script: seq<Reply>, all: set<Value>, l: Lane, k: nat, left: set<Value>): Step
  {
    var r := Readied(c, l);
    if r.p == [] then Step(r, Handed(Item(0, 0), []), r, left)
    else
      var h := First(r, ReplyAt(script, k), all - left);
      Step(r, h, QueueingAll(c, Handing(r), h.back), left - {h.item.value} + SetOf(h.back))
  }

  /** What a call hands out from a lane on, and the lane after it. */
  type Call = (Lane, nat, set<Value>) -> (seq<Handed>, Lane)

  ghost function Calling(c: Turn, script: seq<Reply>, all: set<Value>): Call
  {
    (l: Lane, k: nat, left: set<Value>) => Served(c, l, script, k, all - left)
  }

  /** A call goes on step by step and keeps to its invariant: nothing is left, or
      h is handed out of a lane that is ready, and the call goes on or ends. */
  ghost predicate IsStep(call: Call, all: set<Value>, inv: (Lane, set<Value>) -> bool, script: seq<Reply>,
                         l: Lane, k: nat, left: set<Value>, s: Step)
  {
    && inv(s.r, left)
    && if s.r.p == [] then call(l, k, left) == ([], s.r) && left == {}
       else
         && IsReady(s.r) && s.h.item == Popped(Plain, s.r.p).1
         && s.h.back == Having(ReplyAt(script, k).back, all - (left - {s.h.item.value}))
         && s.left == left - {s.h.item.value} + SetOf(s.h.back) && inv(s.next, s.left)
         && if ReplyAt(script, k).goOn
            then call(l, k, left) == ([s.h] + call(s.next, k + 1, s.left).0, call(s.next, k + 1, s.left).1)
            else |call(l, k, left).0| == 1 && call(l, k, left).0[0] == s.h && inv(call(l, k, left).1, s.left)
                 && call(l, k, left).1.p == []
  }

  type Stepper = (Lane, nat, set<Value>) -> Step

  ghost function Stepping(c: Turn, script: seq<Reply>, all: set<Value>): Stepper
  {
    (l: Lane, k: nat, left: set<Value>) => StepOf(c, script, all, l, k, left)
  }

  /** Wherever the invariant holds there is a step. */
  ghost predicate Steps(call: Call, step: Stepper, all: set<Value>, inv: (Lane, set<Value>) -> bool, script: seq<Reply>)
  {
    forall l: Lane, k: nat, left: set<Value> {:trigger step(l, k, left)} :: inv(l, left) ==>
      IsStep(call, all, inv, script, l, k, left, step(l, k, left))
  }

  lemma CallSteps(c: Turn, all: set<Value>, inv: (Lane, set<Value>) -> bool, script: seq<Reply>)
    requires IsClosed(c, all, inv)
    ensures Steps(Calling(c, script, all), Stepping(c, script, all), all, inv, script)
  {
    forall l: Lane, k: nat, left: set<Value> {:trigger Stepping(c, script, all)(l, k, left)} | inv(l, left)
      ensures IsStep(Calling(c, script, all), all, inv, script, l, k, left, Stepping(c, script, all)(l, k, left))
    {
      CallStep(c, all, inv, script, l, k, left);
    }
  }

  lemma CallStep(c: Turn, all: set<Value>, inv: (Lane, set<Value>) -> bool, script: seq<Reply>, l: Lane, k: nat,
                 left: set<Value>)
    requires IsClosed(c, all, inv) && inv(l, left)
    ensures IsStep(Calling(c, script, all), all, inv, script, l, k, left, StepOf(c, script, all, l, k, left))
  {
    ReadiedKeeps(c, all, inv, l, left);
    var s := StepOf(c, script, all, l, k, left);
    if s.r.p != [] {
      FirstKeeps(c, all, inv, s.r, left, ReplyAt(script, k));
      ReturningKeeps(c, all, inv, s.next, s.left);
    }
  }

  lemma {:induction false} CallKeeps(call: Call, step: Stepper, all: set<Value>, inv: (Lane, set<Value>) -> bool,
                                     script: seq<Reply>, l: Lane, k: nat, left: set<Value>)
    requires Steps(call, step, all, inv, script) && inv(l, left)
    ensures inv(call(l, k, left).1, Left(left, call(l, k, left).0)) && call(l, k, left).1.p == []
    decreases |script| - k
  {
    var s := step(l, k, left);
    if s.r.p == [] {
    } else if ReplyAt(script, k).goOn {
      CallKeeps(call, step, all, inv, script, s.next, k + 1, s.left);
      LeftCons(left, s.h, call(s.next, k + 1, s.left).0);
    } else {
      LeftCons(left, s.h, []);
      assert call(l, k, left).0 == [s.h] + [];
    }
  }

  // ----- step by step -----

  /** The call will have handed out what is logged and what the lane still gives. */
  ghost predicate Remains(goal: (seq<Handed>, Lane), log: seq<Handed>, c: Turn, l: Lane, script: seq<Reply>,
                          out: set<Value>)
  {
    var rest := Served(c, l, script, |log|, out); goal == (log + rest.0, rest.1)
  }

  lemma RemainsStart(goal: (seq<Handed>, Lane), c: Turn, l: Lane, script: seq<Reply>)
    ensures goal == Served(c, l, script, 0, {}) ==> Remains(goal, [], c, l, script, {})
  {
    assert [] + goal.0 == goal.0;
  }

  lemma RemainsMove(goal: (seq<Handed>, Lane), log: seq<Handed>, c: Turn, l: Lane, script: seq<Reply>, out: set<Value>)
    requires !IsReady(l) && Top(l) != -1
    ensures Remains(goal, log, c, l, script, out) ==> Remains(goal, log, c, Moved(c, l), script, out)
  {
    assert Readied(c, l) == Readied(c, Moved(c, l));
  }

  lemma ServedHand(c: Turn, l: Lane, script: seq<Reply>, k: nat, out: set<Value>)
    requires IsReady(l)
    ensures var h := First(l, ReplyAt(script, k), out);
            var l' := QueueingAll(c, Handing(l), h.back);
            if ReplyAt(script, k).goOn
            then var rest := Served(c, l', script, k + 1, out + {h.item.value} - SetOf(h.back));
                 Served(c, l, script, k, out) == ([h] + rest.0, rest.1)
            else Served(c, l, script, k, out) == ([h], Returning(c, l'))
  {
    assert Readied(c, l) == l;
  }

  lemma RemainsHand(goal: (seq<Handed>, Lane), log: seq<Handed>, c: Turn, l: Lane, script: seq<Reply>, out: set<Value>)
    requires IsReady(l)
    ensures var h, reply := First(l, ReplyAt(script, |log|), out), ReplyAt(script, |log|);
            var l' := QueueingAll(c, Handing(l), h.back);
            Remains(goal, log, c, l, script, out) ==>
              if reply.goOn then Remains(goal, log + [h], c, l', script, out + {h.item.value} - SetOf(h.back))
              else goal == (log + [h], Returning(c, l'))
  {
    ServedHand(c, l, script, |log|, out);
    var h := First(l, ReplyAt(script, |log|), out);
    var l' := QueueingAll(c, Handing(l), h.back);
    if ReplyAt(script, |log|).goOn {
      Regrouped(log, h, Served(c, l', script, |log| + 1, out + {h.item.value} - SetOf(h.back)).0);
    }
  }

  lemma Regrouped(log: seq<Handed>, h: Handed, rest: seq<Handed>)
    ensures log + ([h] + rest) == log + [h] + rest && |log + [h]| == |log| + 1
  {
  }

  lemma RemainsEnd(goal: (seq<Handed>, Lane), log: seq<Handed>, c: Turn, l: Lane, script: seq<Reply>, out: set<Value>)
    requires !IsReady(l) && Top(l) == -1
    ensures Remains(goal, log, c, l, script, out) ==> goal == (log, l)
  {
    assert Readied(c, l) == l && log + [] == log;
  }

  // ----- what is handed out -----

  ghost function Exact(c: Turn): Item -> bool
  {
    (x: Item) => x.priority == c.priority(x.value, c.now)
  }

  /** The estimate is at least the actual priority. */
  ghost function Bounding(c: Turn): Item -> bool
  {
    (x: Item) => x.priority >= c.priority(x.value, c.now)
  }

  /** An estimate made now is at least the actual priority now. */
  ghost predicate IsUpperNow(c: Turn)
  {
    forall v :: c.maxPriority(v, c.now, c.until) >= c.priority(v, c.now)
  }

  ghost predicate NoneAbove(queued: set<Value>, priority: Value -> int, bound: int)
  {
    forall v :: v in queued ==> priority(v) <= bound
  }

  /** The item was there, carries its actual priority, and, where the estimates
      can be relied on, none that was there has a greater one. */
  ghost predicate IsBest(priority: Value -> int, sure: bool, there: set<Value>, x: Item)
  {
    x.value in there && x.priority == priority(x.value) && (sure ==> NoneAbove(there, priority, x.priority))
  }

  /** Everything handed out is the best of what is there at the time, the callback
      pushes back what it names of what it has, and it ends when the callback
      stops or nothing is left. */
  ghost predicate IsServed(priority: Value -> int, sure: bool, all: set<Value>, left: set<Value>, script: seq<Reply>,
                           k: nat, log: seq<Handed>)
    decreases |log|
  {
    if log == [] then left == {}
    else
      var h, reply := log[0], ReplyAt(script, k);
      var rest := left - {h.item.value};
      && IsBest(priority, sure, left, h.item) && h.back == Having(reply.back, all - rest)
      && if reply.goOn then IsServed(priority, sure, all, rest + SetOf(h.back), script, k + 1, log[1..]) else |log| == 1
  }

  /** With nothing pushed back, what is handed out later was there before. */
  lemma {:induction false} ServedWithin(priority: Value -> int, all: set<Value>, left: set<Value>, script: seq<Reply>,
                                        k: nat, log: seq<Handed>, i: nat)
    requires IsServed(priority, true, all, left, script, k, log) && i < |log|
    requires forall n :: 0 <= n < |log| ==> log[n].back == []
    ensures log[i].item.value in left && log[i].item.priority == priority(log[i].item.value)
    decreases |log|
  {
    if i == 0 {
    } else {
      assert SetOf(log[0].back) == {};
      ServedWithin(priority, all, left - {log[0].item.value} + SetOf(log[0].back), script, k + 1, log[1..], i - 1);
    }
  }

  /** With nothing pushed back, the priorities handed out never rise and no value
      is handed out twice. */
  lemma {:induction false} ServedDescends(priority: Value -> int, all: set<Value>, left: set<Value>, script: seq<Reply>,
                                          k: nat, log: seq<Handed>, i: nat, j: nat)
    requires IsServed(priority, true, all, left, script, k, log) && i < j < |log|
    requires forall n :: 0 <= n < |log| ==> log[n].back == []
    ensures log[i].item.priority >= log[j].item.priority && log[i].item.value != log[j].item.value
    decreases |log|
  {
    var rest := left - {log[0].item.value} + SetOf(log[0].back);
    if i == 0 {
      assert SetOf(log[0].back) == {};
      ServedWithin(priority, all, rest, script, k + 1, log[1..], j - 1);
    } else {
      ServedDescends(priority, all, rest, script, k + 1, log[1..], i - 1, j - 1);
    }
  }

  /** The pop queue holds actual priorities, and every heap item satisfies q. */
  ghost predicate Stands(c: Turn, all: set<Value>, q: Item -> bool, l: Lane, left: set<Value>)
  {
    && IsApart(l) && Values(l) == left && left <= all && Every(l.p, Exact(c)) && Every(l.s0, q) && Every(l.s1, q)
  }

  ghost function Standing(c: Turn, all: set<Value>, q: Item -> bool): (Lane, set<Value>) -> bool
  {
    (l: Lane, left: set<Value>) => Stands(c, all, q, l, left)
  }

  /** A value goes over from one set to another. */
  lemma GoesOver(a: set<Value>, a': set<Value>, b: set<Value>, p: set<Value>, p': set<Value>, v: Value)
    requires a == a' + {v} && v !in a' && p' == p + {v} && a !! b && (a + b) !! p
    ensures a' !! b && (a' + b) !! p' && a' + b + p' == a + b + p && b + a' + p' == b + a + p
  {
  }

  lemma Joins(a: set<Value>, b: set<Value>, b': set<Value>, p: set<Value>, v: Value)
    requires b' == b + {v} && v !in a + b + p && a !! b && (a + b) !! p
    ensures a !! b' && (a + b') !! p && a + b' + p == a + b + p + {v}
  {
  }

  lemma StandsMove(c: Turn, all: set<Value>, q: Item -> bool, l: Lane, left: set<Value>)
    requires Stands(c, all, q, l, left) && Top(l) != -1
    ensures Stands(c, all, q, Moved(c, l), left)
  {
    var s, other := if Top(l) == 0 then l.s0 else l.s1, if Top(l) == 0 then l.s1 else l.s0;
    var (r, x) := Popped(Plain, s);
    var p' := Pushed(Plain, l.p, Item(x.value, c.priority(x.value, c.now)));
    PilePop(s, q);
    PilePush(l.p, Item(x.value, c.priority(x.value, c.now)), Exact(c));
    GoesOver(ValuesOf(s), ValuesOf(r), ValuesOf(other), ValuesOf(l.p), ValuesOf(p'), x.value);
    var m := Moved(c, l);
    assert IsPile(m.s0) && IsPile(m.s1) && IsPile(m.p);
    assert ValuesOf(m.s0) !! ValuesOf(m.s1);
    assert Queued(m) !! ValuesOf(m.p);
    assert Values(m) == left;
    assert Every(m.p, Exact(c));
    assert Every(m.s0, q) && Every(m.s1, q);
  }

  lemma StandsHand(c: Turn, all: set<Value>, q: Item -> bool, l: Lane, left: set<Value>)
    requires Stands(c, all, q, l, left) && l.p != []
    ensures var v := Popped(Plain, l.p).1.value; v in left && Stands(c, all, q, Handing(l), left - {v})
  {
    PilePop(l.p, Exact(c));
    var m := Handing(l);
    assert Queued(m) !! ValuesOf(m.p);
    assert Every(m.p, Exact(c));
  }

  lemma StandsQueue(c: Turn, all: set<Value>, q: Item -> bool, l: Lane, left: set<Value>, v: Value)
    requires Stands(c, all, q, l, left) && v in all && v !in left && q(Fresh(c.maxPriority, v, c.now, c.until))
    ensures Stands(c, all, q, Queueing(c, l, v), left + {v})
  {
    PilePush(l.s1, Fresh(c.maxPriority, v, c.now, c.until), q);
    var m := Queueing(c, l, v);
    Joins(ValuesOf(l.s0), ValuesOf(l.s1), ValuesOf(m.s1), ValuesOf(l.p), v);
  }

  lemma StandsPlain(c: Turn, all: set<Value>, q: Item -> bool, l: Lane, left: set<Value>)
    requires Stands(c, all, q, l, left)
    ensures Queued(l) <= left <= all && (l.p == [] && Top(l) == -1 ==> left == {})
  {
  }

  lemma StandingIsClosed(c: Turn, all: set<Value>, q: Item -> bool)
    requires forall v :: q(Fresh(c.maxPriority, v, c.now, c.until))
    ensures IsClosed(c, all, Standing(c, all, q))
  {
    forall l, left | Stands(c, all, q, l, left)
      ensures Queued(l) <= left <= all && (l.p == [] && Top(l) == -1 ==> left == {})
    {
      StandsPlain(c, all, q, l, left);
    }
    forall l, left | Stands(c, all, q, l, left) && Top(l) != -1
      ensures Stands(c, all, q, Moved(c, l), left)
    {
      StandsMove(c, all, q, l, left);
    }
    forall l, left | Stands(c, all, q, l, left) && l.p != []
      ensures var v := Popped(Plain, l.p).1.value; v in left && Stands(c, all, q, Handing(l), left - {v})
    {
      StandsHand(c, all, q, l, left);
    }
    forall l, left, v | Stands(c, all, q, l, left) && v in all && v !in left
      ensures Stands(c, all, q, Queueing(c, l, v), left + {v})
    {
      StandsQueue(c, all, q, l, left, v);
    }
  }

  /** The root of a heap bounds the actual priorities that its items bound. */
  lemma RootBounds(c: Turn, s: seq<Item>, q: Item -> bool, v: Value)
    requires IsPile(s) && Every(s, q) && v in ValuesOf(s) && forall x :: q(x) ==> Bounding(c)(x)
    ensures s != [] && c.priority(v, c.now) <= s[0].priority
  {
    var i :| 0 <= i < |s| && s[i].value == v;
    RootIsGreatest(Plain, 0, s, |s|, i);
    assert q(s[i]);
    assert Bounding(c)(s[i]);
  }

  /** No queued value's actual priority is above the greatest estimate, if the
      estimates bound. */
  lemma TopBounds(c: Turn, l: Lane, v: Value)
    requires IsApart(l) && Every(l.s0, Bounding(c)) && Every(l.s1, Bounding(c)) && v in Queued(l)
    ensures Top(l) != -1 && c.priority(v, c.now) <= TopItem(l).priority
  {
    RootBounds(c, if v in ValuesOf(l.s0) then l.s0 else l.s1, Bounding(c), v);
  }

  /** Ready, the pop queue's top is the best if the estimates bound. */
  lemma ReadyIsBest(c: Turn, all: set<Value>, q: Item -> bool, sure: bool, l: Lane, left: set<Value>)
    requires Stands(c, all, q, l, left) && IsReady(l) && (sure ==> forall x :: q(x) ==> Bounding(c)(x))
    ensures IsBest(At(c.priority, c.now), sure, left, Popped(Plain, l.p).1)
  {
    PilePop(l.p, Exact(c));
    forall v | sure && v in left
      ensures c.priority(v, c.now) <= l.p[0].priority
    {
      NotAbove(c, all, q, l, left, v);
    }
  }

  lemma NotAbove(c: Turn, all: set<Value>, q: Item -> bool, l: Lane, left: set<Value>, v: Value)
    requires Stands(c, all, q, l, left) && IsReady(l) && v in left && forall x :: q(x) ==> Bounding(c)(x)
    ensures c.priority(v, c.now) <= l.p[0].priority
  {
    if v in ValuesOf(l.p) {
      RootBounds(c, l.p, Exact(c), v);
    } else {
      RootBounds(c, if v in ValuesOf(l.s0) then l.s0 else l.s1, q, v);
    }
  }

  /** Whenever the pop queue's top is ready to be handed out, it is the best. */
  ghost predicate Chooses(c: Turn, sure: bool, inv: (Lane, set<Value>) -> bool)
  {
    forall l, left :: inv(l, left) && IsReady(l) ==> IsBest(At(c.priority, c.now), sure, left, Popped(Plain, l.p).1)
  }

  /** Everything a call hands out is the best of what is there. */
  lemma {:induction false} CallServes(call: Call, step: Stepper, c: Turn, all: set<Value>,
                                      inv: (Lane, set<Value>) -> bool, sure: bool,
                                      script: seq<Reply>, l: Lane, k: nat, left: set<Value>)
    requires Steps(call, step, all, inv, script) && Chooses(c, sure, inv) && inv(l, left)
    ensures IsServed(At(c.priority, c.now), sure, all, left, script, k, call(l, k, left).0)
    decreases |script| - k
  {
    var s := step(l, k, left);
    if s.r.p == [] {
    } else if ReplyAt(script, k).goOn {
      CallServes(call, step, c, all, inv, sure, script, s.next, k + 1, s.left);
      IsServedCons(At(c.priority, c.now), sure, all, left, script, k, s.h, call(s.next, k + 1, s.left).0);
    } else {
      IsServedCons(At(c.priority, c.now), sure, all, left, script, k, s.h, []);
      assert call(l, k, left).0 == [s.h] + [];
    }
  }

  lemma IsServedCons(priority: Value -> int, sure: bool, all: set<Value>, left: set<Value>, script: seq<Reply>, k: nat,
                     h: Handed, log: seq<Handed>)
    ensures IsBest(priority, sure, left, h.item)
            && h.back == Having(ReplyAt(script, k).back, all - (left - {h.item.value}))
            && (if ReplyAt(script, k).goOn
                then IsServed(priority, sure, all, left - {h.item.value} + SetOf(h.back), script, k + 1, log)
                else log == []) ==>
              IsServed(priority, sure, all, left, script, k, [h] + log)
  {
    assert ([h] + log)[1..] == log;
  }

  /** MultiPop: from a lane whose heap items satisfy q, and so do new estimates,
      everything handed out is the best of what is there if q bounds actual
      priorities; what is left is queued again. */
  lemma ServedIs(c: Turn, all: set<Value>, q: Item -> bool, sure: bool, l: Lane, script: seq<Reply>)
    requires Stands(c, all, q, l, all) && forall v :: q(Fresh(c.maxPriority, v, c.now, c.until))
    requires sure ==> forall x :: q(x) ==> Bounding(c)(x)
    ensures var (log, end) := Served(c, l, script, 0, {});
            && IsServed(At(c.priority, c.now), sure, all, all, script, 0, log)
            && Stands(c, all, q, end, Left(all, log)) && end.p == []
  {
    var inv, call := Standing(c, all, q), Calling(c, script, all);
    StandingIsClosed(c, all, q);
    StandingChooses(c, all, q, sure);
    CallSteps(c, all, inv, script);
    CallKeeps(call, Stepping(c, script, all), all, inv, script, l, 0, all);
    CallServes(call, Stepping(c, script, all), c, all, inv, sure, script, l, 0, all);
    assert all - all == {} && call(l, 0, all) == Served(c, l, script, 0, {});
  }

  /** The invariant of a call. */
  lemma Invariant(c: Turn, all: set<Value>, l: Lane) returns (inv: (Lane, set<Value>) -> bool)
    requires IsApart(l) && l.p == [] && Values(l) == all
    ensures IsClosed(c, all, inv) && inv(l, all)
  {
    inv := Standing(c, all, Anything());
    StandingIsClosed(c, all, Anything());
  }

  lemma StandingChooses(c: Turn, all: set<Value>, q: Item -> bool, sure: bool)
    requires sure ==> forall x :: q(x) ==> Bounding(c)(x)
    ensures Chooses(c, sure, Standing(c, all, q))
  {
    forall l, left | Stands(c, all, q, l, left) && IsReady(l)
      ensures IsBest(At(c.priority, c.now), sure, left, Popped(Plain, l.p).1)
    {
      ReadyIsBest(c, all, q, sure, l, left);
    }
  }

  // ----- when estimates were made -----

  /** The item carries the estimate recorded for its value. */
  ghost function AsMade(maxPriority: Estimate, made: map<Value, Made>): Item -> bool
  {
    (x: Item) => x.value in made && x == Fresh(maxPriority, x.value, made[x.value].at, made[x.value].until)
  }

  ghost predicate IsMade(maxPriority: Estimate, l: Lane)
  {
    && l.made.Keys == Queued(l)
    && Every(l.s0, AsMade(maxPriority, l.made)) && Every(l.s1, AsMade(maxPriority, l.made))
  }

  /** The same of the items of both heaps. */
  ghost predicate AreMade(maxPriority: Estimate, items: multiset<Item>, made: map<Value, Made>)
  {
    forall x :: x in items ==> AsMade(maxPriority, made)(x)
  }

  ghost function ItemsOf(l: Lane): multiset<Item>
  {
    multiset(l.s0) + multiset(l.s1)
  }

  lemma MadeItems(maxPriority: Estimate, l: Lane)
    ensures AreMade(maxPriority, ItemsOf(l), l.made) <==>
            Every(l.s0, AsMade(maxPriority, l.made)) && Every(l.s1, AsMade(maxPriority, l.made))
  {
    var p := AsMade(maxPriority, l.made);
    if AreMade(maxPriority, ItemsOf(l), l.made) {
      forall s: seq<Item>, i | (s == l.s0 || s == l.s1) && 0 <= i < |s|
        ensures p(s[i])
      {
        assert s[i] in multiset(s);
        assert s[i] in ItemsOf(l);
      }
    }
    if Every(l.s0, p) && Every(l.s1, p) {
      forall x | x in ItemsOf(l)
        ensures p(x)
      {
        var s := if x in l.s0 then l.s0 else l.s1;
        var i :| 0 <= i < |s| && s[i] == x;
      }
    }
  }

  lemma ItemIsQueued(l: Lane, x: Item)
    requires x in ItemsOf(l)
    ensures x.value in Queued(l)
  {
    var s := if x in l.s0 then l.s0 else l.s1;
    var i :| 0 <= i < |s| && s[i] == x;
  }

  /** A value is queued once. */
  lemma OneItemEach(l: Lane, x: Item, y: Item)
    requires IsApart(l) && x in ItemsOf(l) && y in ItemsOf(l) && x.value == y.value
    ensures x == y
  {
    var s, t := if x in l.s0 then l.s0 else l.s1, if y in l.s0 then l.s0 else l.s1;
    var i :| 0 <= i < |s| && s[i] == x;
    var j :| 0 <= j < |t| && t[j] == y;
    assert x.value in ValuesOf(s) && y.value in ValuesOf(t);
    if i != j { DistinctTells(s, i, j); }
  }

  /** Every estimate is as it was or made now. */
  ghost predicate IsRenewed(c: Turn, before: map<Value, Made>, made: map<Value, Made>)
  {
    forall v :: v in made ==> made[v] == Made(c.now, c.until) || (v in before && made[v] == before[v])
  }

  /** Records of other values do not matter. */
  lemma AsMadeOfOthers(maxPriority: Estimate, made: map<Value, Made>, made': map<Value, Made>, s: seq<Item>, v: Value)
    requires forall w :: w in made && w != v ==> w in made' && made'[w] == made[w]
    ensures Every(s, AsMade(maxPriority, made)) && v !in ValuesOf(s) ==> Every(s, AsMade(maxPriority, made'))
  {
    if Every(s, AsMade(maxPriority, made)) && v !in ValuesOf(s) {
      forall i | 0 <= i < |s|
        ensures AsMade(maxPriority, made')(s[i])
      {
        assert s[i].value in ValuesOf(s);
        assert AsMade(maxPriority, made)(s[i]);
      }
    }
  }

  ghost function Anything(): Item -> bool
  {
    (x: Item) => true
  }

  ghost predicate Makes(c: Turn, all: set<Value>, before: map<Value, Made>, l: Lane, left: set<Value>)
  {
    Stands(c, all, Anything(), l, left) && IsMade(c.maxPriority, l) && IsRenewed(c, before, l.made)
  }

  /** One value less is recorded, and one more. */
  lemma MadeLess(maxPriority: Estimate, made: map<Value, Made>, s: seq<Item>, other: seq<Item>)
    requires IsPile(s) && s != [] && ValuesOf(s) !! ValuesOf(other) && made.Keys == ValuesOf(s) + ValuesOf(other)
    requires Every(s, AsMade(maxPriority, made)) && Every(other, AsMade(maxPriority, made))
    ensures var (r, x) := Popped(Plain, s);
            var made' := made - {x.value};
            && Every(r, AsMade(maxPriority, made')) && Every(other, AsMade(maxPriority, made'))
            && made'.Keys == ValuesOf(r) + ValuesOf(other)
  {
    var (r, x) := Popped(Plain, s);
    PilePop(s, AsMade(maxPriority, made));
    AsMadeOfOthers(maxPriority, made, made - {x.value}, r, x.value);
    AsMadeOfOthers(maxPriority, made, made - {x.value}, other, x.value);
  }

  lemma PushedFits(s: seq<Item>, x: Item, p: Item -> bool)
    ensures IsPile(s) && x.value !in ValuesOf(s) && Every(s, p) && p(x) ==>
              var t := Pushed(Plain, s, x); Every(t, p) && ValuesOf(t) == ValuesOf(s) + {x.value}
  {
    if IsPile(s) && x.value !in ValuesOf(s) { PilePush(s, x, p); }
  }

  lemma MadeMore(maxPriority: Estimate, made: map<Value, Made>, s: seq<Item>, other: seq<Item>, v: Value, m: Made)
    requires IsPile(s) && v !in ValuesOf(s) && v !in ValuesOf(other) && made.Keys == ValuesOf(other) + ValuesOf(s)
    requires Every(s, AsMade(maxPriority, made)) && Every(other, AsMade(maxPriority, made))
    ensures var t, made' := Pushed(Plain, s, Fresh(maxPriority, v, m.at, m.until)), made[v := m];
            && Every(t, AsMade(maxPriority, made')) && Every(other, AsMade(maxPriority, made'))
            && made'.Keys == ValuesOf(other) + ValuesOf(t)
  {
    var made' := made[v := m];
    AsMadeOfOthers(maxPriority, made, made', s, v);
    AsMadeOfOthers(maxPriority, made, made', other, v);
    PushedFits(s, Fresh(maxPriority, v, m.at, m.until), AsMade(maxPriority, made'));
  }

  lemma MadeMove(c: Turn, l: Lane)
    requires IsApart(l) && IsMade(c.maxPriority, l) && Top(l) != -1
    ensures IsMade(c.maxPriority, Moved(c, l))
  {
    if Top(l) == 0 {
      MadeLess(c.maxPriority, l.made, l.s0, l.s1);
    } else {
      MadeLess(c.maxPriority, l.made, l.s1, l.s0);
    }
  }

  lemma MadeQueue(c: Turn, l: Lane, v: Value)
    requires IsApart(l) && IsMade(c.maxPriority, l) && v !in Queued(l)
    ensures IsMade(c.maxPriority, Queueing(c, l, v))
  {
    MadeMore(c.maxPriority, l.made, l.s1, l.s0, v, Made(c.now, c.until));
  }

  ghost function Making(c: Turn, all: set<Value>, before: map<Value, Made>): (Lane, set<Value>) -> bool
  {
    (l: Lane, left: set<Value>) => Makes(c, all, before, l, left)
  }

  lemma MakingIsClosed(c: Turn, all: set<Value>, before: map<Value, Made>)
    ensures IsClosed(c, all, Making(c, all, before))
  {
    forall l, left | Makes(c, all, before, l, left)
      ensures Queued(l) <= left <= all && (l.p == [] && Top(l) == -1 ==> left == {})
    {
      StandsPlain(c, all, Anything(), l, left);
    }
    forall l, left | Makes(c, all, before, l, left) && Top(l) != -1
      ensures Makes(c, all, before, Moved(c, l), left)
    {
      StandsMove(c, all, Anything(), l, left);
      MadeMove(c, l);
    }
    forall l, left | Makes(c, all, before, l, left) && l.p != []
      ensures var v := Popped(Plain, l.p).1.value; v in left && Makes(c, all, before, Handing(l), left - {v})
    {
      StandsHand(c, all, Anything(), l, left);
    }
    forall l, left, v | Makes(c, all, before, l, left) && v in all && v !in left
      ensures Makes(c, all, before, Queueing(c, l, v), left + {v})
    {
      StandsQueue(c, all, Anything(), l, left, v);
      MadeQueue(c, l, v);
    }
  }

  lemma MakesAtStart(c: Turn, all: set<Value>, l: Lane)
    requires IsApart(l) && l.p == [] && Queued(l) == all && IsMade(c.maxPriority, l)
    ensures Making(c, all, l.made)(l, all)
  {
    assert Values(l) == all;
    assert Stands(c, all, Anything(), l, all) && IsRenewed(c, l.made, l.made);
  }

  /** After MultiPop every queued value's estimate is as recorded. */
  lemma ServedMakes(c: Turn, all: set<Value>, l: Lane, script: seq<Reply>)
    requires IsApart(l) && l.p == [] && Queued(l) == all && IsMade(c.maxPriority, l)
    ensures var served := Served(c, l, script, 0, {});
            Makes(c, all, l.made, served.1, Left(all, served.0)) && served.1.p == []
  {
    var inv, call := Making(c, all, l.made), Calling(c, script, all);
    MakesAtStart(c, all, l);
    MakingIsClosed(c, all, l.made);
    CallSteps(c, all, inv, script);
    CallKeeps(call, Stepping(c, script, all), all, inv, script, l, 0, all);
    assert all - all == {} && call(l, 0, all) == Served(c, l, script, 0, {});
  }

  // ----- how long a pop is the greatest -----

  /** No estimate's time is past. */
  ghost predicate InTime(made: map<Value, Made>, now: int)
  {
    forall v :: v in made ==> now <= made[v].until
  }

  /** Estimates whose time has come and is not past bound the actual priorities. */
  lemma MadeBounds(c: Turn, l: Lane)
    requires IsUpper(c.priority, c.maxPriority) && IsMade(c.maxPriority, l) && InTime(l.made, c.now)
    requires forall v :: v in l.made ==> l.made[v].at <= c.now
    ensures Every(l.s0, Bounding(c)) && Every(l.s1, Bounding(c))
  {
    forall s: seq<Item>, i | (s == l.s0 || s == l.s1) && 0 <= i < |s|
      ensures Bounding(c)(s[i])
    {
      assert AsMade(c.maxPriority, l.made)(s[i]);
    }
  }

  /** Nothing queued has a greater actual priority than what is popped. */
  ghost predicate PopsGreatest(c: Turn, l: Lane)
  {
    var x := Choice(c, l);
    x.Some? ==> IsBest(At(c.priority, c.now), true, Queued(l), x.value)
  }

  /** A queue between calls: the pop queue is empty, the estimates are as recorded. */
  ghost predicate IsQueue(maxPriority: Estimate, l: Lane)
  {
    IsApart(l) && l.p == [] && IsMade(maxPriority, l)
  }

  /** A push keeps that. */
  lemma QueueKeeps(c: Turn, l: Lane, v: Value)
    requires IsQueue(c.maxPriority, l) && v !in l.made
    ensures IsQueue(c.maxPriority, Queueing(c, l, v))
  {
    ApartQueue(c, l, v);
    MadeQueue(c, l, v);
  }

  lemma ApartQueue(c: Turn, l: Lane, v: Value)
    requires IsApart(l) && v !in Values(l)
    ensures IsApart(Queueing(c, l, v))
  {
    var m := Queueing(c, l, v);
    PilePush(l.s1, Fresh(c.maxPriority, v, c.now, c.until), Anything());
    Joins(ValuesOf(l.s0), ValuesOf(l.s1), ValuesOf(m.s1), ValuesOf(l.p), v);
  }

  /** What is popped is queued, with its actual priority, and the greatest if
      the heap items bound. */
  lemma ChoiceIsBest(c: Turn, q: Item -> bool, sure: bool, l: Lane)
    requires IsApart(l) && l.p == [] && Every(l.s0, q) && Every(l.s1, q)
    requires sure ==> forall x :: q(x) ==> Bounding(c)(x)
    ensures var x := Choice(c, l);
            && (x.None? <==> Queued(l) == {}) && (x.Some? ==> IsBest(At(c.priority, c.now), sure, Queued(l), x.value))
  {
    var all := Queued(l);
    assert Values(l) == all;
    ReadiedStands(c, all, q, l);
    var r := Readied(c, l);
    if r.p != [] { ReadyIsBest(c, all, q, sure, r, all); }
  }

  lemma {:induction false} ReadiedStands(c: Turn, all: set<Value>, q: Item -> bool, l: Lane)
    requires Stands(c, all, q, l, all)
    ensures var r := Readied(c, l);
            && Stands(c, all, q, r, all) && (r.p != [] ==> IsReady(r)) && (r.p == [] ==> all == {})
    decreases |l.s0| + |l.s1|
  {
    if IsReady(l) || Top(l) == -1 {
    } else {
      StandsMove(c, all, q, l, all);
      ReadiedStands(c, all, q, Moved(c, l));
    }
  }

  /** For every pair of callbacks and every arrangement of the heaps. */
  ghost predicate AlwaysGreatest(made: map<Value, Made>, now: int)
  {
    forall priority: Priority, maxPriority: Estimate, l: Lane ::
      IsUpper(priority, maxPriority) && IsQueue(maxPriority, l) && l.made == made ==>
        PopsGreatest(Turn(priority, maxPriority, now, now), l)
  }

  lemma OneIsGreatest(c: Turn, l: Lane)
    requires IsQueue(c.maxPriority, l) && |l.made| <= 1
    ensures PopsGreatest(c, l)
  {
    ChoiceIsBest(c, Anything(), false, l);
    var x := Choice(c, l);
    if x.Some? {
      forall v | v in Queued(l)
        ensures v == x.value.value
      {
        OnlyOne(l.made.Keys, v, x.value.value);
      }
    }
  }

  lemma OnlyOne(vs: set<Value>, v: Value, w: Value)
    requires v in vs && w in vs && |vs| <= 1
    ensures v == w
  {
    assert |vs - {v}| == 0;
  }

  lemma InTimeIsGreatest(c: Turn, l: Lane)
    requires IsUpper(c.priority, c.maxPriority) && IsQueue(c.maxPriority, l) && InTime(l.made, c.now)
    requires forall v :: v in l.made ==> l.made[v].at <= c.now
    ensures PopsGreatest(c, l)
  {
    MadeBounds(c, l);
    ChoiceIsBest(c, Bounding(c), true, l);
  }

  /** Items of priority 0. */
  ghost function Flats(vs: set<Value>): seq<Item>
  {
    if vs == {} then [] else var v :| v in vs; [Item(v, 0)] + Flats(vs - {v})
  }

  lemma FlatsCons(v: Value, r: seq<Item>, s: seq<Item>)
    requires s == [Item(v, 0)] + r && v !in ValuesOf(r) && Distinct(r)
    ensures ValuesOf(s) == ValuesOf(r) + {v} && Distinct(s)
  {
    assert multiset(s) == multiset(r) + multiset{Item(v, 0)};
    ValuesOfParts(s, r, Item(v, 0));
    DistinctParts(s, r, Item(v, 0));
  }

  lemma {:induction false} FlatsAre(vs: set<Value>)
    ensures ValuesOf(Flats(vs)) == vs && Distinct(Flats(vs))
    ensures forall i :: 0 <= i < |Flats(vs)| ==> Flats(vs)[i].priority == 0
  {
    if vs == {} {
    } else {
      var v :| v in vs && Flats(vs) == [Item(v, 0)] + Flats(vs - {v});
      FlatsAre(vs - {v});
      FlatsCons(v, Flats(vs - {v}), Flats(vs));
    }
  }

  lemma Alone(x: Item)
    ensures Pushed(Plain, [], x) == [x] && Popped(Plain, [x]) == ([], x)
  {
  }

  /** A value of which every other estimate is less than its actual priority is
      popped if its own estimate is the greatest. */
  lemma FirstIsChosen(c: Turn, l: Lane)
    requires IsPile(l.s0) && l.s1 == [] && l.p == [] && l.s0 != []
    requires var r := Popped(Plain, l.s0).0; r != [] && r[0].priority < c.priority(l.s0[0].value, c.now)
    ensures Choice(c, l) == Some(Item(l.s0[0].value, c.priority(l.s0[0].value, c.now)))
  {
    PilePop(l.s0, Anything());
    var y := Item(l.s0[0].value, c.priority(l.s0[0].value, c.now));
    Alone(y);
    assert Moved(c, l) == Lane(Popped(Plain, l.s0).0, [], [y], l.made - {y.value});
    assert IsReady(Moved(c, l)) && !IsReady(l);
    assert Readied(c, l) == Readied(c, Moved(c, l)) == Moved(c, l);
  }

  /** One item on top of others of priority 0. */
  ghost function OnTop(w: Value, vs: set<Value>): seq<Item>
  {
    [Item(w, 1)] + Flats(vs)
  }

  lemma OnTopIsHeap(w: Value, vs: set<Value>)
    ensures IsHeap(Plain, 0, OnTop(w, vs)) && forall i :: 0 < i < |OnTop(w, vs)| ==> OnTop(w, vs)[i].priority == 0
  {
    FlatsAre(vs);
    var s := OnTop(w, vs);
    forall i | 0 < i < |s|
      ensures s[i].priority == 0
    {
      assert s[i] == Flats(vs)[i - 1];
    }
    forall c: nat | c < |s|
      ensures InOrder(Plain, 0, s, c)
    {
    }
  }

  lemma OnTopIsPile(w: Value, vs: set<Value>)
    requires w !in vs
    ensures IsPile(OnTop(w, vs)) && ValuesOf(OnTop(w, vs)) == vs + {w}
    ensures Every(OnTop(w, vs), (x: Item) => x.priority == if x.value == w then 1 else 0)
  {
    FlatsAre(vs);
    OnTopIsHeap(w, vs);
    var s, r, x := OnTop(w, vs), Flats(vs), Item(w, 1);
    assert multiset(s) == multiset(r) + multiset{x};
    ValuesOfParts(s, r, x);
    DistinctParts(s, r, x);
    forall i | 0 <= i < |s|
      ensures s[i].priority == if s[i].value == w then 1 else 0
    {
      assert i > 0 ==> s[i] == r[i - 1] && r[i - 1].value in ValuesOf(r);
    }
  }

  /** The item on top is popped if its actual priority is 1 and more items follow. */
  lemma TopIsChosen(c: Turn, w: Value, vs: set<Value>, made: map<Value, Made>)
    requires w !in vs && vs != {} && c.priority(w, c.now) == 1
    ensures Choice(c, Lane(OnTop(w, vs), [], [], made)) == Some(Item(w, 1))
  {
    var s, p := OnTop(w, vs), (x: Item) => x.priority == if x.value == w then 1 else 0;
    OnTopIsPile(w, vs);
    PilePop(s, p);
    var r := Popped(Plain, s).0;
    assert ValuesOf(r) == vs;
    assert r != [] && p(r[0]) && r[0].value in ValuesOf(r);
    FirstIsChosen(c, Lane(s, [], [], made));
  }

  /** Callbacks that make v overtake w once v's estimate is past its time. */
  ghost function Overtaking(v: Value, w: Value, until: int): Priority
  {
    (x: Value, t: int) => if x == w then 1 else if x == v && t > until then 2 else 0
  }

  ghost function Overtaken(v: Value, w: Value, until: int): Estimate
  {
    (x: Value, at: int, u: int) => if x == w then 1 else if x == v && u > until then 2 else 0
  }

  /** When an estimate's time is past and there is another value, a lesser one
      can be popped. */
  lemma LapsedIsLess(made: map<Value, Made>, now: int, v: Value, w: Value)
    requires v in made && w in made && v != w && now > made[v].until
    ensures !AlwaysGreatest(made, now)
  {
    var priority, maxPriority := Overtaking(v, w, made[v].until), Overtaken(v, w, made[v].until);
    var l := Lane(OnTop(w, made.Keys - {w}), [], [], made);
    assert IsUpper(priority, maxPriority);
    LapsedQueue(made, v, w);
    LapsedPop(Turn(priority, maxPriority, now, now), made, v, w);
    assert l.made == made && !PopsGreatest(Turn(priority, maxPriority, now, now), l);
  }

  lemma LapsedPop(c: Turn, made: map<Value, Made>, v: Value, w: Value)
    requires v in made && w in made && v != w && c.priority(w, c.now) == 1 && c.priority(v, c.now) == 2
    ensures !PopsGreatest(c, Lane(OnTop(w, made.Keys - {w}), [], [], made))
  {
    OnTopIsPile(w, made.Keys - {w});
    TopIsChosen(c, w, made.Keys - {w}, made);
    assert v in Queued(Lane(OnTop(w, made.Keys - {w}), [], [], made));
  }

  lemma LapsedQueue(made: map<Value, Made>, v: Value, w: Value)
    requires v in made && w in made && v != w
    ensures IsQueue(Overtaken(v, w, made[v].until), Lane(OnTop(w, made.Keys - {w}), [], [], made))
  {
    var maxPriority, s := Overtaken(v, w, made[v].until), OnTop(w, made.Keys - {w});
    OnTopIsPile(w, made.Keys - {w});
    var p := (x: Item) => x.priority == if x.value == w then 1 else 0;
    forall i | 0 <= i < |s|
      ensures AsMade(maxPriority, made)(s[i])
    {
      assert p(s[i]) && s[i].value in ValuesOf(s);
    }
  }

  /** Whatever the callbacks and the arrangement of the heaps, a pop is of the
      greatest actual priority, exactly if at most one value is queued or no
      estimate's time is past. */
  lemma PopExactly(made: map<Value, Made>, now: int)
    requires forall v :: v in made ==> made[v].at <= now
    ensures AlwaysGreatest(made, now) <==> |made| <= 1 || InTime(made, now)
  {
    if |made| <= 1 || InTime(made, now) {
      forall priority: Priority, maxPriority: Estimate, l: Lane |
        IsUpper(priority, maxPriority) && IsQueue(maxPriority, l) && l.made == made
        ensures PopsGreatest(Turn(priority, maxPriority, now, now), l)
      {
        var c := Turn(priority, maxPriority, now, now);
        if |made| <= 1 { OneIsGreatest(c, l); } else { InTimeIsGreatest(c, l); }
      }
    } else {
      var v :| v in made && now > made[v].until;
      var w := Another(made.Keys, v);
      LapsedIsLess(made, now, v, w);
    }
  }

  lemma Another(vs: set<Value>, v: Value) returns (w: Value)
    requires v in vs && |vs| > 1
    ensures w in vs && w != v
  {
    assert |vs - {v}| > 0;
    w :| w in vs - {v};
  }

  /** Such a pop: value 1 comes out although value 2 has overtaken it. */
  lemma LesserPop(c: Turn, made: map<Value, Made>)
    requires c.priority(1, c.now) == 1 && c.priority(2, c.now) == 2
    ensures Choice(c, Lane([Item(1, 1)], [Item(2, 0)], [], made)) == Some(Item(1, 1))
  {
    var l := Lane([Item(1, 1)], [Item(2, 0)], [], made);
    Alone(Item(1, 1));
    assert Top(l) == 0 && Moved(c, l) == Lane([], [Item(2, 0)], [Item(1, 1)], made - {1});
    assert Readied(c, l) == Readied(c, Moved(c, l)) == Moved(c, l);
  }

  /** The same after two pushes. */
  lemma TwoPushed(v: Value, w: Value, made: map<Value, Made>, c: Turn)
    requires c.priority(w, c.now) == 1
    ensures Pushed(Plain, [Item(w, 1)], Item(v, 0)) == [Item(w, 1), Item(v, 0)]
    ensures Choice(c, Lane([], [Item(w, 1), Item(v, 0)], [], made)) == Some(Item(w, 1))
  {
    var s := [Item(w, 1), Item(v, 0)];
    assert [Item(w, 1)] + [Item(v, 0)] == s;
    assert Swapped(s, 0, 1)[..1] == [Item(v, 0)];
    assert Popped(Plain, s) == ([Item(v, 0)], Item(w, 1));
    var l := Lane([], s, [], made);
    Alone(Item(w, 1));
    assert Top(l) == 1 && Moved(c, l) == Lane([], [Item(v, 0)], [Item(w, 1)], made - {w});
    assert Readied(c, l) == Readied(c, Moved(c, l)) == Moved(c, l);
  }
}
