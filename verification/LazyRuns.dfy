/** Runs of the lazy queue: any sequence of calls at times that do not go back. */
module LazyQueueRuns {
  import opened HeapSpec
  import opened LazyPriorityQueue
  import opened LazyServing
  import opened PriorityQueue

  /** What an application does. It knows a value's index from the last report,
      and pushes only what is not queued and updates and removes only what is. */
  datatype Call = PushCall(v: Value) | UpdateCall(v: Value) | RemoveCall(v: Value) | RefreshCall | PopCall
                | MultiPopCall(script: seq<Reply>)

  /** Where a queue stands between calls: its heaps with the records of their
      estimates, the time of the last refresh, and the time new estimates are made
      for. */
  datatype Mark = Mark(lane: Lane, refreshed: int, until: int)

  /** A call, what it handed out, and where the queue stood before and after it. */
  datatype Event = Event(now: int, call: Call, log: seq<Handed>, before: Mark, after: Mark)

  predicate IsDue(period: int, e: Event)
  {
    e.call.RefreshCall? && e.now - e.before.refreshed >= period * 2
  }

  /** A pop is a MultiPop whose callback stops at once. */
  function ScriptOf(call: Call): seq<Reply>
  {
    if call.MultiPopCall? then call.script else []
  }

  /** All estimates made at one time. */
  ghost function MadeAt(queued: set<Value>, now: int, until: int): (made: map<Value, Made>)
    ensures made.Keys == queued
  {
    map v | v in queued :: Made(now, until)
  }

  /** The records after a call that hands out nothing. A refresh that is due makes
      all estimates anew, for one period. */
  ghost function Recorded(period: int, e: Event): map<Value, Made>
  {
    var made := e.before.lane.made;
    match e.call
    case PushCall(v) => if v in made then made else made[v := Made(e.now, e.before.until)]
    case UpdateCall(v) => if v in made then made[v := Made(e.now, e.before.until)] else made
    case RemoveCall(v) => made - {v}
    case RefreshCall => if IsDue(period, e) then MadeAt(made.Keys, e.now, e.now + period) else made
    case _ => made
  }

  /** A push puts a value that is not queued into the second heap. */
  ghost function JoinedBy(c: Turn, l: Lane, v: Value): Lane
  {
    if v in l.made then l else Queueing(c, l, v)
  }

  /** What each call does. A pop hands out what the heaps give, and that is the
      greatest actual priority of all queued if no estimate's time is past. */
  ghost predicate IsExplained(priority: Priority, maxPriority: Estimate, period: int, e: Event)
  {
    var b, all := e.before, e.before.lane.made.Keys;
    && e.after.refreshed == (if IsDue(period, e) then e.now else b.refreshed)
    && e.after.until == (if IsDue(period, e) then e.now + period + period else b.until)
    && if e.call.PopCall? || e.call.MultiPopCall?
       then
         && (e.log, e.after.lane) ==
             Served(Turn(priority, maxPriority, e.now, b.until), b.lane, ScriptOf(e.call), 0, {})
         && IsServed(At(priority, e.now), InTime(b.lane.made, e.now), all, all, ScriptOf(e.call), 0, e.log)
         && e.after.lane.made.Keys == Left(all, e.log)
       else
         && e.log == [] && e.after.lane.made == Recorded(period, e)
         && (e.call.PushCall? ==>
               e.after.lane == JoinedBy(Turn(priority, maxPriority, e.now, b.until), b.lane, e.call.v))
  }

  /** The estimates recorded are of the past, and for no later than new ones. */
  ghost predicate IsTimed(made: map<Value, Made>, t: int, until: int)
  {
    forall v :: v in made ==> made[v].at <= t && made[v].until <= until
  }

  // ----- what every call keeps -----

  ghost predicate IsSoundLane(last: map<Value, int>, off: nat, l: Lane)
  {
    off <= 1 && Sound(last, off, l.s0, l.s1) && l.p == []
  }

  /** An item leaves the heaps. */
  ghost predicate Removes(l: Lane, l': Lane, x: Item)
  {
    && ItemsOf(l) == ItemsOf(l') + multiset{x} && Queued(l') == Queued(l) - {x.value} && l'.made == l.made - {x.value}
  }

  /** An item gets a new estimate. */
  ghost predicate Updates(maxPriority: Estimate, m: Made, l: Lane, l': Lane, x: Item)
  {
    && x.value in l.made && Queued(l') == Queued(l) && l'.made == l.made[x.value := m]
    && ItemsOf(l') == ItemsOf(l) - multiset{x} + multiset{Fresh(maxPriority, x.value, m.at, m.until)}
  }

  /** All items get a new estimate. */
  ghost predicate Refreshes(maxPriority: Estimate, m: Made, l: Lane, l': Lane)
  {
    && Queued(l') == Queued(l) && l'.made == MadeAt(Queued(l'), m.at, m.until)
    && Every(l'.s0, Anew(maxPriority, m)) && l'.s1 == []
  }

  lemma RemovedItem(maxPriority: Estimate, l: Lane, l': Lane, x: Item, y: Item)
    requires AreMade(maxPriority, ItemsOf(l), l.made) && Removes(l, l', x) && y in ItemsOf(l')
    ensures AsMade(maxPriority, l'.made)(y)
  {
    ItemIsQueued(l', y);
    assert y in ItemsOf(l);
    assert AsMade(maxPriority, l.made)(y);
  }

  lemma QueueRemoves(maxPriority: Estimate, l: Lane, l': Lane, x: Item, last: map<Value, int>, off: nat)
    requires IsQueue(maxPriority, l) && Removes(l, l', x) && IsSoundLane(last, off, l')
    ensures IsQueue(maxPriority, l')
  {
    SoundIsApart(last, off, l'.s0, l'.s1, l'.made);
    MadeItems(maxPriority, l);
    forall y | y in ItemsOf(l')
      ensures AsMade(maxPriority, l'.made)(y)
    {
      RemovedItem(maxPriority, l, l', x, y);
    }
    MadeItems(maxPriority, l');
  }

  lemma UpdatedItem(maxPriority: Estimate, m: Made, l: Lane, l': Lane, x: Item, y: Item)
    requires AreMade(maxPriority, ItemsOf(l), l.made) && Updates(maxPriority, m, l, l', x) && IsApart(l')
    requires y in ItemsOf(l')
    ensures AsMade(maxPriority, l'.made)(y)
  {
    if y.value == x.value {
      OneItemEach(l', y, Fresh(maxPriority, x.value, m.at, m.until));
    } else {
      assert y in ItemsOf(l);
      assert AsMade(maxPriority, l.made)(y);
    }
  }

  lemma QueueUpdates(maxPriority: Estimate, m: Made, l: Lane, l': Lane, x: Item, last: map<Value, int>, off: nat)
    requires IsQueue(maxPriority, l) && Updates(maxPriority, m, l, l', x) && IsSoundLane(last, off, l')
    ensures IsQueue(maxPriority, l')
  {
    SoundIsApart(last, off, l'.s0, l'.s1, l'.made);
    MadeItems(maxPriority, l);
    forall y | y in ItemsOf(l')
      ensures AsMade(maxPriority, l'.made)(y)
    {
      UpdatedItem(maxPriority, m, l, l', x, y);
    }
    MadeItems(maxPriority, l');
  }

  lemma QueueRefreshes(maxPriority: Estimate, m: Made, l: Lane, l': Lane, last: map<Value, int>, off: nat)
    requires Refreshes(maxPriority, m, l, l') && IsSoundLane(last, off, l')
    ensures IsQueue(maxPriority, l')
  {
    SoundIsApart(last, off, l'.s0, l'.s1, l'.made);
    forall i | 0 <= i < |l'.s0|
      ensures AsMade(maxPriority, l'.made)(l'.s0[i])
    {
      assert Anew(maxPriority, m)(l'.s0[i]);
      assert l'.s0[i].value in ValuesOf(l'.s0);
    }
  }

  /** What a call leaves of a queue, and how long it can be relied on. */
  lemma QueueServes(c: Turn, l: Lane, script: seq<Reply>)
    requires IsQueue(c.maxPriority, l)
    ensures var served := Served(c, l, script, 0, {});
            && IsQueue(c.maxPriority, served.1) && IsRenewed(c, l.made, served.1.made)
            && served.1.made.Keys == Left(l.made.Keys, served.0)
  {
    var served := Served(c, l, script, 0, {});
    ServedMakes(c, Queued(l), l, script);
    assert Queued(served.1) == Values(served.1);
  }

  /** What a property of queues must be kept by. */
  ghost predicate IsKept(maxPriority: Estimate, fit: Lane -> bool)
  {
    && (forall c: Turn, l, v {:trigger fit(l), Queueing(c, l, v)} ::
          c.maxPriority == maxPriority && fit(l) && v !in l.made ==> fit(Queueing(c, l, v)))
    && (forall l, l', x, last, off :: fit(l) && Removes(l, l', x) && IsSoundLane(last, off, l') ==> fit(l'))
    && (forall m, l, l', x, last, off ::
          fit(l) && Updates(maxPriority, m, l, l', x) && IsSoundLane(last, off, l') ==> fit(l'))
    && (forall m, l, l', last, off ::
          fit(l) && Refreshes(maxPriority, m, l, l') && IsSoundLane(last, off, l') ==> fit(l'))
    && (forall c: Turn, l, script :: c.maxPriority == maxPriority && fit(l) ==> Serves(c, l, script, fit))
  }

  /** What a call gives: how long its estimates can be relied on, and what it leaves. */
  ghost predicate Serves(c: Turn, l: Lane, script: seq<Reply>, fit: Lane -> bool)
  {
    var served := Served(c, l, script, 0, {});
    && fit(served.1) && IsRenewed(c, l.made, served.1.made) && served.1.made.Keys == Left(l.made.Keys, served.0)
    && (IsUpper(c.priority, c.maxPriority) && IsTimed(l.made, c.now, c.until) && InTime(l.made, c.now) ==>
          Every(l.s0, Bounding(c)) && Every(l.s1, Bounding(c)))
  }

  ghost function Queues(maxPriority: Estimate): Lane -> bool
  {
    (l: Lane) => IsQueue(maxPriority, l)
  }

  lemma QueuesServe(c: Turn, l: Lane, script: seq<Reply>)
    requires IsQueue(c.maxPriority, l)
    ensures Serves(c, l, script, Queues(c.maxPriority))
  {
    QueueServes(c, l, script);
    if IsUpper(c.priority, c.maxPriority) && IsTimed(l.made, c.now, c.until) && InTime(l.made, c.now) {
      MadeBounds(c, l);
    }
  }

  /** Being a queue whose heaps carry the estimates recorded is such a property. */
  lemma QueuesAreKept(maxPriority: Estimate)
    ensures IsKept(maxPriority, Queues(maxPriority))
  {
    forall c: Turn, l, v | c.maxPriority == maxPriority && IsQueue(maxPriority, l) && v !in l.made
      ensures IsQueue(maxPriority, Queueing(c, l, v))
    {
      QueueKeeps(c, l, v);
    }
    forall l, l', x, last, off | IsQueue(maxPriority, l) && Removes(l, l', x) && IsSoundLane(last, off, l')
      ensures IsQueue(maxPriority, l')
    {
      QueueRemoves(maxPriority, l, l', x, last, off);
    }
    forall m, l, l', x, last, off |
      IsQueue(maxPriority, l) && Updates(maxPriority, m, l, l', x) && IsSoundLane(last, off, l')
      ensures IsQueue(maxPriority, l')
    {
      QueueUpdates(maxPriority, m, l, l', x, last, off);
    }
    forall m, l, l', last, off | Refreshes(maxPriority, m, l, l') && IsSoundLane(last, off, l')
      ensures IsQueue(maxPriority, l')
    {
      QueueRefreshes(maxPriority, m, l, l', last, off);
    }
    forall c: Turn, l, script | c.maxPriority == maxPriority && IsQueue(maxPriority, l)
      ensures Serves(c, l, script, Queues(maxPriority))
    {
      QueuesServe(c, l, script);
    }
  }

  // ----- one call -----

  /** A queue between calls, at a time: its heaps are those of the mark. */
  ghost predicate IsGood(q: LazyQueue, t: int, m: Mark, fit: Lane -> bool)
    reads q, q.q0, q.q1, q.popQueue, q.registry
  {
    && q.Valid() && q.period > 0 && q.lastRefresh1 <= q.lastRefresh2 && IsUpper(q.priority, q.maxPriority)
    && q.Matches(m.lane) && m.lane.made.Keys == q.Contents() && q.lastRefresh2 == m.refreshed && q.maxUntil == m.until
    && fit(m.lane) && IsTimed(m.lane.made, t, m.until)
  }

  /** The queued values are those with a report other than -1, and for them the
      report leads to a place in one of the heaps. */
  lemma ReportTells(q: LazyQueue, v: Value)
    requires q.QueuesOk()
    ensures v in q.Contents() <==> v in q.registry.last && q.registry.last[v] != -1
    ensures v in q.Contents() ==>
              var i := q.registry.last[v];
              i >= 0 && i / 2 < (if PlaceOf(i, q.indexOffset) == 0 then q.q0 else q.q1).size
  {
    if v in q.Contents() {
      IndexFindsItem(q.registry.last, q.indexOffset, q.q0.Flat(), q.q1.Flat(), v);
    }
  }

  lemma TimedWith(made: map<Value, Made>, t: int, until: int, now: int, v: Value)
    ensures IsTimed(made, t, until) && t <= now ==>
              && IsTimed(made, now, until) && IsTimed(made[v := Made(now, until)], now, until)
              && IsTimed(made - {v}, now, until)
  {
  }

  lemma KeptUpdate(maxPriority: Estimate, fit: Lane -> bool, m: Made, l: Lane, l': Lane, x: Item, last: map<Value, int>,
                   off: nat)
    ensures IsKept(maxPriority, fit) && fit(l) && Updates(maxPriority, m, l, l', x) && IsSoundLane(last, off, l') ==>
              fit(l')
  {
  }

  lemma KeptRemove(maxPriority: Estimate, fit: Lane -> bool, l: Lane, l': Lane, x: Item, last: map<Value, int>,
                   off: nat)
    ensures IsKept(maxPriority, fit) && fit(l) && Removes(l, l', x) && IsSoundLane(last, off, l') ==> fit(l')
  {
  }

  method DoPush(q: LazyQueue, v: Value, now: int, ghost t: int, ghost m: Mark, ghost fit: Lane -> bool)
    returns (ghost m': Mark)
    requires IsGood(q, t, m, fit) && t <= now && IsKept(q.maxPriority, fit)
    modifies q.q1, q.registry
    ensures IsGood(q, now, m', fit)
    ensures m' == m.(lane := JoinedBy(q.TurnAt(now), m.lane, v))
  {
    ReportTells(q, v);
    TimedWith(m.lane.made, t, m.until, now, v);
    m' := m;
    if v !in q.registry.last || q.registry.last[v] == -1 {
      q.Push(v, now);
      m' := m.(lane := Queueing(q.TurnAt(now), m.lane, v));
    }
  }

  /** Update, with the lane it leaves. */
  method UpdateLane(q: LazyQueue, v: Value, now: int, ghost l: Lane) returns (ghost l': Lane, ghost x: Item)
    requires q.Valid() && q.Matches(l) && v in q.Contents() && l.made.Keys == q.Contents()
    modifies q.q0, q.q1, q.registry
    ensures q.Valid() && q.Matches(l') && q.Contents() == old(q.Contents()) && x.value == v
    ensures Updates(q.maxPriority, Made(now, q.maxUntil), l, l', x) && IsSoundLane(q.registry.last, q.indexOffset, l')
  {
    ReportTells(q, v);
    x := q.Update(q.registry.last[v], now);
    l' := Lane(q.q0.Flat(), q.q1.Flat(), [], l.made[v := Made(now, q.maxUntil)]);
  }

  method DoUpdate(q: LazyQueue, v: Value, now: int, ghost t: int, ghost m: Mark, ghost fit: Lane -> bool)
    returns (ghost m': Mark)
    requires IsGood(q, t, m, fit) && t <= now && IsKept(q.maxPriority, fit)
    modifies q.q0, q.q1, q.registry
    ensures IsGood(q, now, m', fit) && m'.refreshed == m.refreshed && m'.until == m.until
    ensures m'.lane.made == if v in m.lane.made then m.lane.made[v := Made(now, m.until)] else m.lane.made
  {
    ReportTells(q, v);
    TimedWith(m.lane.made, t, m.until, now, v);
    m' := m;
    if v in q.registry.last && q.registry.last[v] != -1 {
      ghost var l', x := UpdateLane(q, v, now, m.lane);
      KeptUpdate(q.maxPriority, fit, Made(now, m.until), m.lane, l', x, q.registry.last, q.indexOffset);
      m' := m.(lane := l');
    }
  }

  /** Remove, with the lane it leaves. */
  method RemoveLane(q: LazyQueue, v: Value, ghost l: Lane) returns (ghost l': Lane, ghost x: Item)
    requires q.Valid() && q.Matches(l) && v in q.Contents() && l.made.Keys == q.Contents()
    modifies q.q0, q.q1, q.registry
    ensures q.Valid() && q.Matches(l') && q.Contents() == old(q.Contents()) - {v} && x.value == v
    ensures Removes(l, l', x) && IsSoundLane(q.registry.last, q.indexOffset, l')
  {
    ReportTells(q, v);
    var data;
    data, x := q.Remove(q.registry.last[v]);
    l' := Lane(q.q0.Flat(), q.q1.Flat(), [], l.made - {v});
  }

  method DoRemove(q: LazyQueue, v: Value, now: int, ghost t: int, ghost m: Mark, ghost fit: Lane -> bool)
    returns (ghost m': Mark)
    requires IsGood(q, t, m, fit) && t <= now && IsKept(q.maxPriority, fit)
    modifies q.q0, q.q1, q.registry
    ensures IsGood(q, now, m', fit) && m'.refreshed == m.refreshed && m'.until == m.until
    ensures m'.lane.made == m.lane.made - {v}
  {
    ReportTells(q, v);
    TimedWith(m.lane.made, t, m.until, now, v);
    m' := m;
    if v in q.registry.last && q.registry.last[v] != -1 {
      ghost var l', x := RemoveLane(q, v, m.lane);
      KeptRemove(q.maxPriority, fit, m.lane, l', x, q.registry.last, q.indexOffset);
      m' := m.(lane := l');
    } else {
      assert m.lane.made - {v} == m.lane.made;
    }
  }

  /** A refresh that is due makes all estimates anew, for one period. */
  ghost predicate Renews(period: int, now: int, m: Mark, m': Mark)
  {
    if now - m.refreshed >= period * 2
    then
      && m'.lane.made == MadeAt(m.lane.made.Keys, now, now + period)
      && m'.refreshed == now && m'.until == now + period + period
    else m' == m
  }

  method DoRefresh(q: LazyQueue, now: int, ghost t: int, ghost m: Mark, ghost fit: Lane -> bool)
    returns (ghost m': Mark)
    requires IsGood(q, t, m, fit) && t <= now && IsKept(q.maxPriority, fit)
    modifies q, q.q0, q.q1, q.registry
    ensures IsGood(q, now, m', fit) && q.q0 == old(q.q0) && q.q1 == old(q.q1)
    ensures Renews(q.period, now, m, m')
  {
    ghost var swaps := q.Refresh(now);
    m' := m;
    if swaps == 2 {
      ghost var l' := Lane(q.q0.Flat(), q.q1.Flat(), [], MadeAt(q.Contents(), now, now + q.period));
      assert Refreshes(q.maxPriority, Made(now, now + q.period), m.lane, l');
      assert IsSoundLane(q.registry.last, q.indexOffset, l');
      m' := Mark(l', now, q.maxUntil);
    }
  }

  lemma UpperInTime(c: Turn, made: map<Value, Made>, t: int)
    ensures && IsUpper(c.priority, c.maxPriority) && IsTimed(made, t, c.until) && InTime(made, c.now)
            && made.Keys != {} ==>
              IsUpperNow(c)
  {
    if IsUpper(c.priority, c.maxPriority) && IsTimed(made, t, c.until) && InTime(made, c.now) && made.Keys != {} {
      var v :| v in made.Keys;
      assert c.now <= made[v].until <= c.until;
    }
  }

  /** In time, the estimates can be relied on. */
  lemma SureInTime(q: LazyQueue, now: int, t: int, m: Mark, script: seq<Reply>, fit: Lane -> bool)
    requires IsGood(q, t, m, fit) && t <= now && Serves(q.TurnAt(now), m.lane, script, fit)
    ensures InTime(m.lane.made, now) && m.lane.made.Keys != {} ==> q.IsSure(now)
  {
    TimedWith(m.lane.made, t, m.until, now, 0);
    UpperInTime(q.TurnAt(now), m.lane.made, t);
  }

  lemma TimedAfter(c: Turn, made: map<Value, Made>, made': map<Value, Made>, t: int)
    ensures IsTimed(made, t, c.until) && t <= c.now && IsRenewed(c, made, made') ==> IsTimed(made', c.now, c.until)
  {
  }

  method DoMultiPop(q: LazyQueue, script: seq<Reply>, now: int, ghost t: int, ghost m: Mark, ghost fit: Lane -> bool)
    returns (log: seq<Handed>, ghost m': Mark)
    requires IsGood(q, t, m, fit) && t <= now && IsKept(q.maxPriority, fit)
    modifies q.q0, q.q1, q.popQueue, q.registry, q.popQueue.registry
    ensures IsGood(q, now, m', fit) && m'.refreshed == m.refreshed && m'.until == m.until
    ensures (log, m'.lane) == Served(q.TurnAt(now), m.lane, script, 0, {})
    ensures var all := m.lane.made.Keys;
            && m'.lane.made.Keys == Left(all, log)
            && IsServed(At(q.priority, now), InTime(m.lane.made, now), all, all, script, 0, log)
  {
    ghost var end;
    ghost var c, all, sure := q.TurnAt(now), q.Contents(), q.IsSure(now);
    assert Serves(c, m.lane, script, fit);
    SureInTime(q, now, t, m, script, fit);
    log, end := q.MultiPop(now, script, m.lane.made);
    TimedAfter(c, m.lane.made, end.made, t);
    ServedLess(At(q.priority, now), all, all, script, 0, log, sure, InTime(m.lane.made, now));
    m' := m.(lane := end);
  }

  lemma {:induction false} ServedLess(priority: Value -> int, all: set<Value>, left: set<Value>, script: seq<Reply>,
                                      k: nat, log: seq<Handed>, sure: bool, sure': bool)
    ensures IsServed(priority, sure, all, left, script, k, log) && (sure' ==> sure || left == {}) ==>
              IsServed(priority, sure', all, left, script, k, log)
    decreases |log|
  {
    if log == [] || (sure' && !sure) {
    } else {
      ServedLess(priority, all, left - {log[0].item.value} + SetOf(log[0].back), script, k + 1, log[1..], sure, sure');
    }
  }

  predicate IsEdit(call: Call)
  {
    call.PushCall? || call.UpdateCall? || call.RemoveCall?
  }

  /** A call about one value. */
  method DoEdit(q: LazyQueue, call: Call, now: int, ghost t: int, ghost m: Mark, ghost fit: Lane -> bool)
    returns (ghost m': Mark)
    requires IsGood(q, t, m, fit) && t <= now && IsKept(q.maxPriority, fit) && IsEdit(call)
    modifies q.q0, q.q1, q.registry
    ensures IsGood(q, now, m', fit) && m'.refreshed == m.refreshed && m'.until == m.until
    ensures m'.lane.made == Recorded(q.period, Event(now, call, [], m, m'))
    ensures call.PushCall? ==> m'.lane == JoinedBy(q.TurnAt(now), m.lane, call.v)
  {
    match call {
      case PushCall(v) => m' := DoPush(q, v, now, t, m, fit);
      case UpdateCall(v) => m' := DoUpdate(q, v, now, t, m, fit);
      case RemoveCall(v) => m' := DoRemove(q, v, now, t, m, fit);
    }
  }

  lemma EditExplained(priority: Priority, maxPriority: Estimate, period: int, e: Event)
    ensures && IsEdit(e.call) && e.log == [] && e.after.lane.made == Recorded(period, e)
            && (e.call.PushCall? ==>
                  e.after.lane == JoinedBy(Turn(priority, maxPriority, e.now, e.before.until), e.before.lane, e.call.v))
            && e.after.refreshed == e.before.refreshed && e.after.until == e.before.until ==>
              IsExplained(priority, maxPriority, period, e)
  {
  }

  lemma RefreshExplained(priority: Priority, maxPriority: Estimate, period: int, now: int, m: Mark, m': Mark)
    ensures Renews(period, now, m, m') ==>
              IsExplained(priority, maxPriority, period, Event(now, RefreshCall, [], m, m'))
  {
  }

  /** A call that hands out nothing. */
  method DoQuiet(q: LazyQueue, call: Call, now: int, ghost t: int, ghost m: Mark, ghost fit: Lane -> bool)
    returns (ghost e: Event)
    requires IsGood(q, t, m, fit) && t <= now && IsKept(q.maxPriority, fit) && !call.PopCall? && !call.MultiPopCall?
    modifies q, q.q0, q.q1, q.registry
    ensures IsGood(q, now, e.after, fit) && q.q0 == old(q.q0) && q.q1 == old(q.q1)
    ensures IsExplained(q.priority, q.maxPriority, q.period, e) && e.now == now && e.call == call && e.before == m
  {
    ghost var m';
    if call == RefreshCall {
      m' := DoRefresh(q, now, t, m, fit);
      RefreshExplained(q.priority, q.maxPriority, q.period, now, m, m');
      e := Event(now, RefreshCall, [], m, m');
    } else {
      m' := DoEdit(q, call, now, t, m, fit);
      e := Event(now, call, [], m, m');
      EditExplained(q.priority, q.maxPriority, q.period, e);
    }
  }

  lemma ServedExplained(priority: Priority, maxPriority: Estimate, period: int, e: Event)
    ensures var b, all, script := e.before, e.before.lane.made.Keys, ScriptOf(e.call);
            && (e.call.PopCall? || e.call.MultiPopCall?) && e.after.refreshed == b.refreshed && e.after.until == b.until
            && (e.log, e.after.lane) == Served(Turn(priority, maxPriority, e.now, b.until), b.lane, script, 0, {})
            && IsServed(At(priority, e.now), InTime(b.lane.made, e.now), all, all, script, 0, e.log)
            && e.after.lane.made.Keys == Left(all, e.log) ==>
              IsExplained(priority, maxPriority, period, e)
  {
  }

  /** A call that hands out. */
  method DoServe(q: LazyQueue, call: Call, now: int, ghost t: int, ghost m: Mark, ghost fit: Lane -> bool)
    returns (ghost e: Event)
    requires IsGood(q, t, m, fit) && t <= now && IsKept(q.maxPriority, fit) && (call.PopCall? || call.MultiPopCall?)
    modifies q.q0, q.q1, q.popQueue, q.registry, q.popQueue.registry
    ensures IsGood(q, now, e.after, fit)
    ensures IsExplained(q.priority, q.maxPriority, q.period, e) && e.now == now && e.call == call && e.before == m
  {
    var log;
    ghost var m';
    log, m' := DoMultiPop(q, ScriptOf(call), now, t, m, fit);
    e := Event(now, call, log, m, m');
    ServedExplained(q.priority, q.maxPriority, q.period, e);
  }

  /** One call, with everything it does. */
  method DoCall(q: LazyQueue, call: Call, now: int, ghost t: int, ghost m: Mark, ghost fit: Lane -> bool)
    returns (ghost e: Event)
    requires IsGood(q, t, m, fit) && t <= now && IsKept(q.maxPriority, fit)
    modifies q, q.q0, q.q1, q.popQueue, q.registry, q.popQueue.registry
    ensures IsGood(q, now, e.after, fit) && q.q0 == old(q.q0) && q.q1 == old(q.q1)
    ensures IsExplained(q.priority, q.maxPriority, q.period, e) && e.now == now && e.call == call && e.before == m
  {
    if call.PopCall? || call.MultiPopCall? {
      e := DoServe(q, call, now, t, m, fit);
    } else {
      e := DoQuiet(q, call, now, t, m, fit);
    }
  }

  // ----- runs -----

  /** A call and when it is made. */
  datatype Timed = Timed(now: int, call: Call)

  /** The time of the last call. */
  function Latest(t: int, calls: seq<Timed>): int
  {
    if calls == [] then t else calls[|calls| - 1].now
  }

  /** Times do not go back. */
  ghost predicate Ascends(t: int, calls: seq<Timed>)
  {
    forall i :: 0 <= i < |calls| ==> Latest(t, calls[..i]) <= calls[i].now
  }

  /** A run: one event for each call, each explained and starting where the one
      before it ended. */
  ghost predicate IsRun(priority: Priority, maxPriority: Estimate, period: int, calls: seq<Timed>, es: seq<Event>,
                        start: Mark, end: Mark)
  {
    if es == [] then calls == [] && start == end
    else
      var n := |es| - 1;
      var e := es[n];
      && |calls| == n + 1 && calls[n] == Timed(e.now, e.call)
      && IsExplained(priority, maxPriority, period, e) && e.after == end
      && IsRun(priority, maxPriority, period, calls[..n], es[..n], start, e.before)
  }

  lemma ExtendRun(priority: Priority, maxPriority: Estimate, period: int, calls: seq<Timed>, es: seq<Event>,
                  start: Mark, e: Event)
    ensures IsRun(priority, maxPriority, period, calls, es, start, e.before)
            && IsExplained(priority, maxPriority, period, e) ==>
              IsRun(priority, maxPriority, period, calls + [Timed(e.now, e.call)], es + [e], start, e.after)
  {
    if && IsRun(priority, maxPriority, period, calls, es, start, e.before)
       && IsExplained(priority, maxPriority, period, e) {
      assert (es + [e])[..|es|] == es && (calls + [Timed(e.now, e.call)])[..|es|] == calls;
    }
  }

  lemma NextCall(calls: seq<Timed>, i: nat)
    requires i < |calls|
    ensures calls[..i + 1] == calls[..i] + [calls[i]]
  {
  }

  lemma AllCalls(calls: seq<Timed>)
    ensures calls[..|calls|] == calls
  {
  }

  /** One more call of a run. */
  method DoNext(q: LazyQueue, c: Timed, ghost t: int, ghost fit: Lane -> bool, ghost calls: seq<Timed>,
                ghost es: seq<Event>, ghost start: Mark, ghost m: Mark) returns (ghost es': seq<Event>, ghost m': Mark)
    requires IsGood(q, t, m, fit) && t <= c.now && IsKept(q.maxPriority, fit)
    requires IsRun(q.priority, q.maxPriority, q.period, calls, es, start, m)
    modifies q, q.q0, q.q1, q.popQueue, q.registry, q.popQueue.registry
    ensures IsGood(q, c.now, m', fit) && q.q0 == old(q.q0) && q.q1 == old(q.q1)
    ensures IsRun(q.priority, q.maxPriority, q.period, calls + [c], es', start, m')
  {
    ghost var e := DoCall(q, c.call, c.now, t, m, fit);
    ExtendRun(q.priority, q.maxPriority, q.period, calls, es, start, e);
    es', m' := es + [e], e.after;
  }

  /** Every sequence of calls is a run, and the queue stays good. */
  method Perform(q: LazyQueue, calls: seq<Timed>, ghost t: int, ghost m: Mark, ghost fit: Lane -> bool)
    returns (ghost es: seq<Event>, ghost m': Mark)
    requires IsGood(q, t, m, fit) && IsKept(q.maxPriority, fit) && Ascends(t, calls)
    modifies q, q.q0, q.q1, q.popQueue, q.registry, q.popQueue.registry
    ensures IsGood(q, Latest(t, calls), m', fit)
    ensures IsRun(q.priority, q.maxPriority, q.period, calls, es, m, m')
  {
    es, m' := [], m;
    for i := 0 to |calls|
      invariant IsGood(q, Latest(t, calls[..i]), m', fit) && q.q0 == old(q.q0) && q.q1 == old(q.q1)
      invariant IsRun(q.priority, q.maxPriority, q.period, calls[..i], es, m, m')
    {
      NextCall(calls, i);
      es, m' := DoNext(q, calls[i], Latest(t, calls[..i]), fit, calls[..i], es, m, m');
    }
    AllCalls(calls);
  }

  /** A new queue. */
  method Create(registry: Registry, priority: Priority, maxPriority: Estimate, period: int,
                now1: int, now2: int, now3: int) returns (q: LazyQueue, ghost m: Mark)
    requires now1 <= now2 <= now3 && period > 0 && AbsentReported(registry.last, {}) && IsUpper(priority, maxPriority)
    modifies registry
    ensures fresh(q) && fresh(q.q0) && fresh(q.q1) && fresh(q.popQueue) && fresh(q.popQueue.registry)
    ensures q.registry == registry && q.priority == priority && q.maxPriority == maxPriority && q.period == period
    ensures IsGood(q, now3, m, Queues(maxPriority))
    ensures m == Mark(Lane([], [], [], map[]), now2, now3 + period + period)
  {
    q := new LazyQueue(registry, priority, maxPriority, period, now1, now2, now3);
    m := Mark(Lane([], [], [], map[]), now2, now3 + period + period);
    NoItems(q.q0.Flat(), q.q1.Flat());
    EmptyIsQueue(maxPriority);
  }

  lemma NoItems(s0: seq<Item>, s1: seq<Item>)
    ensures multiset(s0) + multiset(s1) == multiset{} ==> s0 == [] && s1 == []
  {
    assert |multiset(s0) + multiset(s1)| == |s0| + |s1|;
  }

  lemma EmptyIsQueue(maxPriority: Estimate)
    ensures IsQueue(maxPriority, Lane([], [], [], map[]))
  {
  }

  /** A queue from its construction on: every sequence of calls is a run that
      starts empty. */
  method CreateAndPerform(registry: Registry, priority: Priority, maxPriority: Estimate, period: int,
                          now1: int, now2: int, now3: int, calls: seq<Timed>)
    returns (q: LazyQueue, ghost es: seq<Event>, ghost end: Mark)
    requires now1 <= now2 <= now3 && period > 0 && AbsentReported(registry.last, {}) && IsUpper(priority, maxPriority)
    requires Ascends(now3, calls)
    modifies registry
    ensures q.priority == priority && q.maxPriority == maxPriority && q.period == period
    ensures IsGood(q, Latest(now3, calls), end, Queues(maxPriority))
    ensures IsRun(priority, maxPriority, period, calls, es,
                  Mark(Lane([], [], [], map[]), now2, now3 + period + period), end)
  {
    ghost var m;
    q, m := Create(registry, priority, maxPriority, period, now1, now2, now3);
    QueuesAreKept(maxPriority);
    es, end := Perform(q, calls, now3, m, Queues(maxPriority));
  }

  /** The events of a run, one by one. */
  lemma {:induction false} RunAt(priority: Priority, maxPriority: Estimate, period: int, calls: seq<Timed>,
                                 es: seq<Event>, start: Mark, end: Mark, k: nat)
    requires IsRun(priority, maxPriority, period, calls, es, start, end) && k < |es|
    ensures |es| == |calls| && calls[k] == Timed(es[k].now, es[k].call)
    ensures IsExplained(priority, maxPriority, period, es[k])
    ensures es[k].before == (if k == 0 then start else es[k - 1].after)
  {
    var n := |es| - 1;
    if k == n {
      if k > 0 { RunAt(priority, maxPriority, period, calls[..n], es[..n], start, es[n].before, k - 1); }
    } else {
      RunAt(priority, maxPriority, period, calls[..n], es[..n], start, es[n].before, k);
    }
  }

  /** In any run: a pop while no estimate's time is past is of greatest actual
      priority of all queued then. */
  lemma PopIsGreatest(priority: Priority, maxPriority: Estimate, period: int, calls: seq<Timed>, es: seq<Event>,
                      start: Mark, end: Mark, k: nat)
    requires IsRun(priority, maxPriority, period, calls, es, start, end) && k < |es|
    requires es[k].call.PopCall? && es[k].before.lane.made.Keys != {} && InTime(es[k].before.lane.made, es[k].now)
    ensures var e := es[k];
            && |e.log| == 1 && e.log[0].item.value in e.before.lane.made
            && e.after.lane.made.Keys == e.before.lane.made.Keys - {e.log[0].item.value}
            && (forall v :: v in e.before.lane.made ==> priority(v, e.now) <= priority(e.log[0].item.value, e.now))
  {
    RunAt(priority, maxPriority, period, calls, es, start, end, k);
    var e := es[k];
    assert e.log != [] && ReplyAt([], 0) == Reply([], false);
    assert e.log == [e.log[0]];
    OneLeft(e.before.lane.made.Keys, e.log[0]);
  }

  lemma LateLane(p: Priority, maxPriority: Estimate, v: Value, w: Value, until: int, t: int, l: Lane, l': Lane)
    requires v != w && maxPriority == Overtaken(v, w, until)
    requires l == JoinedBy(Turn(p, maxPriority, t, until), Lane([], [], [], map[]), w)
    requires l' == JoinedBy(Turn(p, maxPriority, t, until), l, v)
    ensures l' == Lane([], [Item(w, 1), Item(v, 0)], [], map[w := Made(t, until)][v := Made(t, until)])
  {
    Alone(Item(w, 1));
    assert l == Lane([], [Item(w, 1)], [], map[w := Made(t, until)]);
    assert [Item(w, 1)] + [Item(v, 0)] == [Item(w, 1), Item(v, 0)];
  }

  lemma LateEvents(v: Value, w: Value, period: int, until: int, e0: Event, e1: Event, e2: Event)
    requires v != w && e0.now == e1.now && e2.now > until
    requires e0.call == PushCall(w) && e1.call == PushCall(v) && e2.call == PopCall
    requires e0.before.lane == Lane([], [], [], map[]) && e0.before.until == until
    requires e1.before == e0.after && e2.before == e1.after
    requires IsExplained(Overtaking(v, w, until), Overtaken(v, w, until), period, e0)
    requires IsExplained(Overtaking(v, w, until), Overtaken(v, w, until), period, e1)
    requires IsExplained(Overtaking(v, w, until), Overtaken(v, w, until), period, e2)
    ensures e2.before.lane.made.Keys == {v, w} && e2.log == [Handed(Item(w, 1), [])]
  {
    var c := Turn(Overtaking(v, w, until), Overtaken(v, w, until), e2.now, until);
    LateLane(c.priority, c.maxPriority, v, w, until, e0.now, e0.after.lane, e1.after.lane);
    TwoPushed(v, w, e1.after.lane.made, c);
    OneServed(c, e2.before.lane);
  }

  /** From construction on: two values are pushed, and after the time their
      estimates are made for, the lesser one is popped. */
  lemma LatePop(v: Value, w: Value, period: int, refreshed: int, until: int, t: int, now: int, es: seq<Event>,
                end: Mark)
    requires v != w && now > until
    requires IsRun(Overtaking(v, w, until), Overtaken(v, w, until), period,
                   [Timed(t, PushCall(w)), Timed(t, PushCall(v)), Timed(now, PopCall)], es,
                   Mark(Lane([], [], [], map[]), refreshed, until), end)
    ensures |es| == 3 && es[2].before.lane.made.Keys == {v, w} && es[2].log == [Handed(Item(w, 1), [])]
    ensures Overtaking(v, w, until)(w, now) < Overtaking(v, w, until)(v, now)
  {
    var p, mp := Overtaking(v, w, until), Overtaken(v, w, until);
    var calls, start :=
      [Timed(t, PushCall(w)), Timed(t, PushCall(v)), Timed(now, PopCall)],
      Mark(Lane([], [], [], map[]), refreshed, until);
    RunAt(p, mp, period, calls, es, start, end, 0);
    RunAt(p, mp, period, calls, es, start, end, 1);
    RunAt(p, mp, period, calls, es, start, end, 2);
    LateEvents(v, w, period, until, es[0], es[1], es[2]);
  }
}
