/** The timed-unlock protocol of accounts/keystore/keystore.go, as the steps its
    goroutines take between acquiring and releasing the mutex. */
module TimedUnlocks {
  type Address = nat
  type Key = nat
  type Ref = nat
  type Thread = nat

  /** An `unlocked` object: a key and, if timed, its own abort channel. */
  datatype Entry = Entry(addr: Address, key: Key, timed: bool)

  /** Where a goroutine stands. */
  datatype Position =
    | Decrypted(addr: Address, key: Key, timed: bool)  // TimedUnlock, key decrypted, mutex not yet held
    | Waiting(addr: Address, entry: Ref, byLock: bool)  // expire, in its select
    | Elapsed(addr: Address, entry: Ref, byLock: bool)  // expire, timer case taken, mutex not yet held

  /** The map, every object made so far, the keys overwritten with zeros, how
      often each entry's channel was closed, and the running goroutines. */
  datatype State = State(unlocked: map<Address, Ref>, entries: map<Ref, Entry>, keys: set<Key>, zeroed: set<Key>,
                         closes: map<Ref, nat>, threads: map<Thread, Position>)

  datatype Step =
    | Decrypt(t: Thread, addr: Address, key: Key, timed: bool)
    | Install(t: Thread, ref: Ref, timer: Thread)
    | FindToLock(t: Thread, addr: Address)
    | Abort(t: Thread)
    | Elapse(t: Thread)
    | Drop(t: Thread)

  function Closes(s: State, r: Ref): nat
  {
    if r in s.closes then s.closes[r] else 0
  }

  predicate IsEnabled(s: State, p: Step)
  {
    match p
    case Decrypt(t, _, key, _) => t !in s.threads && key !in s.keys
    case Install(t, ref, timer) =>
      t in s.threads && s.threads[t].Decrypted? && ref !in s.entries && timer !in s.threads
    case FindToLock(t, _) => t !in s.threads
    case Abort(t) => t in s.threads && s.threads[t].Waiting? && Closes(s, s.threads[t].entry) > 0
    case Elapse(t) => t in s.threads && s.threads[t].Waiting?
    case Drop(t) => t in s.threads && s.threads[t].Elapsed?
  }

  /** The critical section of TimedUnlock. */
  function Installed(s: State, t: Thread, ref: Ref, timer: Thread): State
    requires EntriesOk(s) && t in s.threads && s.threads[t].Decrypted?
  {
    var Decrypted(addr, key, timed) := s.threads[t];
    var threads := s.threads - {t};
    var found := addr in s.unlocked;
    if found && !s.entries[s.unlocked[addr]].timed then
      s.(zeroed := s.zeroed + {key}, threads := threads)
    else
      s.(closes := if found then s.closes[s.unlocked[addr] := Closes(s, s.unlocked[addr]) + 1] else s.closes,
         entries := s.entries[ref := Entry(addr, key, timed)],
         unlocked := s.unlocked[addr := ref],
         threads := if timed then threads[timer := Waiting(addr, ref, false)] else threads)
  }

  /** The critical section of expire. */
  function Dropped(s: State, t: Thread): State
    requires EntriesOk(s) && t in s.threads && s.threads[t].Elapsed?
  {
    var Elapsed(addr, u, _) := s.threads[t];
    var s' := s.(threads := s.threads - {t});
    if addr in s.unlocked && s.unlocked[addr] == u then
      s'.(zeroed := s.zeroed + {s.entries[u].key}, unlocked := s.unlocked - {addr})
    else s'
  }

  function Next(s: State, p: Step): State
    requires EntriesOk(s) && IsEnabled(s, p)
  {
    match p
    case Decrypt(t, addr, key, timed) =>
      s.(keys := s.keys + {key}, threads := s.threads[t := Decrypted(addr, key, timed)])
    case Install(t, ref, timer) => Installed(s, t, ref, timer)
    case FindToLock(t, addr) =>
      if addr in s.unlocked then s.(threads := s.threads[t := Waiting(addr, s.unlocked[addr], true)]) else s
    case Abort(t) => s.(threads := s.threads - {t})
    case Elapse(t) =>
      var Waiting(addr, u, byLock) := s.threads[t];
      s.(threads := s.threads[t := Elapsed(addr, u, byLock)])
    case Drop(t) => Dropped(s, t)
  }

  // ----- the invariant -----

  predicate Holds(p: Position, r: Ref)
  {
    (p.Waiting? || p.Elapsed?) && p.entry == r
  }

  /** Entries are stored under their own address and no key is shared. */
  predicate EntriesOk(s: State)
  {
    && (forall a :: a in s.unlocked ==> s.unlocked[a] in s.entries && s.entries[s.unlocked[a]].addr == a)
    && (forall r :: r in s.entries ==> s.entries[r].key in s.keys)
    && (forall r, q :: r in s.entries && q in s.entries && r != q ==> s.entries[r].key != s.entries[q].key)
    && s.zeroed <= s.keys
  }

  /** No key in the map is zeroed. */
  predicate KeysOk(s: State)
    requires EntriesOk(s)
  {
    forall a :: a in s.unlocked ==> s.entries[s.unlocked[a]].key !in s.zeroed
  }

  /** A channel is closed at most once, and is open while its entry is in the map. */
  predicate ChannelsOk(s: State)
  {
    && (forall r :: r in s.closes ==> s.closes[r] <= 1 && r in s.entries)
    && (forall a :: a in s.unlocked ==> Closes(s, s.unlocked[a]) == 0)
  }

  predicate PositionOk(s: State, p: Position)
  {
    match p
    case Decrypted(_, key, _) =>
      key in s.keys && key !in s.zeroed && forall r :: r in s.entries ==> s.entries[r].key != key
    case Waiting(a, r, byLock) => r in s.entries && s.entries[r].addr == a && (byLock || s.entries[r].timed)
    case Elapsed(a, r, byLock) => r in s.entries && s.entries[r].addr == a && (byLock || s.entries[r].timed)
  }

  predicate ThreadsOk(s: State)
  {
    && (forall t :: t in s.threads ==> PositionOk(s, s.threads[t]))
    && (forall t, u ::
          t in s.threads && u in s.threads && t != u && s.threads[t].Decrypted? && s.threads[u].Decrypted? ==>
          s.threads[t].key != s.threads[u].key)
  }

  /** A timed entry in the map has a goroutine that will end it. */
  ghost predicate TimersOk(s: State)
    requires EntriesOk(s)
  {
    forall a :: a in s.unlocked && s.entries[s.unlocked[a]].timed ==> HasTimer(s.threads, s.unlocked[a])
  }

  ghost predicate HasTimer(threads: map<Thread, Position>, r: Ref)
  {
    exists t :: t in threads && Holds(threads[t], r)
  }

  ghost predicate Inv(s: State)
  {
    EntriesOk(s) && KeysOk(s) && ChannelsOk(s) && ThreadsOk(s) && TimersOk(s)
  }

  lemma EmptyIsOk()
    ensures Inv(State(map[], map[], {}, {}, map[], map[]))
  {
  }

  /** Holders of an entry that stay, possibly moved on. */
  lemma TimerStays(threads: map<Thread, Position>, threads': map<Thread, Position>, r: Ref)
    requires HasTimer(threads, r)
    requires forall t :: t in threads && Holds(threads[t], r) ==> t in threads' && Holds(threads'[t], r)
    ensures HasTimer(threads', r)
  {
  }

  predicate Discards(s: State, p: Position)
    requires EntriesOk(s) && p.Decrypted?
  {
    p.addr in s.unlocked && !s.entries[s.unlocked[p.addr]].timed
  }

  /** Unlocking what is unlocked for good changes neither map nor entries. */
  lemma DiscardKeeps(s: State, t: Thread, ref: Ref, timer: Thread)
    requires Inv(s) && IsEnabled(s, Install(t, ref, timer)) && Discards(s, s.threads[t])
    ensures Inv(Installed(s, t, ref, timer))
  {
    var s' := Installed(s, t, ref, timer);
    assert PositionOk(s, s.threads[t]);
    forall u | u in s'.threads
      ensures PositionOk(s', s'.threads[u])
    {
      assert PositionOk(s, s.threads[u]);
    }
    forall a | a in s'.unlocked && s'.entries[s'.unlocked[a]].timed
      ensures HasTimer(s'.threads, s'.unlocked[a])
    {
      TimerStays(s.threads, s'.threads, s.unlocked[a]);
    }
  }

  lemma ReplaceKeepsEntries(s: State, t: Thread, ref: Ref, timer: Thread)
    requires Inv(s) && IsEnabled(s, Install(t, ref, timer)) && !Discards(s, s.threads[t])
    ensures var s' := Installed(s, t, ref, timer); EntriesOk(s') && KeysOk(s') && ChannelsOk(s')
  {
    assert PositionOk(s, s.threads[t]);
  }

  lemma ReplaceKeepsThreads(s: State, t: Thread, ref: Ref, timer: Thread)
    requires Inv(s) && IsEnabled(s, Install(t, ref, timer)) && !Discards(s, s.threads[t])
    ensures ThreadsOk(Installed(s, t, ref, timer))
  {
    var s' := Installed(s, t, ref, timer);
    assert PositionOk(s, s.threads[t]);
    forall u | u in s'.threads
      ensures PositionOk(s', s'.threads[u])
    {
      assert u in s.threads ==> PositionOk(s, s.threads[u]);
    }
  }

  lemma ReplaceKeeps(s: State, t: Thread, ref: Ref, timer: Thread)
    requires Inv(s) && IsEnabled(s, Install(t, ref, timer)) && !Discards(s, s.threads[t])
    ensures Inv(Installed(s, t, ref, timer))
  {
    ReplaceKeepsEntries(s, t, ref, timer);
    ReplaceKeepsThreads(s, t, ref, timer);
    var s' := Installed(s, t, ref, timer);
    forall a | a in s'.unlocked && s'.entries[s'.unlocked[a]].timed
      ensures HasTimer(s'.threads, s'.unlocked[a])
    {
      if s'.unlocked[a] == ref {
        assert Holds(s'.threads[timer], ref);
      } else {
        TimerStays(s.threads, s'.threads, s.unlocked[a]);
      }
    }
  }

  lemma DropKeeps(s: State, t: Thread)
    requires Inv(s) && IsEnabled(s, Drop(t))
    ensures Inv(Dropped(s, t))
  {
    var s' := Dropped(s, t);
    assert PositionOk(s, s.threads[t]);
    forall u | u in s'.threads
      ensures PositionOk(s', s'.threads[u])
    {
      assert PositionOk(s, s.threads[u]);
    }
    forall a | a in s'.unlocked && s'.entries[s'.unlocked[a]].timed
      ensures HasTimer(s'.threads, s'.unlocked[a])
    {
      TimerStays(s.threads, s'.threads, s.unlocked[a]);
    }
  }

  lemma MoveKeeps(s: State, p: Step)
    requires Inv(s) && IsEnabled(s, p) && !p.Install? && !p.Drop?
    ensures Inv(Next(s, p))
  {
    var s' := Next(s, p);
    forall u | u in s'.threads
      ensures PositionOk(s', s'.threads[u])
    {
      assert u in s.threads ==> PositionOk(s, s.threads[u]);
    }
    forall a | a in s'.unlocked && s'.entries[s'.unlocked[a]].timed
      ensures HasTimer(s'.threads, s'.unlocked[a])
    {
      TimerStays(s.threads, s'.threads, s.unlocked[a]);
    }
  }

  lemma StepKeeps(s: State, p: Step)
    requires Inv(s) && IsEnabled(s, p)
    ensures Inv(Next(s, p))
  {
    if p.Drop? {
      DropKeeps(s, p.t);
    } else if !p.Install? {
      MoveKeeps(s, p);
    } else if Discards(s, s.threads[p.t]) {
      DiscardKeeps(s, p.t, p.ref, p.timer);
    } else {
      ReplaceKeeps(s, p.t, p.ref, p.timer);
    }
  }

  // ----- runs -----

  /** Any interleaving of the steps. */
  ghost predicate IsRun(ss: seq<State>, ps: seq<Step>)
  {
    && |ss| == |ps| + 1 && Inv(ss[0])
    && forall k :: 0 <= k < |ps| ==> Follows(ss[k], ps[k], ss[k + 1])
  }

  ghost predicate Follows(s: State, p: Step, s': State)
  {
    EntriesOk(s) && IsEnabled(s, p) && s' == Next(s, p)
  }

  /** In every reachable state no key in the map is zeroed, every channel was
      closed at most once and is open while its entry is in the map, and every
      timed entry has its goroutine. */
  lemma {:induction false} RunKeeps(ss: seq<State>, ps: seq<Step>, k: nat)
    requires IsRun(ss, ps) && k < |ss|
    ensures Inv(ss[k])
  {
    if k == 0 {
    } else {
      RunKeeps(ss, ps, k - 1);
      assert Follows(ss[k - 1], ps[k - 1], ss[k]);
      StepKeeps(ss[k - 1], ps[k - 1]);
    }
  }

  /** An entry no longer, or never, in the map. */
  predicate IsStale(s: State, r: Ref)
  {
    r in s.entries && forall a :: a in s.unlocked ==> s.unlocked[a] != r
  }

  /** A stale entry stays so and its key is not zeroed later. */
  predicate StaysStale(s: State, s': State, r: Ref)
    requires IsStale(s, r)
  {
    && IsStale(s', r) && s'.entries[r] == s.entries[r]
    && (s.entries[r].key in s'.zeroed <==> s.entries[r].key in s.zeroed)
  }

  /** A goroutine that holds a stale entry changes neither map nor keys. */
  lemma StaleStep(s: State, p: Step, s': State, r: Ref)
    requires Inv(s) && Follows(s, p, s') && IsStale(s, r)
    ensures StaysStale(s, s', r)
    ensures p.t in s.threads && Holds(s.threads[p.t], r) ==> s'.unlocked == s.unlocked && s'.zeroed == s.zeroed
  {
    assert p.t in s.threads ==> PositionOk(s, s.threads[p.t]);
  }

  /** Nothing brings a stale entry back or zeroes its key. */
  lemma {:induction false} StaleForever(ss: seq<State>, ps: seq<Step>, i: nat, j: nat, r: Ref)
    requires IsRun(ss, ps) && i <= j < |ss| && IsStale(ss[i], r)
    ensures StaysStale(ss[i], ss[j], r)
    decreases j
  {
    if i == j {
    } else {
      StaleForever(ss, ps, i, j - 1, r);
      StaleNext(ss, ps, j - 1, r);
      StaleTrans(ss[i], ss[j - 1], ss[j], r);
    }
  }

  lemma StaleNext(ss: seq<State>, ps: seq<Step>, j: nat, r: Ref)
    requires IsRun(ss, ps) && j < |ps| && IsStale(ss[j], r)
    ensures StaysStale(ss[j], ss[j + 1], r)
    ensures ps[j].t in ss[j].threads && Holds(ss[j].threads[ps[j].t], r) ==>
              ss[j + 1].unlocked == ss[j].unlocked && ss[j + 1].zeroed == ss[j].zeroed
  {
    RunKeeps(ss, ps, j);
    StaleStep(ss[j], ps[j], ss[j + 1], r);
  }

  lemma StaleTrans(s: State, s1: State, s2: State, r: Ref)
    requires IsStale(s, r) && StaysStale(s, s1, r) && StaysStale(s1, s2, r)
    ensures StaysStale(s, s2, r)
  {
  }

  /** So a timer that outlived its entry removes and zeroes nothing, whatever
      the address has been unlocked with since. */
  lemma StaleTimerIsHarmless(ss: seq<State>, ps: seq<Step>, i: nat, j: nat, r: Ref)
    requires IsRun(ss, ps) && i <= j < |ps| && IsStale(ss[i], r)
    requires ps[j].t in ss[j].threads && Holds(ss[j].threads[ps[j].t], r)
    ensures ss[j + 1].unlocked == ss[j].unlocked && ss[j + 1].zeroed == ss[j].zeroed
  {
    StaleForever(ss, ps, i, j, r);
    StaleNext(ss, ps, j, r);
  }

  /** The step that ends entry `r` of address `a`: expire by a goroutine that
      holds this very entry. */
  predicate Ends(s: State, p: Step, a: Address, r: Ref)
  {
    p.Drop? && p.t in s.threads && s.threads[p.t].Elapsed? && s.threads[p.t].addr == a && s.threads[p.t].entry == r
  }

  /** The step that replaces it: TimedUnlock of the same address. */
  predicate Replaces(s: State, p: Step, a: Address)
  {
    p.Install? && p.t in s.threads && s.threads[p.t].Decrypted? && s.threads[p.t].addr == a
  }

  /** What an address is unlocked with changes in two ways only. Ending it zeroes
      its key; replacing it closes its channel, and it was timed. */
  lemma ChangeHasCause(s: State, p: Step, a: Address)
    requires Inv(s) && IsEnabled(s, p) && a in s.unlocked
    ensures var s', r := Next(s, p), s.unlocked[a];
            if Ends(s, p, a, r) then
              a !in s'.unlocked && s.entries[r].key in s'.zeroed && (s.entries[r].timed || s.threads[p.t].byLock)
            else if Replaces(s, p, a) && s.entries[r].timed then
              && a in s'.unlocked && s'.unlocked[a] != r && Closes(s', r) == 1
              && s'.entries[s'.unlocked[a]].key == s.threads[p.t].key
            else a in s'.unlocked && s'.unlocked[a] == r && s'.entries[r] == s.entries[r]
  {
    assert p.t in s.threads ==> PositionOk(s, s.threads[p.t]);
  }

  /** An indefinite unlock is ended only by Lock. */
  lemma {:induction false} EndedOnlyByLock(ss: seq<State>, ps: seq<Step>, i: nat, j: nat, a: Address)
    requires IsRun(ss, ps) && i <= j < |ss| && a in ss[i].unlocked
    requires ss[i].unlocked[a] in ss[i].entries && !ss[i].entries[ss[i].unlocked[a]].timed
    ensures var r := ss[i].unlocked[a];
            || (a in ss[j].unlocked && ss[j].unlocked[a] == r && r in ss[j].entries
                && ss[j].entries[r] == ss[i].entries[r])
            || (exists k :: i <= k < j && Ends(ss[k], ps[k], a, r) && ss[k].threads[ps[k].t].byLock)
    decreases j
  {
    if i == j {
    } else {
      EndedOnlyByLock(ss, ps, i, j - 1, a);
      var r := ss[i].unlocked[a];
      if k :| i <= k < j - 1 && Ends(ss[k], ps[k], a, r) && ss[k].threads[ps[k].t].byLock {
      } else {
        RunKeeps(ss, ps, j - 1);
        assert Follows(ss[j - 1], ps[j - 1], ss[j]);
        ChangeHasCause(ss[j - 1], ps[j - 1], a);
      }
    }
  }

  // ----- what unlocking and locking achieve -----

  /** Unlocking a locked address unlocks it with the new key, and a timed unlock
      starts its timer; other addresses stay as they are. An address unlocked for
      good stays so and the new key is zeroed; a timed one gets the new key and its
      old timer is told to stop. */
  lemma UnlockUnlocks(s: State, t: Thread, ref: Ref, timer: Thread)
    requires Inv(s) && IsEnabled(s, Install(t, ref, timer))
    ensures var Decrypted(a, key, timed) := s.threads[t];
            var s' := Next(s, Install(t, ref, timer));
            if a in s.unlocked && !s.entries[s.unlocked[a]].timed then
              s'.unlocked == s.unlocked && s'.zeroed == s.zeroed + {key} && t !in s'.threads
            else
              && s'.unlocked == s.unlocked[a := ref] && s'.entries[ref] == Entry(a, key, timed)
              && s'.zeroed == s.zeroed && key !in s'.zeroed
              && (timed ==> timer in s'.threads && s'.threads[timer] == Waiting(a, ref, false))
              && (a in s.unlocked ==> Closes(s', s.unlocked[a]) == 1)
  {
    assert PositionOk(s, s.threads[t]);
  }

  /** The other steps move one goroutine and leave map, entries, channels and zeroed
      keys alone: decrypting holds a new key, a timer that fires goes on to end its
      entry, and one told to stop is gone. */
  lemma OtherStepsMoveOne(s: State, p: Step)
    requires Inv(s) && IsEnabled(s, p) && (p.Decrypt? || p.Abort? || p.Elapse?)
    ensures var s' := Next(s, p);
            && (s'.unlocked, s'.entries, s'.zeroed, s'.closes) == (s.unlocked, s.entries, s.zeroed, s.closes)
            && s'.threads - {p.t} == s.threads - {p.t}
            && (p.Decrypt? ==> s'.keys == s.keys + {p.key} && p.t in s'.threads
                               && s'.threads[p.t] == Decrypted(p.addr, p.key, p.timed))
            && (p.Abort? ==> p.t !in s'.threads && Closes(s, s.threads[p.t].entry) > 0)
            && (p.Elapse? ==> p.t in s'.threads && s'.threads[p.t].Elapsed?
                              && s'.threads[p.t].addr == s.threads[p.t].addr
                              && s'.threads[p.t].entry == s.threads[p.t].entry)
  {
  }

  /** Lock of an unlocked address can go through at once, and then it is locked with
      its key zeroed and nothing else changed; Lock of a locked address does nothing. */
  lemma LockLocks(s: State, t: Thread, a: Address)
    requires Inv(s) && t !in s.threads
    ensures a !in s.unlocked ==> Next(s, FindToLock(t, a)) == s
    ensures a in s.unlocked ==>
              var s1 := Next(s, FindToLock(t, a));
              && EntriesOk(s1) && IsEnabled(s1, Elapse(t))
              && var s2 := Next(s1, Elapse(t));
                 && EntriesOk(s2) && IsEnabled(s2, Drop(t))
                 && var s3 := Next(s2, Drop(t));
                    s3 == s.(unlocked := s.unlocked - {a}, zeroed := s.zeroed + {s.entries[s.unlocked[a]].key})
  {
    if a in s.unlocked {
      var s1 := Next(s, FindToLock(t, a));
      var s2 := Next(s1, Elapse(t));
      var s3 := Next(s2, Drop(t));
      assert s3.threads == s.threads;
    }
  }

  /** Entry `r` of address `a` is in the map. */
  predicate IsHeld(s: State, a: Address, r: Ref)
  {
    a in s.unlocked && s.unlocked[a] == r && r in s.entries
  }

  /** The goroutine of expire waits for, or is about to end, this entry. */
  predicate IsExpiring(s: State, t: Thread, a: Address, r: Ref)
  {
    t in s.threads && Holds(s.threads[t], r) && s.threads[t].addr == a
  }

  /** A new unlock of the address took the entry's place at some step. */
  ghost predicate WasReplaced(ss: seq<State>, ps: seq<Step>, i: nat, j: nat, a: Address, r: Ref)
    requires j <= |ps| <= |ss|
  {
    exists k :: i <= k < j && IsHeld(ss[k], a, r) && Replaces(ss[k], ps[k], a)
  }

  /** Gone from the map, with its key zeroed or its place taken. */
  ghost predicate IsOver(ss: seq<State>, ps: seq<Step>, i: nat, j: nat, a: Address, r: Ref, key: Key)
    requires j <= |ps| <= |ss| && j < |ss|
  {
    IsStale(ss[j], r) && (key in ss[j].zeroed || WasReplaced(ss, ps, i, j, a, r))
  }

  /** One step: the entry stays, or is over. */
  lemma HeldOrOver(s: State, p: Step, s': State, a: Address, r: Ref)
    requires Inv(s) && Follows(s, p, s') && IsHeld(s, a, r)
    ensures r in s'.entries && s'.entries[r] == s.entries[r]
    ensures IsHeld(s', a, r) || (IsStale(s', r) && (s.entries[r].key in s'.zeroed || Replaces(s, p, a)))
    ensures Ends(s, p, a, r) ==> IsStale(s', r) && s.entries[r].key in s'.zeroed
  {
    ChangeHasCause(s, p, a);
    StepKeeps(s, p);
    assert forall b :: b in s.unlocked && b != a ==> s.unlocked[b] != r;
  }

  /** Only its own steps move a goroutine of expire. */
  lemma ExpiringStays(s: State, p: Step, s': State, t: Thread, a: Address, r: Ref)
    requires Inv(s) && Follows(s, p, s') && IsExpiring(s, t, a, r) && p != Abort(t) && p != Drop(t)
    ensures IsExpiring(s', t, a, r)
  {
  }

  /** Until its goroutine ends, an entry is in the map or over. */
  lemma {:induction false} ExpiringRun(ss: seq<State>, ps: seq<Step>, i: nat, j: nat, t: Thread, a: Address, r: Ref)
    requires IsRun(ss, ps) && i <= j < |ss| && IsHeld(ss[i], a, r) && IsExpiring(ss[i], t, a, r)
    requires forall k :: i <= k < j ==> ps[k] != Abort(t) && ps[k] != Drop(t)
    ensures IsExpiring(ss[j], t, a, r) && r in ss[j].entries && ss[j].entries[r] == ss[i].entries[r]
    ensures IsHeld(ss[j], a, r) || IsOver(ss, ps, i, j, a, r, ss[i].entries[r].key)
    decreases j
  {
    if i == j {
    } else {
      ExpiringRun(ss, ps, i, j - 1, t, a, r);
      OverNext(ss, ps, i, j - 1, a, r);
      ExpiringStays(ss[j - 1], ps[j - 1], ss[j], t, a, r);
    }
  }

  lemma OverNext(ss: seq<State>, ps: seq<Step>, i: nat, j: nat, a: Address, r: Ref)
    requires IsRun(ss, ps) && i <= j < |ps| && r in ss[i].entries
    requires r in ss[j].entries && ss[j].entries[r] == ss[i].entries[r]
    requires IsHeld(ss[j], a, r) || IsOver(ss, ps, i, j, a, r, ss[i].entries[r].key)
    ensures Inv(ss[j]) && Follows(ss[j], ps[j], ss[j + 1])
    ensures r in ss[j + 1].entries && ss[j + 1].entries[r] == ss[i].entries[r]
    ensures IsHeld(ss[j + 1], a, r) || IsOver(ss, ps, i, j + 1, a, r, ss[i].entries[r].key)
    ensures Ends(ss[j], ps[j], a, r) ==> IsOver(ss, ps, i, j + 1, a, r, ss[i].entries[r].key)
  {
    RunKeeps(ss, ps, j);
    assert Follows(ss[j], ps[j], ss[j + 1]);
    if IsHeld(ss[j], a, r) {
      HeldOrOver(ss[j], ps[j], ss[j + 1], a, r);
    } else {
      StaleStep(ss[j], ps[j], ss[j + 1], r);
    }
  }

  /** When a goroutine of expire ends, whatever others did meanwhile, its entry is no
      longer in the map, and its key is zeroed or a new unlock took its place. */
  lemma ExpireTakesEffect(ss: seq<State>, ps: seq<Step>, i: nat, j: nat, t: Thread, a: Address, r: Ref)
    requires IsRun(ss, ps) && i <= j < |ps| && IsHeld(ss[i], a, r) && IsExpiring(ss[i], t, a, r)
    requires forall k :: i <= k < j ==> ps[k] != Abort(t) && ps[k] != Drop(t)
    requires ps[j] == Abort(t) || ps[j] == Drop(t)
    ensures IsOver(ss, ps, i, j + 1, a, r, ss[i].entries[r].key)
  {
    ExpiringRun(ss, ps, i, j, t, a, r);
    OverNext(ss, ps, i, j, a, r);
  }

  /** So Lock locks: once the goroutine that locks is through, the entry found is gone
      and its key zeroed, unless the address was unlocked anew meanwhile. */
  lemma LockTakesEffect(ss: seq<State>, ps: seq<Step>, i: nat, j: nat, t: Thread, a: Address)
    requires IsRun(ss, ps) && i < j < |ps| && ps[i] == FindToLock(t, a) && a in ss[i].unlocked
    requires forall k :: i < k < j ==> ps[k] != Abort(t) && ps[k] != Drop(t)
    requires ps[j] == Abort(t) || ps[j] == Drop(t)
    ensures var r := ss[i].unlocked[a];
            r in ss[i].entries && IsOver(ss, ps, i + 1, j + 1, a, r, ss[i].entries[r].key)
  {
    RunKeeps(ss, ps, i);
    assert Follows(ss[i], ps[i], ss[i + 1]);
    ExpireTakesEffect(ss, ps, i + 1, j, t, a, ss[i].unlocked[a]);
  }

  /** And a timed unlock ends: once its timer's goroutine is through, the same holds of
      the entry it was started for. */
  lemma TimerTakesEffect(ss: seq<State>, ps: seq<Step>, i: nat, j: nat, t: Thread, timer: Thread, ref: Ref)
    requires IsRun(ss, ps) && i < j < |ps| && ps[i] == Install(t, ref, timer)
    requires var p := ss[i].threads; t in p && p[t].Decrypted? && p[t].timed
    requires var s, a := ss[i], ss[i].threads[t].addr;
             a in s.unlocked ==> s.unlocked[a] in s.entries && s.entries[s.unlocked[a]].timed
    requires forall k :: i < k < j ==> ps[k] != Abort(timer) && ps[k] != Drop(timer)
    requires ps[j] == Abort(timer) || ps[j] == Drop(timer)
    ensures var Decrypted(a, key, _) := ss[i].threads[t]; IsOver(ss, ps, i + 1, j + 1, a, ref, key)
  {
    RunKeeps(ss, ps, i);
    assert Follows(ss[i], ps[i], ss[i + 1]);
    UnlockUnlocks(ss[i], t, ref, timer);
    ExpireTakesEffect(ss, ps, i + 1, j, timer, ss[i].threads[t].addr, ref);
  }
}
