/** Compatibility of chain configurations, params/config.go. */
module ChainConfigs {
  import opened Common

  /** A fork block, none if the fork is not scheduled. */
  type Schedule = Option<nat>

  datatype ChainConfig = ChainConfig(chainId: Option<nat>, homestead: Schedule, daoFork: Schedule, daoForkSupport: bool,
    tangerineWhistle: Schedule, spuriousDragon: Schedule, byzantium: Schedule, constantinople: Schedule,
    petersburg: Schedule, istanbul: Schedule, muirGlacier: Schedule, berlin: Schedule, london: Schedule,
    arrowGlacier: Schedule, grayGlacier: Schedule, mergeNetsplit: Schedule, shanghai: Schedule, cancun: Schedule)

  /** What a conflict is about. */
  datatype Setting =
    | HomesteadBlock | DaoForkBlock | DaoForkSupport | TangerineWhistleBlock | SpuriousDragonBlock | ChainId
    | ByzantiumBlock | ConstantinopleBlock | PetersburgBlock | IstanbulBlock | MuirGlacierBlock | BerlinBlock
    | LondonBlock | ArrowGlacierBlock | GrayGlacierBlock | MergeNetsplitBlock | ShanghaiBlock | CancunBlock

  datatype CompatError = CompatError(what: Setting, stored: Schedule, wanted: Schedule, rewindTo: nat)

  function IsForked(s: Schedule, head: nat): bool
  {
    s.Some? && s.value <= head
  }

  predicate IsForkIncompatible(s1: Schedule, s2: Schedule, head: nat)
  {
    (IsForked(s1, head) || IsForked(s2, head)) && s1 != s2
  }

  function NewCompatError(what: Setting, stored: Schedule, wanted: Schedule): CompatError
  {
    var rew := if stored.None? then wanted
               else if wanted.None? || stored.value < wanted.value then stored else wanted;
    CompatError(what, stored, wanted, if rew.Some? && rew.value > 0 then rew.value - 1 else 0)
  }

  /** One test of checkCompatible: a fork block, a setting that may not change
      once a fork is active, or the Petersburg block with its exception. */
  datatype Test =
    | ForkTest(what: Setting, stored: Schedule, wanted: Schedule)
    | FlagTest(what: Setting, stored: Schedule, wanted: Schedule, differs: bool)
    | PetersburgTest(what: Setting, stored: Schedule, wanted: Schedule, constantinople: Schedule)

  predicate Fails(t: Test, head: nat)
  {
    match t
    case ForkTest(_, s, w) => IsForkIncompatible(s, w, head)
    case FlagTest(_, s, _, differs) => IsForked(s, head) && differs
    case PetersburgTest(_, s, w, c) => IsForkIncompatible(s, w, head) && IsForkIncompatible(c, w, head)
  }

  /** The tests in their order. */
  function Tests(c: ChainConfig, n: ChainConfig): seq<Test>
  {
    [ ForkTest(HomesteadBlock, c.homestead, n.homestead),
      ForkTest(DaoForkBlock, c.daoFork, n.daoFork),
      FlagTest(DaoForkSupport, c.daoFork, n.daoFork, c.daoForkSupport != n.daoForkSupport),
      ForkTest(TangerineWhistleBlock, c.tangerineWhistle, n.tangerineWhistle),
      ForkTest(SpuriousDragonBlock, c.spuriousDragon, n.spuriousDragon),
      FlagTest(ChainId, c.spuriousDragon, n.spuriousDragon, c.chainId != n.chainId),
      ForkTest(ByzantiumBlock, c.byzantium, n.byzantium),
      ForkTest(ConstantinopleBlock, c.constantinople, n.constantinople),
      PetersburgTest(PetersburgBlock, c.petersburg, n.petersburg, c.constantinople),
      ForkTest(IstanbulBlock, c.istanbul, n.istanbul),
      ForkTest(MuirGlacierBlock, c.muirGlacier, n.muirGlacier),
      ForkTest(BerlinBlock, c.berlin, n.berlin),
      ForkTest(LondonBlock, c.london, n.london),
      ForkTest(ArrowGlacierBlock, c.arrowGlacier, n.arrowGlacier),
      ForkTest(GrayGlacierBlock, c.grayGlacier, n.grayGlacier),
      ForkTest(MergeNetsplitBlock, c.mergeNetsplit, n.mergeNetsplit),
      ForkTest(ShanghaiBlock, c.shanghai, n.shanghai),
      ForkTest(CancunBlock, c.cancun, n.cancun) ]
  }

  function FirstFailure(ts: seq<Test>, head: nat): Option<Test>
  {
    if ts == [] then None else if Fails(ts[0], head) then Some(ts[0]) else FirstFailure(ts[1..], head)
  }

  /** checkCompatible: the error of the first test that fails. */
  function CheckAt(c: ChainConfig, n: ChainConfig, head: nat): Option<CompatError>
  {
    var t := FirstFailure(Tests(c, n), head);
    if t.None? then None else Some(NewCompatError(t.value.what, t.value.stored, t.value.wanted))
  }

  // ----- what the check means -----

  /** No block up to the head would have been run under other rules. */
  ghost predicate AreCompatible(c: ChainConfig, n: ChainConfig, head: nat)
  {
    forall t :: t in Tests(c, n) ==> !Fails(t, head)
  }

  lemma {:induction false} FirstFailureAt(ts: seq<Test>, head: nat) returns (i: nat)
    ensures var f := FirstFailure(ts, head);
            if f.None? then forall t :: t in ts ==> !Fails(t, head)
            else i < |ts| && ts[i] == f.value && Fails(ts[i], head) && forall k :: 0 <= k < i ==> !Fails(ts[k], head)
  {
    i := 0;
    if ts == [] || Fails(ts[0], head) {
    } else {
      i := FirstFailureAt(ts[1..], head);
      i := i + 1;
      assert forall k :: 0 < k < |ts| ==> ts[k] == ts[1..][k - 1];
    }
  }

  lemma CheckIsCompatible(c: ChainConfig, n: ChainConfig, head: nat)
    ensures CheckAt(c, n, head).None? <==> AreCompatible(c, n, head)
  {
    var i := FirstFailureAt(Tests(c, n), head);
  }

  /** A fork is active at the same blocks up to the head. */
  ghost predicate Agree(s: Schedule, t: Schedule, head: nat)
  {
    forall b: nat :: b <= head ==> IsForked(s, b) == IsForked(t, b)
  }

  lemma CompatibleIsAgreement(s: Schedule, t: Schedule, head: nat)
    ensures !IsForkIncompatible(s, t, head) <==> Agree(s, t, head)
  {
    if IsForkIncompatible(s, t, head) {
      var b := if t.None? || (s.Some? && s.value < t.value) then s.value else t.value;
      assert IsForked(s, b) != IsForked(t, b);
    }
  }

  /** Two configurations are compatible if and only if every fork is active at the
      same blocks up to the head, where the new Petersburg may also follow the stored
      Constantinople, and the DAO support and the chain id are the same once their
      forks are active. */
  lemma CompatibleMeans(c: ChainConfig, n: ChainConfig, head: nat)
    ensures AreCompatible(c, n, head) <==>
            && Agree(c.homestead, n.homestead, head) && Agree(c.daoFork, n.daoFork, head)
            && (IsForked(c.daoFork, head) ==> c.daoForkSupport == n.daoForkSupport)
            && Agree(c.tangerineWhistle, n.tangerineWhistle, head) && Agree(c.spuriousDragon, n.spuriousDragon, head)
            && (IsForked(c.spuriousDragon, head) ==> c.chainId == n.chainId)
            && Agree(c.byzantium, n.byzantium, head) && Agree(c.constantinople, n.constantinople, head)
            && (Agree(c.petersburg, n.petersburg, head) || Agree(c.constantinople, n.petersburg, head))
            && Agree(c.istanbul, n.istanbul, head) && Agree(c.muirGlacier, n.muirGlacier, head)
            && Agree(c.berlin, n.berlin, head) && Agree(c.london, n.london, head)
            && Agree(c.arrowGlacier, n.arrowGlacier, head) && Agree(c.grayGlacier, n.grayGlacier, head)
            && Agree(c.mergeNetsplit, n.mergeNetsplit, head) && Agree(c.shanghai, n.shanghai, head)
            && Agree(c.cancun, n.cancun, head)
  {
    TestsAre(c, n, head);
    CompatibleIsAgreement(c.homestead, n.homestead, head);
    CompatibleIsAgreement(c.daoFork, n.daoFork, head);
    CompatibleIsAgreement(c.tangerineWhistle, n.tangerineWhistle, head);
    CompatibleIsAgreement(c.spuriousDragon, n.spuriousDragon, head);
    CompatibleIsAgreement(c.byzantium, n.byzantium, head);
    CompatibleIsAgreement(c.constantinople, n.constantinople, head);
    CompatibleIsAgreement(c.petersburg, n.petersburg, head);
    CompatibleIsAgreement(c.constantinople, n.petersburg, head);
    CompatibleIsAgreement(c.istanbul, n.istanbul, head);
    CompatibleIsAgreement(c.muirGlacier, n.muirGlacier, head);
    CompatibleIsAgreement(c.berlin, n.berlin, head);
    CompatibleIsAgreement(c.london, n.london, head);
    CompatibleIsAgreement(c.arrowGlacier, n.arrowGlacier, head);
    CompatibleIsAgreement(c.grayGlacier, n.grayGlacier, head);
    CompatibleIsAgreement(c.mergeNetsplit, n.mergeNetsplit, head);
    CompatibleIsAgreement(c.shanghai, n.shanghai, head);
    CompatibleIsAgreement(c.cancun, n.cancun, head);
  }

  /** The tests, one by one. */
  lemma TestsAre(c: ChainConfig, n: ChainConfig, head: nat)
    ensures AreCompatible(c, n, head) <==>
            && !IsForkIncompatible(c.homestead, n.homestead, head) && !IsForkIncompatible(c.daoFork, n.daoFork, head)
            && !(IsForked(c.daoFork, head) && c.daoForkSupport != n.daoForkSupport)
            && !IsForkIncompatible(c.tangerineWhistle, n.tangerineWhistle, head)
            && !IsForkIncompatible(c.spuriousDragon, n.spuriousDragon, head)
            && !(IsForked(c.spuriousDragon, head) && c.chainId != n.chainId)
            && !IsForkIncompatible(c.byzantium, n.byzantium, head)
            && !IsForkIncompatible(c.constantinople, n.constantinople, head)
            && !(IsForkIncompatible(c.petersburg, n.petersburg, head)
                 && IsForkIncompatible(c.constantinople, n.petersburg, head))
            && !IsForkIncompatible(c.istanbul, n.istanbul, head)
            && !IsForkIncompatible(c.muirGlacier, n.muirGlacier, head)
            && !IsForkIncompatible(c.berlin, n.berlin, head) && !IsForkIncompatible(c.london, n.london, head)
            && !IsForkIncompatible(c.arrowGlacier, n.arrowGlacier, head)
            && !IsForkIncompatible(c.grayGlacier, n.grayGlacier, head)
            && !IsForkIncompatible(c.mergeNetsplit, n.mergeNetsplit, head)
            && !IsForkIncompatible(c.shanghai, n.shanghai, head) && !IsForkIncompatible(c.cancun, n.cancun, head)
  {
    AllPass(Tests(c, n), head);
  }

  lemma AllPass(ts: seq<Test>, head: nat)
    requires |ts| == 18
    ensures (forall t :: t in ts ==> !Fails(t, head)) <==>
            && !Fails(ts[0], head) && !Fails(ts[1], head) && !Fails(ts[2], head) && !Fails(ts[3], head)
            && !Fails(ts[4], head) && !Fails(ts[5], head) && !Fails(ts[6], head) && !Fails(ts[7], head)
            && !Fails(ts[8], head) && !Fails(ts[9], head) && !Fails(ts[10], head) && !Fails(ts[11], head)
            && !Fails(ts[12], head) && !Fails(ts[13], head) && !Fails(ts[14], head) && !Fails(ts[15], head)
            && !Fails(ts[16], head) && !Fails(ts[17], head)
  {
    assert (forall t :: t in ts ==> !Fails(t, head)) <==> forall i :: 0 <= i < |ts| ==> !Fails(ts[i], head);
  }

  /** The fork block a setting belongs to. */
  function ScheduleOf(c: ChainConfig, w: Setting): Schedule
  {
    match w
    case HomesteadBlock => c.homestead
    case DaoForkBlock => c.daoFork
    case DaoForkSupport => c.daoFork
    case TangerineWhistleBlock => c.tangerineWhistle
    case SpuriousDragonBlock => c.spuriousDragon
    case ChainId => c.spuriousDragon
    case ByzantiumBlock => c.byzantium
    case ConstantinopleBlock => c.constantinople
    case PetersburgBlock => c.petersburg
    case IstanbulBlock => c.istanbul
    case MuirGlacierBlock => c.muirGlacier
    case BerlinBlock => c.berlin
    case LondonBlock => c.london
    case ArrowGlacierBlock => c.arrowGlacier
    case GrayGlacierBlock => c.grayGlacier
    case MergeNetsplitBlock => c.mergeNetsplit
    case ShanghaiBlock => c.shanghai
    case CancunBlock => c.cancun
  }

  /** The settings differ in what matters up to the head. */
  ghost predicate IsConflict(c: ChainConfig, n: ChainConfig, head: nat, w: Setting)
  {
    match w
    case DaoForkSupport => IsForked(c.daoFork, head) && c.daoForkSupport != n.daoForkSupport
    case ChainId => IsForked(c.spuriousDragon, head) && c.chainId != n.chainId
    case PetersburgBlock =>
      !Agree(c.petersburg, n.petersburg, head) && !Agree(c.constantinople, n.petersburg, head)
    case _ => !Agree(ScheduleOf(c, w), ScheduleOf(n, w), head)
  }

  /** The place of a setting in the order of the checks. */
  function Rank(w: Setting): (i: nat)
    ensures i < 18
  {
    match w
    case HomesteadBlock => 0
    case DaoForkBlock => 1
    case DaoForkSupport => 2
    case TangerineWhistleBlock => 3
    case SpuriousDragonBlock => 4
    case ChainId => 5
    case ByzantiumBlock => 6
    case ConstantinopleBlock => 7
    case PetersburgBlock => 8
    case IstanbulBlock => 9
    case MuirGlacierBlock => 10
    case BerlinBlock => 11
    case LondonBlock => 12
    case ArrowGlacierBlock => 13
    case GrayGlacierBlock => 14
    case MergeNetsplitBlock => 15
    case ShanghaiBlock => 16
    case CancunBlock => 17
  }

  lemma TestAt(c: ChainConfig, n: ChainConfig, head: nat, w: Setting)
    ensures |Tests(c, n)| == 18
    ensures var t := Tests(c, n)[Rank(w)];
            && t.what == w && t.stored == ScheduleOf(c, w) && t.wanted == ScheduleOf(n, w)
            && Fails(t, head) == IsConflict(c, n, head, w)
  {
    CompatibleIsAgreement(ScheduleOf(c, w), ScheduleOf(n, w), head);
    CompatibleIsAgreement(c.constantinople, n.petersburg, head);
  }

  /** An error is about the first conflict in that order, and says which blocks are
      stored and wanted. */
  lemma ErrorIsFirstConflict(c: ChainConfig, n: ChainConfig, head: nat)
    requires CheckAt(c, n, head).Some?
    ensures var e := CheckAt(c, n, head).value;
            && IsConflict(c, n, head, e.what) && e.stored == ScheduleOf(c, e.what) && e.wanted == ScheduleOf(n, e.what)
            && forall w :: IsConflict(c, n, head, w) ==> Rank(e.what) <= Rank(w)
  {
    var ts := Tests(c, n);
    var i := FirstFailureAt(ts, head);
    assert Rank(ts[i].what) == i;
    TestAt(c, n, head, ts[i].what);
    forall w | IsConflict(c, n, head, w)
      ensures i <= Rank(w)
    {
      TestAt(c, n, head, w);
    }
  }

  /** The block to rewind to is the last at which the schedules agree, or 0. */
  lemma RewindIsLastAgreement(w: Setting, s: Schedule, t: Schedule)
    requires s != t
    ensures var r := NewCompatError(w, s, t).rewindTo; !Agree(s, t, r + 1) && (r > 0 ==> Agree(s, t, r))
  {
    var r := NewCompatError(w, s, t).rewindTo;
    CompatibleIsAgreement(s, t, r);
    CompatibleIsAgreement(s, t, r + 1);
  }

  /** Rewinding goes down, or to block 0. */
  lemma RewindIsLower(c: ChainConfig, n: ChainConfig, head: nat)
    requires CheckAt(c, n, head).Some?
    ensures var r := CheckAt(c, n, head).value.rewindTo; r < head || r == 0
  {
    var i := FirstFailureAt(Tests(c, n), head);
  }

  /** A setting's fork block is tested just before the setting. */
  lemma FlagFollowsFork(c: ChainConfig, n: ChainConfig, i: nat)
    requires i < |Tests(c, n)| && Tests(c, n)[i].FlagTest?
    ensures i > 0 && var t, f := Tests(c, n)[i - 1], Tests(c, n)[i];
            t.ForkTest? && t.stored == f.stored && t.wanted == f.wanted
  {
  }

  /** What the fork order gives: Petersburg is not without or before Constantinople. */
  predicate PetersburgFollows(c: ChainConfig)
  {
    c.petersburg.Some? ==> c.constantinople.Some? && c.constantinople.value <= c.petersburg.value
  }

  /** The Petersburg test is the ninth. */
  lemma PetersburgAt(c: ChainConfig, n: ChainConfig, i: nat)
    requires i < |Tests(c, n)| && Tests(c, n)[i].PetersburgTest?
    ensures i == PETERSBURG
    ensures Tests(c, n)[i] == PetersburgTest(PetersburgBlock, c.petersburg, n.petersburg, c.constantinople)
  {
  }

  /** A conflict never goes away higher up. */
  lemma CompatibleBelow(c: ChainConfig, n: ChainConfig, low: nat, high: nat)
    requires low <= high && AreCompatible(c, n, high)
    ensures AreCompatible(c, n, low)
  {
    forall t | t in Tests(c, n)
      ensures !Fails(t, low)
    {
      assert !Fails(t, high);
    }
  }

  /** A test other than Petersburg's fails at every height above the block it
      rewinds to, and so does Petersburg's if Constantinople or the new block is
      not later than the stored one. */
  lemma FailsAbove(c: ChainConfig, n: ChainConfig, head: nat, h: nat) returns (i: nat)
    requires CheckAt(c, n, head).Some? && h > CheckAt(c, n, head).value.rewindTo
    ensures i < |Tests(c, n)| && forall k :: 0 <= k < i ==> !Fails(Tests(c, n)[k], head)
    ensures Fails(Tests(c, n)[i], head)
    ensures CheckAt(c, n, head).value.rewindTo ==
              NewCompatError(Tests(c, n)[i].what, Tests(c, n)[i].stored, Tests(c, n)[i].wanted).rewindTo
    ensures Fails(Tests(c, n)[i], h) ||
            (i == PETERSBURG && c.petersburg.Some? && IsBefore(c.petersburg, Lesser(c.constantinople, n.petersburg)))
  {
    var ts := Tests(c, n);
    i := FirstFailureAt(ts, head);
    if ts[i].FlagTest? {
      FlagFollowsFork(c, n, i);
      assert !Fails(ts[i - 1], head);
    } else if ts[i].PetersburgTest? {
      PetersburgAt(c, n, i);
    }
  }

  // ----- the lowest conflict -----

  const PETERSBURG := 8

  function Lesser(s: Schedule, t: Schedule): Schedule
  {
    if s.None? then t else if t.None? || s.value < t.value then s else t
  }

  predicate IsBefore(s: Schedule, t: Schedule)
  {
    s.Some? && (t.None? || s.value < t.value)
  }

  /** When compatible blocks are skipped: the stored Petersburg block comes before
      both Constantinople and the new Petersburg block, these two differ, no test
      before Petersburg's fails where the first of them is reached, at or below
      the height, and the stored Petersburg block itself is compatible. */
  ghost predicate Skips(c: ChainConfig, n: ChainConfig, height: nat)
  {
    var s, t := c.petersburg, Lesser(c.constantinople, n.petersburg);
    && s.Some? && t.Some? && c.constantinople != n.petersburg && s.value < t.value <= height
    && (forall k :: 0 <= k < PETERSBURG ==> !Fails(Tests(c, n)[k], t.value))
    && AreCompatible(c, n, if s.value > 0 then s.value else 1)
  }

  /** What the loop of CheckCompatible returns, from a height and the last error. */
  ghost function Rewound(c: ChainConfig, n: ChainConfig, bhead: nat, last: Option<CompatError>): Option<CompatError>
    requires last.Some? ==> bhead == last.value.rewindTo
    decreases bhead, if last.None? then 1 else 0
  {
    var err := CheckAt(c, n, bhead);
    if err.None? || (last.Some? && err.value.rewindTo == last.value.rewindTo) then last
    else
      RewindIsLower(c, n, bhead);
      Rewound(c, n, err.value.rewindTo, err)
  }

  /** Where the loop can be: above the gap or at its lower end if blocks are
      skipped, and otherwise with every height above in conflict. */
  ghost predicate IsRewinding(c: ChainConfig, n: ChainConfig, height: nat, bhead: nat, last: Option<CompatError>)
  {
    && (last.None? ==> bhead == height)
    && (last.Some? ==> bhead == last.value.rewindTo && (bhead < height || bhead == 0) && !AreCompatible(c, n, height))
    && (Skips(c, n, height) ==>
          var s, t := c.petersburg, Lesser(c.constantinople, n.petersburg);
          bhead >= t.value || (last.Some? && bhead == if s.value > 0 then s.value - 1 else 0))
    && (!Skips(c, n, height) && last.Some? ==> forall h :: h > bhead ==> !AreCompatible(c, n, h))
  }

  lemma FailsUpward(t: Test, low: nat, high: nat)
    requires low <= high && Fails(t, low)
    ensures Fails(t, high)
  {
  }

  /** If no block is skipped, all heights above the new block to rewind to conflict. */
  lemma ConflictsAbove(c: ChainConfig, n: ChainConfig, height: nat, bhead: nat, h: nat)
    requires !Skips(c, n, height) && bhead <= height && CheckAt(c, n, bhead).Some?
    requires h > CheckAt(c, n, bhead).value.rewindTo
    ensures !AreCompatible(c, n, h)
  {
    var ts := Tests(c, n);
    var i := FailsAbove(c, n, bhead, h);
    if !Fails(ts[i], h) {
      PetersburgAt(c, n, i);
      var s, t := c.petersburg, Lesser(c.constantinople, n.petersburg);
      forall k | 0 <= k < PETERSBURG
        ensures !Fails(ts[k], t.value)
      {
        if Fails(ts[k], t.value) { FailsUpward(ts[k], t.value, bhead); }
      }
      if AreCompatible(c, n, h) { CompatibleBelow(c, n, if s.value > 0 then s.value else 1, h); }
    }
  }

  /** If blocks are skipped, rewinding stays above the gap until it jumps to its
      lower end. */
  lemma JumpsGap(c: ChainConfig, n: ChainConfig, height: nat, bhead: nat)
    requires Skips(c, n, height) && bhead >= Lesser(c.constantinople, n.petersburg).value
    ensures CheckAt(c, n, bhead).Some?
    ensures var s, r := c.petersburg.value, CheckAt(c, n, bhead).value.rewindTo;
            r >= Lesser(c.constantinople, n.petersburg).value || r == if s > 0 then s - 1 else 0
  {
    var ts, t := Tests(c, n), Lesser(c.constantinople, n.petersburg).value;
    PetersburgAt(c, n, PETERSBURG);
    assert Fails(ts[PETERSBURG], bhead);
    CheckIsCompatible(c, n, bhead);
    if CheckAt(c, n, bhead).value.rewindTo < t {
      var i := FailsAbove(c, n, bhead, t);
      assert i <= PETERSBURG;
      assert i >= PETERSBURG;
      PetersburgRewinds(c, n, i);
    }
  }

  lemma PetersburgRewinds(c: ChainConfig, n: ChainConfig, i: nat)
    requires i == PETERSBURG && c.petersburg.Some? && IsBefore(c.petersburg, Lesser(c.constantinople, n.petersburg))
    ensures var t, s := Tests(c, n)[i], c.petersburg.value;
            NewCompatError(t.what, t.stored, t.wanted).rewindTo == if s > 0 then s - 1 else 0
  {
    PetersburgAt(c, n, i);
  }

  lemma RewindStep(c: ChainConfig, n: ChainConfig, height: nat, bhead: nat, last: Option<CompatError>)
    requires IsRewinding(c, n, height, bhead, last) && CheckAt(c, n, bhead).Some?
    requires last.Some? ==> CheckAt(c, n, bhead).value.rewindTo != last.value.rewindTo
    ensures IsRewinding(c, n, height, CheckAt(c, n, bhead).value.rewindTo, CheckAt(c, n, bhead))
  {
    RewindIsLower(c, n, bhead);
    CheckIsCompatible(c, n, bhead);
    if Skips(c, n, height) {
      var s := c.petersburg.value;
      if bhead >= Lesser(c.constantinople, n.petersburg).value {
        JumpsGap(c, n, height, bhead);
      } else {
        CompatibleBelow(c, n, bhead, if s > 0 then s else 1);
      }
    } else {
      forall h | h > CheckAt(c, n, bhead).value.rewindTo
        ensures !AreCompatible(c, n, h)
      {
        ConflictsAbove(c, n, height, bhead, h);
      }
    }
  }

  /** What the lowest conflict means: none exactly for compatible configurations;
      otherwise the block to rewind to is compatible or 0, and all above it are
      in conflict exactly if no compatible blocks are skipped. */
  ghost predicate IsLowest(c: ChainConfig, n: ChainConfig, height: nat, r: Option<CompatError>)
  {
    && (r.None? <==> AreCompatible(c, n, height))
    && (r.Some? ==>
          var to := r.value.rewindTo;
          && (to == 0 || (to < height && AreCompatible(c, n, to)))
          && ((forall h :: h > to ==> !AreCompatible(c, n, h)) <==> !Skips(c, n, height)))
  }

  lemma RewindEnds(c: ChainConfig, n: ChainConfig, height: nat, bhead: nat, last: Option<CompatError>)
    requires IsRewinding(c, n, height, bhead, last)
    requires var err := CheckAt(c, n, bhead); err.None? || (last.Some? && err.value.rewindTo == last.value.rewindTo)
    ensures IsLowest(c, n, height, last)
  {
    CheckIsCompatible(c, n, bhead);
    if CheckAt(c, n, bhead).Some? { RewindIsLower(c, n, bhead); }
    if Skips(c, n, height) && last.Some? {
      var s := c.petersburg.value;
      if bhead >= Lesser(c.constantinople, n.petersburg).value { JumpsGap(c, n, height, bhead); }
      assert AreCompatible(c, n, if s > 0 then s else 1);
    }
  }

  lemma {:induction false} RewindIsMaximal(c: ChainConfig, n: ChainConfig, height: nat, bhead: nat,
                                           last: Option<CompatError>)
    requires IsRewinding(c, n, height, bhead, last)
    ensures IsLowest(c, n, height, Rewound(c, n, bhead, last))
    decreases bhead, if last.None? then 1 else 0
  {
    var err := CheckAt(c, n, bhead);
    if err.None? || (last.Some? && err.value.rewindTo == last.value.rewindTo) {
      RewindEnds(c, n, height, bhead, last);
    } else {
      RewindIsLower(c, n, bhead);
      RewindStep(c, n, height, bhead, last);
      RewindIsMaximal(c, n, height, err.value.rewindTo, err);
    }
  }

  /** CheckCompatible: the lowest conflict. */
  method CheckCompatible(c: ChainConfig, n: ChainConfig, height: nat) returns (r: Option<CompatError>)
    ensures r == Rewound(c, n, height, None) && IsLowest(c, n, height, r)
    ensures r.Some? && PetersburgFollows(c) ==> forall h :: h > r.value.rewindTo ==> !AreCompatible(c, n, h)
  {
    var bhead := height;
    r := None;
    RewindStarts(c, n, height);
    while true
      invariant r.Some? ==> bhead == r.value.rewindTo
      invariant Rewound(c, n, bhead, r) == Rewound(c, n, height, None)
      decreases bhead, if r.None? then 1 else 0
    {
      var err := CheckAt(c, n, bhead);
      if err.None? || (r.Some? && err.value.rewindTo == r.value.rewindTo) {
        break;
      }
      RewindIsLower(c, n, bhead);
      r := err;
      bhead := err.value.rewindTo;
    }
  }

  lemma RewindStarts(c: ChainConfig, n: ChainConfig, height: nat)
    ensures IsLowest(c, n, height, Rewound(c, n, height, None))
    ensures PetersburgFollows(c) ==> !Skips(c, n, height)
  {
    RewindIsMaximal(c, n, height, height, None);
  }

  /** Configurations that differ in the Petersburg block only. */
  lemma OnlyPetersburg(c: ChainConfig, p: Schedule, head: nat)
    ensures var ts := Tests(c, c.(petersburg := p));
            && ts[PETERSBURG] == PetersburgTest(PetersburgBlock, c.petersburg, p, c.constantinople)
            && forall k :: 0 <= k < |ts| && Fails(ts[k], head) ==> k == PETERSBURG
  {
  }

  /** Without the fork order the loop can skip compatible blocks: it returns 4
      although 5 to 9 are compatible. */
  lemma UnorderedRewind(c: ChainConfig)
    requires c.petersburg == Some(5) && c.constantinople == Some(10)
    ensures var n := c.(petersburg := None);
            && Skips(c, n, 12)
            && Rewound(c, n, 12, None) == Some(NewCompatError(PetersburgBlock, Some(5), None))
            && AreCompatible(c, n, 9)
  {
    var n := c.(petersburg := None);
    UnorderedCheck(c);
    UnorderedGap(c);
    CompatibleBelow(c, n, 4, 9);
    CheckIsCompatible(c, n, 4);
  }

  lemma UnorderedCheck(c: ChainConfig)
    requires c.petersburg == Some(5) && c.constantinople == Some(10)
    ensures CheckAt(c, c.(petersburg := None), 12) == Some(NewCompatError(PetersburgBlock, Some(5), None))
  {
    var n := c.(petersburg := None);
    OnlyPetersburg(c, None, 12);
    var i := FirstFailureAt(Tests(c, n), 12);
    assert Fails(Tests(c, n)[PETERSBURG], 12);
  }

  lemma UnorderedGap(c: ChainConfig)
    requires c.petersburg == Some(5) && c.constantinople == Some(10)
    ensures var n := c.(petersburg := None); AreCompatible(c, n, 9) && Skips(c, n, 12)
  {
    var n := c.(petersburg := None);
    OnlyPetersburg(c, None, 10);
    OnlyPetersburg(c, None, 9);
    assert !Fails(Tests(c, n)[PETERSBURG], 9);
    assert AreCompatible(c, n, 9);
    CompatibleBelow(c, n, 5, 9);
  }

  // ----- fork order -----

  datatype Fork = Fork(block: Schedule, isOptional: bool)

  function Forks(c: ChainConfig): seq<Fork>
  {
    [ Fork(c.homestead, false), Fork(c.daoFork, true), Fork(c.tangerineWhistle, false), Fork(c.spuriousDragon, false),
      Fork(c.byzantium, false), Fork(c.constantinople, false), Fork(c.petersburg, false), Fork(c.istanbul, false),
      Fork(c.muirGlacier, true), Fork(c.berlin, false), Fork(c.london, false), Fork(c.arrowGlacier, true),
      Fork(c.grayGlacier, true), Fork(c.mergeNetsplit, true), Fork(c.shanghai, false), Fork(c.cancun, false) ]
  }

  /** Scheduled forks come in order, and none after a mandatory one left out. */
  ghost predicate AreOrdered(fs: seq<Fork>)
  {
    forall i, j :: 0 <= i < j < |fs| && fs[j].block.Some? ==>
      (fs[i].isOptional || fs[i].block.Some?) && (fs[i].block.Some? ==> fs[i].block.value <= fs[j].block.value)
  }

  /** Forks that may be left out. */
  predicate IsOptional(w: Setting)
  {
    w.DaoForkBlock? || w.MuirGlacierBlock? || w.ArrowGlacierBlock? || w.GrayGlacierBlock? || w.MergeNetsplitBlock?
  }

  /** A fork is scheduled only if the mandatory ones before it are, and none before it
      is scheduled later. */
  predicate AreInOrder(c: ChainConfig, w: Setting, v: Setting)
  {
    var s, t := ScheduleOf(c, w), ScheduleOf(c, v);
    t.Some? ==> (IsOptional(w) || s.Some?) && (s.Some? ==> s.value <= t.value)
  }

  predicate IsFork(w: Setting)
  {
    !w.DaoForkSupport? && !w.ChainId?
  }

  /** The settings of the fork blocks in their order. */
  function ForkSettings(): (ws: seq<Setting>)
    ensures |ws| == 16
  {
    [ HomesteadBlock, DaoForkBlock, TangerineWhistleBlock, SpuriousDragonBlock, ByzantiumBlock, ConstantinopleBlock,
      PetersburgBlock, IstanbulBlock, MuirGlacierBlock, BerlinBlock, LondonBlock, ArrowGlacierBlock, GrayGlacierBlock,
      MergeNetsplitBlock, ShanghaiBlock, CancunBlock ]
  }

  lemma ForkAt(c: ChainConfig, i: nat)
    requires i < 16
    ensures var w := ForkSettings()[i];
            && |Forks(c)| == 16 && Forks(c)[i] == Fork(ScheduleOf(c, w), IsOptional(w)) && IsFork(w)
            && Rank(w) == if i < 2 then i else if i < 4 then i + 1 else i + 2
  {
  }

  lemma PlaceOfFork(w: Setting) returns (i: nat)
    requires IsFork(w)
    ensures i < 16 && ForkSettings()[i] == w
  {
    var r := Rank(w);
    i := if r < 2 then r else if r < 5 then r - 1 else r - 2;
  }

  /** The order of the forks by name. */
  lemma OrderMeans(c: ChainConfig)
    ensures AreOrdered(Forks(c)) <==>
            forall w, v :: IsFork(w) && IsFork(v) && Rank(w) < Rank(v) ==> AreInOrder(c, w, v)
  {
    var fs, ws := Forks(c), ForkSettings();
    if AreOrdered(fs) {
      forall w, v | IsFork(w) && IsFork(v) && Rank(w) < Rank(v)
        ensures AreInOrder(c, w, v)
      {
        var i := PlaceOfFork(w);
        var j := PlaceOfFork(v);
        ForkAt(c, i);
        ForkAt(c, j);
      }
    }
    if forall w, v :: IsFork(w) && IsFork(v) && Rank(w) < Rank(v) ==> AreInOrder(c, w, v) {
      forall i, j | 0 <= i < j < |fs| && fs[j].block.Some?
        ensures fs[i].isOptional || fs[i].block.Some?
        ensures fs[i].block.Some? ==> fs[i].block.value <= fs[j].block.value
      {
        ForkAt(c, i);
        ForkAt(c, j);
        assert AreInOrder(c, ws[i], ws[j]);
      }
    }
  }

  /** The last fork that counts: mandatory, or optional and scheduled. */
  ghost function LastFork(fs: seq<Fork>): Option<Fork>
  {
    if fs == [] then None
    else
      var cur := fs[|fs| - 1];
      if !cur.isOptional || cur.block.Some? then Some(cur) else LastFork(fs[..|fs| - 1])
  }

  lemma {:induction false} LastForkAt(fs: seq<Fork>) returns (m: int)
    ensures -1 <= m < |fs| && forall k :: m < k < |fs| ==> fs[k].isOptional && fs[k].block.None?
    ensures LastFork(fs) == if m < 0 then None else Some(fs[m])
    ensures m >= 0 ==> !fs[m].isOptional || fs[m].block.Some?
  {
    m := |fs| - 1;
    if fs != [] && fs[m].isOptional && fs[m].block.None? {
      m := LastForkAt(fs[..m]);
    }
  }

  /** One more fork keeps the order exactly if it fits the last that counts. */
  lemma NextFork(fs: seq<Fork>, cur: Fork)
    requires AreOrdered(fs)
    ensures var last := LastFork(fs);
            AreOrdered(fs + [cur]) <==>
            (last.Some? && cur.block.Some? ==> last.value.block.Some? && last.value.block.value <= cur.block.value)
  {
    var m := LastForkAt(fs);
    var gs := fs + [cur];
    assert forall i :: 0 <= i < |fs| ==> gs[i] == fs[i];
    assert gs[|fs|] == cur;
    if m >= 0 { assert gs[m] == fs[m]; }
  }

  const EXEMPT_CHAIN := 77

  /** CheckConfigForkOrder. */
  method CheckConfigForkOrder(c: ChainConfig) returns (ok: bool)
    ensures ok <==> c.chainId == Some(77) || AreOrdered(Forks(c))
    ensures ok && c.chainId != Some(77) ==> PetersburgFollows(c)
  {
    if c.chainId == Some(EXEMPT_CHAIN) {
      return true;
    }
    var fs := Forks(c);
    var lastFork: Option<Fork> := None;
    for i := 0 to |fs|
      invariant AreOrdered(fs[..i]) && lastFork == LastFork(fs[..i])
    {
      var cur := fs[i];
      assert fs[..i + 1] == fs[..i] + [cur];
      NextFork(fs[..i], cur);
      if lastFork.Some? {
        if lastFork.value.block.None? && cur.block.Some? {
          OrderOfPrefix(fs, i + 1);
          return false;
        }
        if lastFork.value.block.Some? && cur.block.Some? {
          if lastFork.value.block.value > cur.block.value {
            OrderOfPrefix(fs, i + 1);
            return false;
          }
        }
      }
      if !cur.isOptional || cur.block.Some? {
        lastFork := Some(cur);
      }
    }
    assert fs[..|fs|] == fs;
    assert fs[5].block == c.constantinople && fs[6].block == c.petersburg;
    return true;
  }

  lemma OrderOfPrefix(fs: seq<Fork>, n: nat)
    requires n <= |fs|
    ensures AreOrdered(fs) ==> AreOrdered(fs[..n])
  {
  }
}
