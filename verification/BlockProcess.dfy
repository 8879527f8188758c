/** The transaction loop of internal/state_processor.go: a block is a run of
    applied transactions, and what every run keeps. */
module BlockProcess {
  import opened Common
  import opened Ledger
  import opened Transition
  import opened Processor

  datatype Header = Header(gasLimit: nat, gasUsed: nat, baseFee: Option<nat>)

  datatype Receipt = Receipt(cumulativeGasUsed: nat, gasUsed: nat, failed: bool)

  /** The environment is the one of the header; London headers have a base fee. */
  predicate Describes(env: Env, header: Header)
  {
    && header.gasLimit < TT64
    && (env.isLondon ==> header.baseFee.Some?)
    && env.baseFee == (if header.baseFee.Some? then header.baseFee.value else 0) < TT256
  }

  /** A transaction with fields in range and an access list that fits in memory. */
  predicate IsSendable(tx: Tx, header: Header, env: Env)
  {
    IsTx(tx) && AccessListFits(AsMessage(tx, header.baseFee), env)
  }

  function Sum(xs: seq<nat>): nat
  {
    if xs == [] then 0 else Sum(xs[..|xs| - 1]) + xs[|xs| - 1]
  }

  /** One transaction is accepted with `pool` gas left, and applied. */
  ghost predicate Step(w: World, pool: nat, tx: Tx, header: Header, env: Env, evm: Evm, w': World, used: nat)
  {
    IsSendable(tx, header, env) &&
    var m := AsMessage(tx, header.baseFee);
    && Rejection(w, pool, m, env).None? && Accepts(w, m, env, evm)
    && var a := Apply(w, m, env, evm, IntrinsicCost(m, env));
       w' == a.world && used == a.used
  }

  /** A step relation: world, gas left, transaction, new world, gas used. */
  type StepRelation = (World, nat, Tx, World, nat) -> bool

  ghost function StepOf(header: Header, env: Env, evm: Evm): StepRelation
  {
    (w: World, pool: nat, tx: Tx, w': World, used: nat) => Step(w, pool, tx, header, env, evm, w', used)
  }

  /** A run takes a step for every transaction in order: a shorter run, then one
      step whose pool is what the gas limit leaves after that run. */
  ghost predicate IsRun(step: StepRelation, limit: nat, txs: seq<Tx>, ws: seq<World>, used: seq<nat>)
    decreases |txs|
  {
    && |ws| == |txs| + 1 && |used| == |txs|
    && (txs != [] ==>
          var n := |txs| - 1;
          && IsRun(step, limit, txs[..n], ws[..n + 1], used[..n])
          && Sum(used[..n]) <= limit && step(ws[n], limit - Sum(used[..n]), txs[n], ws[n + 1], used[n]))
  }

  // ----- what a step and a run keep -----

  lemma PriceOfAccepted(w: World, pool: nat, tx: Tx, header: Header, env: Env)
    requires IsSendable(tx, header, env) && Describes(env, header) && Total(w.balances) < TT256
    requires env.isLondon && Rejection(w, pool, AsMessage(tx, header.baseFee), env).None?
    ensures var m := AsMessage(tx, header.baseFee); m.gasPrice == env.baseFee + EffectiveTip(m, env)
  {
    FeesDoNotWrap(w, pool, tx, env);
  }

  /** A step burns its base fee, or nothing, and uses no more gas than the pool
      holds. */
  lemma StepConserves(w: World, pool: nat, tx: Tx, header: Header, env: Env, evm: Evm, w': World, used: nat)
    requires Lawful(evm) && Describes(env, header) && Total(w.balances) < TT256
    requires Step(w, pool, tx, header, env, evm, w', used)
    ensures Total(w'.balances) + Burnt(env, used) == Total(w.balances)
    ensures used <= pool
  {
    var m := AsMessage(tx, header.baseFee);
    AcceptedCanPay(w, pool, m, env);
    if env.isLondon { PriceOfAccepted(w, pool, tx, header, env); }
    ApplyConserves(w, m, env, evm, IntrinsicCost(m, env));
  }

  lemma BurntAdds(env: Env, a: nat, b: nat)
    ensures Burnt(env, a + b) == Burnt(env, a) + Burnt(env, b)
  {
  }

  /** Every step of the relation burns its base fee and stays within the pool. */
  ghost predicate Conserving(step: StepRelation, env: Env)
  {
    forall w, pool: nat, tx, w', used: nat :: step(w, pool, tx, w', used) && Total(w.balances) < TT256 ==>
      Total(w'.balances) + Burnt(env, used) == Total(w.balances) && used <= pool
  }

  lemma StepsConserve(header: Header, env: Env, evm: Evm)
    requires Lawful(evm) && Describes(env, header)
    ensures Conserving(StepOf(header, env, evm), env)
  {
    var step := StepOf(header, env, evm);
    forall w, pool: nat, tx, w', used: nat | step(w, pool, tx, w', used) && Total(w.balances) < TT256
      ensures Total(w'.balances) + Burnt(env, used) == Total(w.balances) && used <= pool
    {
      StepConserves(w, pool, tx, header, env, evm, w', used);
    }
  }

  lemma {:induction false} ConservedByRun(step: StepRelation, env: Env, limit: nat, txs: seq<Tx>,
                                          ws: seq<World>, used: seq<nat>)
    requires Conserving(step, env) && IsRun(step, limit, txs, ws, used) && Total(ws[0].balances) < TT256
    ensures Sum(used) <= limit
    ensures Total(ws[|txs|].balances) + Burnt(env, Sum(used)) == Total(ws[0].balances)
    decreases |txs|
  {
    if txs == [] {
    } else {
      var n := |txs| - 1;
      ConservedByRun(step, env, limit, txs[..n], ws[..n + 1], used[..n]);
      BurntAdds(env, Sum(used[..n]), used[n]);
    }
  }

  /** Over any run the sum of all balances falls by the base fee of the gas used
      under London without a collector, and stays the same otherwise; the gas
      used stays within the gas limit. A run's beginnings are runs too. */
  lemma RunConserves(header: Header, env: Env, evm: Evm, txs: seq<Tx>, ws: seq<World>, used: seq<nat>)
    requires Lawful(evm) && Describes(env, header)
    requires IsRun(StepOf(header, env, evm), header.gasLimit, txs, ws, used) && Total(ws[0].balances) < TT256
    ensures Sum(used) <= header.gasLimit
    ensures env.isLondon && env.collector.None? ==>
              Total(ws[|txs|].balances) + Sum(used) * env.baseFee == Total(ws[0].balances)
    ensures !env.isLondon || env.collector.Some? ==> Total(ws[|txs|].balances) == Total(ws[0].balances)
  {
    StepsConserve(header, env, evm);
    ConservedByRun(StepOf(header, env, evm), env, header.gasLimit, txs, ws, used);
  }

  // ----- the loop -----

  ghost predicate Refuses(w: World, pool: nat, tx: Tx, header: Header, env: Env, err: Error)
  {
    IsSendable(tx, header, env) && Rejection(w, pool, AsMessage(tx, header.baseFee), env) == Some(err)
  }

  /** Why a block is refused: some transaction is, or the header's gas is wrong. */
  ghost predicate IsRefusal(txs: seq<Tx>, header: Header, env: Env, evm: Evm, ws: seq<World>, used: seq<nat>,
                            err: Error)
  {
    var n := |used|;
    && n <= |txs| && IsRun(StepOf(header, env, evm), header.gasLimit, txs[..n], ws, used)
    && Sum(used) <= header.gasLimit
    && if n < |txs|
       then Refuses(ws[n], header.gasLimit - Sum(used), txs[n], header, env, err)
       else err == GasUsedMismatch && Sum(used) != header.gasUsed
  }

  lemma ExtendRun(step: StepRelation, limit: nat, txs: seq<Tx>, ws: seq<World>, used: seq<nat>, w: World, gas: nat)
    requires |used| < |txs| && IsRun(step, limit, txs[..|used|], ws, used) && Sum(used) <= limit
    requires step(ws[|used|], limit - Sum(used), txs[|used|], w, gas)
    ensures IsRun(step, limit, txs[..|used| + 1], ws + [w], used + [gas])
    ensures Sum(used + [gas]) == Sum(used) + gas
  {
    var n := |used|;
    assert (used + [gas])[..n] == used && (ws + [w])[..n + 1] == ws && txs[..n + 1][..n] == txs[..n];
  }

  /** Receipts carry each transaction's gas and the running total. */
  ghost predicate AreReceipts(receipts: seq<Receipt>, used: seq<nat>)
  {
    && |receipts| == |used|
    && forall i :: 0 <= i < |used| ==>
         receipts[i].gasUsed == used[i] && receipts[i].cumulativeGasUsed == Sum(used[..i + 1])
  }

  /** The EVM's run of an accepted transaction fails. */
  ghost predicate Fails(w: World, tx: Tx, header: Header, env: Env, evm: Evm)
  {
    IsSendable(tx, header, env) &&
    var m := AsMessage(tx, header.baseFee);
    Accepts(w, m, env, evm) && evm(BoughtWorld(w, m), m, m.gasLimit - IntrinsicCost(m, env)).failed
  }

  ghost function FailureOf(header: Header, env: Env, evm: Evm): (World, Tx) -> bool
  {
    (w: World, tx: Tx) => Fails(w, tx, header, env, evm)
  }

  /** Receipts tell which transactions failed. */
  ghost predicate AreMarked(fails: (World, Tx) -> bool, txs: seq<Tx>, ws: seq<World>, receipts: seq<Receipt>)
  {
    && |receipts| <= |txs| && |receipts| <= |ws|
    && forall i :: 0 <= i < |receipts| ==> receipts[i].failed == fails(ws[i], txs[i])
  }

  /** What TransitionDb leaves is a step that conserves, marked with its failure. */
  lemma AppliedStep(w: World, pool: nat, tx: Tx, header: Header, env: Env, evm: Evm, a: Applied)
    requires Lawful(evm) && Describes(env, header) && IsSendable(tx, header, env) && Total(w.balances) < TT256
    ensures var m := AsMessage(tx, header.baseFee);
            && Rejection(w, pool, m, env).None? && Accepts(w, m, env, evm)
            && a == Apply(w, m, env, evm, IntrinsicCost(m, env)) ==>
              && StepOf(header, env, evm)(w, pool, tx, a.world, a.used)
              && a.failed == FailureOf(header, env, evm)(w, tx)
              && Total(a.world.balances) < TT256 && a.used <= pool
  {
    var m := AsMessage(tx, header.baseFee);
    if && Rejection(w, pool, m, env).None? && Accepts(w, m, env, evm)
       && a == Apply(w, m, env, evm, IntrinsicCost(m, env)) {
      StepConserves(w, pool, tx, header, env, evm, a.world, a.used);
    }
  }

  /** applyTransaction. */
  method ApplyTransaction(gp: GasPool, state: State, header: Header, env: Env, evm: Evm, tx: Tx, usedGas: nat,
                          ghost step: StepRelation, ghost fails: (World, Tx) -> bool)
    returns (receipt: Receipt, total: nat, err: Option<Error>)
    requires Lawful(evm) && Describes(env, header) && IsSendable(tx, header, env)
    requires Total(state.world.balances) < TT256 && gp.gas + usedGas < TT64
    requires step == StepOf(header, env, evm) && fails == FailureOf(header, env, evm)
    modifies gp, state
    ensures err.Some? ==> Refuses(old(state.world), old(gp.gas), tx, header, env, err.value)
    ensures err.None? ==>
              && step(old(state.world), old(gp.gas), tx, state.world, receipt.gasUsed)
              && receipt.failed == fails(old(state.world), tx)
              && Total(state.world.balances) < TT256
              && receipt.gasUsed <= old(gp.gas) && gp.gas == old(gp.gas) - receipt.gasUsed
              && total == receipt.cumulativeGasUsed == usedGas + receipt.gasUsed
  {
    ghost var w, pool := state.world, gp.gas;
    var msg := AsMessage(tx, header.baseFee);
    if env.isLondon && Rejection(state.world, gp.gas, msg, env).None? {
      PriceOfAccepted(state.world, gp.gas, tx, header, env);
    }
    var st := new StateTransition(gp, state, msg, env, evm);
    var result;
    result, err := st.TransitionDb();
    if err.Some? {
      return Receipt(0, 0, true), usedGas, err;
    }
    AppliedStep(w, pool, tx, header, env, evm, Applied(state.world, result.value.usedGas, result.value.failed));
    total := Low64(usedGas + result.value.usedGas);
    receipt := Receipt(total, result.value.usedGas, result.value.failed);
  }

  /** What the loop has after some transactions: a run, its receipts with prefix
      sums, and the gas used. */
  ghost predicate Ran(step: StepRelation, limit: nat, txs: seq<Tx>, ws: seq<World>, used: seq<nat>,
                      receipts: seq<Receipt>, usedGas: nat)
  {
    IsRun(step, limit, txs, ws, used) && AreReceipts(receipts, used) && usedGas == Sum(used) <= limit
  }

  /** The loop's state between transactions. */
  ghost predicate IsAt(step: StepRelation, fails: (World, Tx) -> bool, limit: nat, txs: seq<Tx>, i: nat, start: World,
                       w: World, ws: seq<World>, used: seq<nat>, receipts: seq<Receipt>, usedGas: nat)
  {
    && i <= |txs| && Ran(step, limit, txs[..i], ws, used, receipts, usedGas)
    && ws[0] == start && ws[i] == w && Total(w.balances) < TT256 && AreMarked(fails, txs, ws, receipts)
  }

  lemma Begins(step: StepRelation, fails: (World, Tx) -> bool, limit: nat, txs: seq<Tx>, w: World)
    requires Total(w.balances) < TT256
    ensures IsAt(step, fails, limit, txs, 0, w, w, [w], [], [], 0)
  {
  }

  /** One transaction more. */
  lemma GoesOn(step: StepRelation, fails: (World, Tx) -> bool, limit: nat, txs: seq<Tx>, i: nat, start: World, w: World,
               ws: seq<World>, used: seq<nat>, receipts: seq<Receipt>, usedGas: nat, pool: nat, w': World,
               receipt: Receipt)
    ensures && IsAt(step, fails, limit, txs, i, start, w, ws, used, receipts, usedGas) && i < |txs|
            && receipt.gasUsed <= pool == limit - usedGas && receipt.cumulativeGasUsed == usedGas + receipt.gasUsed
            && receipt.failed == fails(w, txs[i]) && Total(w'.balances) < TT256
            && step(w, pool, txs[i], w', receipt.gasUsed) ==>
              IsAt(step, fails, limit, txs, i + 1, start, w', ws + [w'], used + [receipt.gasUsed], receipts + [receipt],
                   receipt.cumulativeGasUsed)
  {
    if && IsAt(step, fails, limit, txs, i, start, w, ws, used, receipts, usedGas) && i < |txs|
       && receipt.gasUsed <= pool == limit - usedGas && receipt.cumulativeGasUsed == usedGas + receipt.gasUsed
       && receipt.failed == fails(w, txs[i]) && Total(w'.balances) < TT256
       && step(w, pool, txs[i], w', receipt.gasUsed) {
      ExtendRun(step, limit, txs, ws, used, w', receipt.gasUsed);
      NextReceipt(receipts, used, receipt);
      NextMark(fails, txs, ws, receipts, w', receipt);
    }
  }

  lemma NextMark(fails: (World, Tx) -> bool, txs: seq<Tx>, ws: seq<World>, receipts: seq<Receipt>, w': World,
                 receipt: Receipt)
    requires AreMarked(fails, txs, ws, receipts) && |receipts| < |txs| && |receipts| < |ws|
    requires receipt.failed == fails(ws[|receipts|], txs[|receipts|])
    ensures AreMarked(fails, txs, ws + [w'], receipts + [receipt])
  {
  }

  /** The end, with no error or the one for the header's gas. */
  lemma Ends(step: StepRelation, fails: (World, Tx) -> bool, txs: seq<Tx>, header: Header, env: Env, evm: Evm,
             start: World, w: World, ws: seq<World>, used: seq<nat>, receipts: seq<Receipt>, usedGas: nat)
    requires IsAt(step, fails, header.gasLimit, txs, |txs|, start, w, ws, used, receipts, usedGas)
    requires step == StepOf(header, env, evm)
    ensures Ran(step, header.gasLimit, txs, ws, used, receipts, usedGas)
    ensures ws != [] && ws[0] == start && |ws| > |txs| && ws[|txs|] == w && AreMarked(fails, txs, ws, receipts)
    ensures usedGas != header.gasUsed ==> IsRefusal(txs, header, env, evm, ws, used, GasUsedMismatch)
  {
    assert txs[..|txs|] == txs;
  }

  /** A transaction is refused. */
  lemma Refused(step: StepRelation, fails: (World, Tx) -> bool, txs: seq<Tx>, i: nat, header: Header, env: Env,
                evm: Evm, start: World, w: World, ws: seq<World>, used: seq<nat>, receipts: seq<Receipt>,
                usedGas: nat, pool: nat, err: Error)
    requires step == StepOf(header, env, evm)
    ensures && IsAt(step, fails, header.gasLimit, txs, i, start, w, ws, used, receipts, usedGas)
            && i < |txs| && pool == header.gasLimit - usedGas && Refuses(w, pool, txs[i], header, env, err) ==>
              ws != [] && ws[0] == start && IsRefusal(txs, header, env, evm, ws, used, err)
  {
    if && IsAt(step, fails, header.gasLimit, txs, i, start, w, ws, used, receipts, usedGas)
       && i < |txs| && pool == header.gasLimit - usedGas && Refuses(w, pool, txs[i], header, env, err) {
      assert |used| == i && Sum(used) == usedGas;
      assert Refuses(ws[|used|], header.gasLimit - Sum(used), txs[|used|], header, env, err);
    }
  }

  /** The loop of Process: a block that is not refused is a run, its receipts
      carry prefix sums, and pool and gas used add up to the gas limit. */
  method Process(txs: seq<Tx>, header: Header, env: Env, evm: Evm, state: State)
    returns (receipts: seq<Receipt>, usedGas: nat, err: Option<Error>, gp: GasPool, ghost ws: seq<World>,
             ghost used: seq<nat>)
    requires Lawful(evm) && Describes(env, header) && Total(state.world.balances) < TT256
    requires forall i :: 0 <= i < |txs| ==> IsSendable(txs[i], header, env)
    modifies state
    ensures ws != [] && ws[0] == old(state.world)
    ensures err.Some? ==> IsRefusal(txs, header, env, evm, ws, used, err.value)
    ensures err.None? ==>
              && Ran(StepOf(header, env, evm), header.gasLimit, txs, ws, used, receipts, usedGas)
              && ws[|txs|] == state.world && AreMarked(FailureOf(header, env, evm), txs, ws, receipts)
              && usedGas == header.gasUsed && gp.gas + usedGas == header.gasLimit
  {
    usedGas, receipts, err := 0, [], None;
    gp := new GasPool();
    gp.AddGas(header.gasLimit);
    ws, used := [state.world], [];
    ghost var step, fails, start := StepOf(header, env, evm), FailureOf(header, env, evm), state.world;
    Begins(step, fails, header.gasLimit, txs, start);
    for i := 0 to |txs|
      invariant IsAt(step, fails, header.gasLimit, txs, i, start, state.world, ws, used, receipts, usedGas)
      invariant gp.gas + usedGas == header.gasLimit
      invariant err.None? && fresh(gp)
    {
      var receipt, total;
      ghost var w, pool := state.world, gp.gas;
      receipt, total, err := ApplyTransaction(gp, state, header, env, evm, txs[i], usedGas, step, fails);
      if err.Some? {
        Refused(step, fails, txs, i, header, env, evm, start, w, ws, used, receipts, usedGas, pool, err.value);
        return;
      }
      GoesOn(step, fails, header.gasLimit, txs, i, start, w, ws, used, receipts, usedGas, pool, state.world, receipt);
      usedGas, receipts := total, receipts + [receipt];
      ws, used := ws + [state.world], used + [receipt.gasUsed];
    }
    Ends(step, fails, txs, header, env, evm, start, state.world, ws, used, receipts, usedGas);
    if usedGas != header.gasUsed {
      err := Some(GasUsedMismatch);
    }
  }

  lemma NextReceipt(receipts: seq<Receipt>, used: seq<nat>, receipt: Receipt)
    requires AreReceipts(receipts, used) && receipt.cumulativeGasUsed == Sum(used) + receipt.gasUsed
    ensures AreReceipts(receipts + [receipt], used + [receipt.gasUsed])
  {
    var used' := used + [receipt.gasUsed];
    forall i | 0 <= i < |used'|
      ensures (receipts + [receipt])[i].cumulativeGasUsed == Sum(used'[..i + 1])
    {
      if i < |used| {
        assert used'[..i + 1] == used[..i + 1];
      } else {
        assert used'[..i + 1] == used' && used'[..|used'| - 1] == used;
      }
    }
  }
}
