/** internal/state_transition.go, internal/state_processor.go and
    common/gaspool.go with their machine arithmetic: 64-bit gas, 256-bit money,
    balances and pool updated in place. */
module Processor {
  import opened Common
  import opened Ledger
  import opened Transition

  const MAX_UINT64 := TT64 - 1

  /** The gas left in a block. */
  class GasPool {
    var gas: nat

    constructor ()
      ensures gas == 0
    {
      gas := 0;
    }

    /** Panics above the 64-bit range, so callers must stay within it. */
    method AddGas(amount: nat)
      requires gas + amount <= MAX_UINT64
      modifies this
      ensures gas == old(gas) + amount
    {
      gas := gas + amount;
    }

    method SubGas(amount: nat) returns (err: Option<Error>)
      modifies this
      ensures err == if old(gas) < amount then Some(GasLimitReached) else None
      ensures gas == if err.None? then old(gas) - amount else old(gas)
    {
      if gas < amount {
        return Some(GasLimitReached);
      }
      gas := gas - amount;
      return None;
    }
  }

  /** The intra-block state: additions and subtractions are modulo 2^256. */
  class State {
    var world: World
    var refund: nat

    constructor (w: World)
      ensures world == w && refund == 0
    {
      world, refund := w, 0;
    }

    function GetBalance(a: Address): nat
      reads this
    {
      BalanceOf(world.balances, a)
    }

    /** Modulo 2^256, so exact when the sum of all money stays within 256 bits. */
    method AddBalance(a: Address, amount: nat)
      modifies this`world
      ensures world == old(world).(balances :=
                if amount == 0 then old(world.balances)
                else old(world.balances)[a := (old(GetBalance(a)) + amount) % TT256])
      ensures Total(old(world.balances)) + amount < TT256 ==>
                world == old(world).(balances := Credit(old(world.balances), a, amount))
    {
      BalanceAtMostTotal(world.balances, a);
      if amount == 0 {
        return;
      }
      world := world.(balances := world.balances[a := (GetBalance(a) + amount) % TT256]);
    }

    /** Modulo 2^256, so exact when the account holds the amount and otherwise
        2^256 too much. */
    method SubBalance(a: Address, amount: nat)
      requires GetBalance(a) < TT256 && amount < TT256
      modifies this`world
      ensures amount > old(GetBalance(a)) ==>
                world == old(world).(balances := old(world.balances)[a := TT256 + old(GetBalance(a)) - amount])
      ensures amount <= old(GetBalance(a)) ==>
                world == old(world).(balances := Debit(old(world.balances), a, amount))
    {
      if amount == 0 {
        return;
      }
      world := world.(balances := world.balances[a := (GetBalance(a) - amount) % TT256]);
    }

    method SetNonce(a: Address, nonce: nat)
      modifies this`world
      ensures world == old(world).(nonces := old(world).nonces[a := nonce])
    {
      world := world.(nonces := world.nonces[a := nonce]);
    }
  }

  /** The low 256 bits of an exact result, and whether there were more:
      MulOverflow and AddOverflow. */
  function Overflowing(exact: nat): (nat, bool)
  {
    (exact % TT256, exact >= TT256)
  }

  // ----- intrinsic gas -----

  /** toWordSize. */
  function ToWordSize(size: nat): (words: nat)
    requires size <= MAX_UINT64
    ensures words == (size + 31) / 32
  {
    if size > MAX_UINT64 - 31 then MAX_UINT64 / 32 + 1 else (size + 31) / 32
  }

  lemma GuardIsOverflow(gas: nat, price: nat, count: nat)
    requires gas <= MAX_UINT64 && price > 0
    ensures (MAX_UINT64 - gas) / price < count <==> gas + count * price > MAX_UINT64
  {
    var q, r := (MAX_UINT64 - gas) / price, (MAX_UINT64 - gas) % price;
    assert MAX_UINT64 - gas == q * price + r;
    if q < count { MulMono(price, q + 1, count); } else { MulMono(price, count, q); }
  }

  /** The guarded addition: None when it would exceed 64 bits. */
  function AddGuarded(gas: nat, count: nat, price: nat): (r: Option<nat>)
    requires gas <= MAX_UINT64 && price > 0
    ensures r == if gas + count * price > MAX_UINT64 then None else Some(gas + count * price)
  {
    GuardIsOverflow(gas, price, count);
    if (MAX_UINT64 - gas) / price < count then None else Some(gas + count * price)
  }

  /** IntrinsicGas: an overflow of the guarded terms is an error, the access
      list terms are added modulo 2^64. */
  method IntrinsicGas(m: Message, env: Env) returns (r: Option<nat>)
    requires |m.data| < TT64
    ensures r == if GuardedGas(m, env) >= TT64 then None else Some(IntrinsicCost(m, env) % TT64)
    ensures AccessListFits(m, env) ==> r == Some(IntrinsicCost(m, env))
  {
    var guarded := GuardedTerms(m, env);
    if guarded.None? {
      return None;
    }
    var gas := guarded.value;
    if m.access.AccessList? {
      AccessWraps(gas, m.access.addresses * TX_ACCESS_LIST_ADDRESS_GAS, m.access.keys * TX_ACCESS_LIST_STORAGE_KEY_GAS);
      gas := (gas + m.access.addresses * TX_ACCESS_LIST_ADDRESS_GAS % TT64) % TT64;
      gas := (gas + m.access.keys * TX_ACCESS_LIST_STORAGE_KEY_GAS % TT64) % TT64;
    }
    return Some(gas);
  }

  lemma AccessWraps(g: nat, a: nat, b: nat)
    ensures ((g + a % TT64) % TT64 + b % TT64) % TT64 == (g + (a + b)) % TT64
  {
  }

  /** The part of IntrinsicGas before the access list. */
  method GuardedTerms(m: Message, env: Env) returns (r: Option<nat>)
    requires |m.data| < TT64
    ensures r == if GuardedGas(m, env) >= TT64 then None else Some(GuardedGas(m, env))
  {
    var gas := Some(BaseGas(m, env));
    var dataLen := |m.data|;
    if dataLen > 0 {
      var nz := CountNonZero(m.data);
      gas := AddGuarded(gas.value, nz, NonZeroGas(env));
      if gas.None? {
        return None;
      }
      gas := AddGuarded(gas.value, dataLen - nz, TX_DATA_ZERO_GAS);
      if gas.None? {
        return None;
      }
      if m.to.None? && env.isShanghai {
        gas := AddGuarded(gas.value, ToWordSize(dataLen), INIT_CODE_WORD_GAS);
      }
    }
    return gas;
  }

  method CountNonZero(data: seq<int>) returns (nz: nat)
    ensures nz == NonZeroBytes(data)
  {
    nz := 0;
    for i := 0 to |data|
      invariant nz == NonZeroBytes(data[..i])
    {
      assert data[..i + 1][..i] == data[..i];
      if data[i] != 0 {
        nz := nz + 1;
      }
    }
    assert data[..|data|] == data;
  }

  // ----- one transition -----

  datatype ExecutionResult = ExecutionResult(usedGas: nat, failed: bool)

  /** What a caller of the transition vouches for: fields in their ranges, a
      price within the cap, and no more money in the world than 256 bits hold. */
  ghost predicate IsSound(w: World, m: Message, env: Env, evm: Evm)
  {
    && IsMessage(m) && m.gasPrice <= m.feeCap && env.baseFee < TT256 && AccessListFits(m, env)
    && Lawful(evm) && Total(w.balances) < TT256
  }

  /** The overflow checks of buyGas, on the exact products of gas with price
      and with cap. They refuse exactly a balance below the second plus the
      value, and yield the first. */
  function FundsCheck(have: nat, cost: nat, maxCost: nat, value: nat): (mgval: Option<nat>)
    requires cost <= maxCost && value < TT256 && have < TT256
    ensures mgval == if have < maxCost + value then None else Some(cost)
  {
    var (mgval, overflow) := Overflowing(cost);
    if overflow then None
    else
      var (capped, capOverflow) := Overflowing(maxCost);
      if capOverflow then None
      else
        var (want, sumOverflow) := Overflowing(capped + value);
        if sumOverflow || have < want then None else Some(mgval)
  }

  class StateTransition {
    const gp: GasPool
    const state: State
    const msg: Message
    const env: Env
    const evm: Evm
    var gas: nat
    var initialGas: nat

    constructor (gp: GasPool, state: State, msg: Message, env: Env, evm: Evm)
      ensures this.gp == gp && this.state == state && this.msg == msg && this.env == env && this.evm == evm
      ensures gas == 0 && initialGas == 0
    {
      this.gp, this.state, this.msg, this.env, this.evm := gp, state, msg, env, evm;
      gas, initialGas := 0, 0;
    }

    /** The 256-bit checks refuse exactly a balance below gas times cap plus
        value, and what is bought is paid in full. */
    method BuyGas() returns (err: Option<Error>)
      requires IsSound(state.world, msg, env, evm) && gas == 0
      modifies this, gp, state`world
      ensures err == if BalanceOf(old(state.world).balances, msg.from) < msg.gasLimit * msg.feeCap + msg.value
                     then Some(InsufficientFunds)
                     else if old(gp.gas) < msg.gasLimit then Some(GasLimitReached) else None
      ensures err.Some? ==> state.world == old(state.world) && gp.gas == old(gp.gas)
      ensures err.None? ==>
                && msg.gasLimit * msg.gasPrice <= BalanceOf(old(state.world).balances, msg.from)
                && state.world == old(state.world).(balances :=
                     Debit(old(state.world).balances, msg.from, msg.gasLimit * msg.gasPrice))
                && gp.gas == old(gp.gas) - msg.gasLimit
                && gas == initialGas == msg.gasLimit
    {
      BalanceAtMostTotal(state.world.balances, msg.from);
      MulMono(msg.gasLimit, msg.gasPrice, msg.feeCap);
      var mgval := FundsCheck(state.GetBalance(msg.from), msg.gasLimit * msg.gasPrice, msg.gasLimit * msg.feeCap,
                              msg.value);
      if mgval.None? {
        return Some(InsufficientFunds);
      }
      err := gp.SubGas(msg.gasLimit);
      if err.Some? {
        return;
      }
      gas := (gas + msg.gasLimit) % TT64;
      initialGas := msg.gasLimit;
      state.SubBalance(msg.from, mgval.value);
    }

    /** The checks before the gas is bought, then the purchase. */
    method PreCheck() returns (err: Option<Error>)
      requires IsSound(state.world, msg, env, evm) && gas == 0
      modifies this, gp, state`world
      ensures err == EarlyRejection(old(state.world), old(gp.gas), msg, env)
      ensures err.Some? ==> state.world == old(state.world) && gp.gas == old(gp.gas)
      ensures err.None? ==>
                && msg.gasLimit * msg.gasPrice <= BalanceOf(old(state.world).balances, msg.from)
                && state.world == old(state.world).(balances :=
                     Debit(old(state.world).balances, msg.from, msg.gasLimit * msg.gasPrice))
                && gp.gas == old(gp.gas) - msg.gasLimit
                && gas == initialGas == msg.gasLimit
    {
      if msg.checkNonce {
        var stNonce := NonceOf(state.world, msg.from);
        if stNonce < msg.nonce {
          return Some(NonceTooHigh);
        } else if stNonce > msg.nonce {
          return Some(NonceTooLow);
        } else if (stNonce + 1) % TT64 < stNonce {
          return Some(NonceMax);
        }
        if msg.from in state.world.code {
          return Some(SenderNoEOA);
        }
      }
      if env.isLondon {
        err := CheckEip1559TxGasFeeCap(msg.feeCap, msg.tip, env.baseFee, msg.isFree);
        if err.Some? {
          return;
        }
      }
      err := BuyGas();
    }

    /** gasUsed: the 64-bit difference. */
    function GasUsedSoFar(): nat
      reads this
    {
      Low64(initialGas - gas)
    }

    /** refundGas: the capped refund, the money back, the gas back to the pool. */
    method RefundGas(quotient: nat)
      requires quotient > 0 && gas <= initialGas < TT64 && msg.gasPrice < TT256
      requires gp.gas + initialGas < TT64
      requires Total(state.world.balances) + initialGas * msg.gasPrice < TT256
      modifies this`gas, gp, state`world
      ensures gas == old(gas) + CappedRefund(initialGas - old(gas), quotient, state.refund)
      ensures old(gas) <= gas <= initialGas
      ensures state.world ==
              old(state.world).(balances := Credit(old(state.world).balances, msg.from, gas * msg.gasPrice))
      ensures gp.gas == old(gp.gas) + gas
    {
      var refund := CappedRefund(GasUsedSoFar(), quotient, state.refund);
      gas := Low64(gas + refund);
      ScaleMono(gas, initialGas, msg.gasPrice);
      var remaining := Low256(gas * msg.gasPrice);
      assert remaining == gas * msg.gasPrice && Total(state.world.balances) + remaining < TT256;
      state.AddBalance(msg.from, remaining);
      gp.AddGas(gas);
    }

    /** The fees after the refund: the tip to the coinbase, the base fee to the
        collector when there is one. */
    method PayFees(ghost used: nat)
      requires gas <= initialGas == msg.gasLimit < TT64 && used == initialGas - gas && !msg.isFree
      requires env.isLondon ==> msg.gasPrice == env.baseFee + EffectiveTip(msg, env)
      requires Total(state.world.balances) + used * msg.gasPrice < TT256
      modifies state`world
      ensures state.world == old(state.world).(balances := PaidFees(old(state.world).balances, msg, env, used))
    {
      ghost var b := state.world.balances;
      FeesBounded(msg, env, used);
      var effectiveTip := msg.gasPrice;
      if env.isLondon {
        if msg.feeCap > env.baseFee {
          effectiveTip := Min(msg.tip, msg.feeCap - env.baseFee);
        } else {
          effectiveTip := 0;
        }
      }
      var amount := Low256(GasUsedSoFar() * effectiveTip);
      assert amount == used * EffectiveTip(msg, env);
      state.AddBalance(env.coinbase, amount);
      CreditTotal(b, env.coinbase, amount);
      if !msg.isFree && env.isLondon && env.collector.Some? {
        var burnAmount := Low256(GasUsedSoFar() * env.baseFee);
        state.AddBalance(env.collector.value, burnAmount);
      }
    }

    /** Refund and fees after the EVM has run. */
    method Settle(ghost o: Outcome) returns (used: nat)
      requires msg.gasPrice < TT256 && msg.gasLimit < TT64 && !msg.isFree
      requires env.isLondon ==> msg.gasPrice == env.baseFee + EffectiveTip(msg, env)
      requires initialGas == msg.gasLimit && gas == o.gasLeft <= msg.gasLimit && gp.gas + msg.gasLimit < TT64
      requires state.world == o.world && state.refund == o.refund
      requires Total(o.world.balances) + msg.gasLimit * msg.gasPrice < TT256
      modifies this`gas, gp, state`world
      ensures used == GasUsed(msg, env, o)
      ensures state.world == o.world.(balances := SettledBalances(o.world.balances, msg, env, used))
      ensures gp.gas == old(gp.gas) + msg.gasLimit - used
    {
      RefundGas(RefundQuotient(env));
      used := GasUsedSoFar();
      assert used == GasUsed(msg, env, o) && gas == msg.gasLimit - used;
      RefundedTotal(o.world.balances, msg, used, gas);
      SettledIs(o.world.balances, msg, env, used, state.world.balances);
      PayFees(used);
    }

    /** The transition once the gas is bought and the intrinsic gas taken off. */
    method Execute(ghost w: World, ghost intrinsic: nat) returns (r: ExecutionResult)
      requires IsMessage(msg) && Lawful(evm) && Total(w.balances) < TT256 && !msg.isFree
      requires env.isLondon ==> msg.gasPrice == env.baseFee + EffectiveTip(msg, env)
      requires msg.gasLimit * msg.gasPrice <= BalanceOf(w.balances, msg.from) && intrinsic <= msg.gasLimit
      requires gp.gas + msg.gasLimit < TT64 && initialGas == msg.gasLimit && gas == msg.gasLimit - intrinsic
      requires state.world == w.(balances := Debit(w.balances, msg.from, msg.gasLimit * msg.gasPrice))
      modifies this, gp, state
      ensures Run(w, msg, evm, intrinsic).gasLeft <= msg.gasLimit
      ensures var a := Apply(w, msg, env, evm, intrinsic);
              && state.world == a.world && r == ExecutionResult(a.used, a.failed)
              && gp.gas == old(gp.gas) + msg.gasLimit - a.used
    {
      BoughtTotal(w, msg);
      if msg.to.Some? {
        state.SetNonce(msg.from, (NonceOf(state.world, msg.from) + 1) % TT64);
      }
      assert state.world == BoughtWorld(w, msg);
      var o := evm(state.world, msg, gas);
      state.world, state.refund, gas := o.world, o.refund, o.gasLeft;
      var used := Settle(o);
      return ExecutionResult(used, o.failed);
    }

    /** TransitionDb refuses exactly what Rejection refuses, and otherwise
        computes Apply, with no wrap-around anywhere. An early refusal leaves
        everything as it was; a late one leaves the gas bought, with nothing given
        for it. */
    method TransitionDb() returns (r: Option<ExecutionResult>, err: Option<Error>)
      requires IsSound(state.world, msg, env, evm) && gas == 0 && gp.gas < TT64 && !msg.isFree
      requires env.isLondon && Rejection(state.world, gp.gas, msg, env).None? ==>
                 msg.gasPrice == env.baseFee + EffectiveTip(msg, env)
      modifies this, gp, state
      ensures err == Rejection(old(state.world), old(gp.gas), msg, env)
      ensures EarlyRejection(old(state.world), old(gp.gas), msg, env).Some? ==>
                state.world == old(state.world) && gp.gas == old(gp.gas)
      ensures EarlyRejection(old(state.world), old(gp.gas), msg, env).None? && err.Some? ==>
                && msg.gasLimit * msg.gasPrice <= BalanceOf(old(state.world).balances, msg.from)
                && state.world == old(state.world).(balances :=
                     Debit(old(state.world).balances, msg.from, msg.gasLimit * msg.gasPrice))
                && gp.gas == old(gp.gas) - msg.gasLimit
      ensures (r.None? <==> err.Some?) && (err.None? ==> Accepts(old(state.world), msg, env, evm))
      ensures err.None? ==>
                var a := Apply(old(state.world), msg, env, evm, IntrinsicCost(msg, env));
                && state.world == a.world && r == Some(ExecutionResult(a.used, a.failed))
                && gp.gas == old(gp.gas) - a.used
    {
      ghost var w := state.world;
      err := PreCheck();
      if err.Some? {
        return None, err;
      }
      var intrinsic := IntrinsicGas(msg, env);
      if intrinsic.None? {
        return None, Some(GasUintOverflow);
      }
      if gas < intrinsic.value {
        return None, Some(IntrinsicGasTooLow);
      }
      gas := gas - intrinsic.value;
      var result := Execute(w, intrinsic.value);
      return Some(result), None;
    }
  }

  /** Apply's conditions, with the message's own intrinsic cost. */
  ghost predicate Accepts(w: World, m: Message, env: Env, evm: Evm)
  {
    && m.gasLimit * m.gasPrice <= BalanceOf(w.balances, m.from) && IntrinsicCost(m, env) <= m.gasLimit
    && Run(w, m, evm, IntrinsicCost(m, env)).gasLeft <= m.gasLimit
  }

  lemma SettledIs(b: Balances, m: Message, env: Env, used: nat, refunded: Balances)
    requires used <= m.gasLimit && refunded == Credit(b, m.from, (m.gasLimit - used) * m.gasPrice)
    ensures PaidFees(refunded, m, env, used) == SettledBalances(b, m, env, used)
  {
  }

  lemma RefundedTotal(b: Balances, m: Message, used: nat, gas: nat)
    requires used <= m.gasLimit && gas == m.gasLimit - used
    ensures Total(Credit(b, m.from, gas * m.gasPrice)) + used * m.gasPrice == Total(b) + m.gasLimit * m.gasPrice
    ensures gas * m.gasPrice == (m.gasLimit - used) * m.gasPrice
  {
    SplitProduct(m.gasLimit, used, m.gasPrice);
    CreditTotal(b, m.from, gas * m.gasPrice);
  }

  /** Tip and base fee together are at most what the gas used cost. */
  lemma FeesBounded(m: Message, env: Env, used: nat)
    requires env.isLondon ==> m.gasPrice == env.baseFee + EffectiveTip(m, env)
    ensures used * EffectiveTip(m, env) + (if env.isLondon then used * env.baseFee else 0) == used * m.gasPrice
  {
  }

  lemma ScaleMono(a: nat, b: nat, c: nat)
    requires a <= b
    ensures a * c <= b * c
  {
  }

  /** An amount that fits is not changed by 256-bit arithmetic. */
  function Low256(exact: nat): (r: nat)
    ensures exact < TT256 ==> r == exact
  {
    exact % TT256
  }

  function Low64(exact: int): (r: nat)
    ensures 0 <= exact < TT64 ==> r == exact
  {
    exact % TT64
  }

  function CheckEip1559TxGasFeeCap(feeCap: nat, tip: nat, baseFee: nat, isFree: bool): Option<Error>
  {
    if feeCap < tip then Some(TipAboveFeeCap)
    else if feeCap < baseFee && !isFree then Some(FeeCapTooLow)
    else None
  }
}
