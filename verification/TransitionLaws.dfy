/** What the accounting's functions come to, stated without them: the price of
    every byte, which messages are refused and why, what the sender's price is made
    of, and what the EVM starts from. */
module TransitionLaws {
  import opened Common
  import opened Ledger
  import opened Transition

  // ----- intrinsic gas -----

  /** A message without data and access list costs 21000, or 53000 if it creates a
      contract since Homestead. */
  lemma BareCost(m: Message, env: Env)
    requires m.data == [] && m.access.NoAccessList?
    ensures IntrinsicCost(m, env) == if m.to.None? && env.isHomestead then 53000 else 21000
  {
  }

  /** One more byte costs 4 if it is zero, and otherwise 16, or 68 before Istanbul;
      the first byte of a word of init code costs 2 more since Shanghai. */
  lemma ByteCost(m: Message, env: Env, b: int)
    ensures IntrinsicCost(m.(data := m.data + [b]), env) ==
            IntrinsicCost(m, env) + (if b == 0 then 4 else if env.isIstanbul then 16 else 68)
            + (if m.to.None? && env.isShanghai && |m.data| % 32 == 0 then 2 else 0)
  {
    var data := m.data + [b];
    assert data[..|m.data|] == m.data;
    var nz, price := NonZeroBytes(m.data), NonZeroGas(env);
    assert (nz + 1) * price == nz * price + price;
    WordsOfLonger(|m.data|);
  }

  lemma WordsOfLonger(n: nat)
    ensures (n + 32) / 32 == (n + 31) / 32 + (if n % 32 == 0 then 1 else 0)
  {
  }

  /** An empty access list costs nothing, one more address 2400 and one more key
      1900. */
  lemma AccessCost(m: Message, env: Env, addresses: nat, keys: nat)
    ensures IntrinsicCost(m.(access := AccessList(0, 0)), env) == IntrinsicCost(m.(access := NoAccessList), env)
    ensures var cost := IntrinsicCost(m.(access := AccessList(addresses, keys)), env);
            && IntrinsicCost(m.(access := AccessList(addresses + 1, keys)), env) == cost + 2400
            && IntrinsicCost(m.(access := AccessList(addresses, keys + 1)), env) == cost + 1900
  {
  }

  // ----- acceptance -----

  /** What an error says of a message. */
  predicate IsFault(e: Error, w: World, pool: nat, m: Message, env: Env)
  {
    match e
    case NonceTooHigh => m.checkNonce && m.nonce > NonceOf(w, m.from)
    case NonceTooLow => m.checkNonce && m.nonce < NonceOf(w, m.from)
    case NonceMax => m.checkNonce && NonceOf(w, m.from) == TT64 - 1
    case SenderNoEOA => m.checkNonce && m.from in w.code
    case TipAboveFeeCap => env.isLondon && m.tip > m.feeCap
    case FeeCapTooLow => env.isLondon && !m.isFree && env.baseFee > m.feeCap
    case InsufficientFunds => m.gasLimit * m.feeCap + m.value > BalanceOf(w.balances, m.from)
    case GasLimitReached => m.gasLimit > pool
    case GasUintOverflow => GuardedGas(m, env) >= TT64
    case IntrinsicGasTooLow => IntrinsicCost(m, env) % TT64 > m.gasLimit
    case GasUsedMismatch => false
  }

  /** The order in which faults are reported. */
  function Rank(e: Error): nat
  {
    match e
    case NonceTooHigh => 0
    case NonceTooLow => 1
    case NonceMax => 2
    case SenderNoEOA => 3
    case TipAboveFeeCap => 4
    case FeeCapTooLow => 5
    case InsufficientFunds => 6
    case GasLimitReached => 7
    case GasUintOverflow => 8
    case IntrinsicGasTooLow => 9
    case GasUsedMismatch => 10
  }

  /** A message is refused for the first of its faults, and accepted exactly if it
      has none. */
  lemma RejectionIsFirstFault(w: World, pool: nat, m: Message, env: Env, e: Error)
    ensures Rejection(w, pool, m, env) == Some(e) <==>
            && IsFault(e, w, pool, m, env)
            && forall e' :: IsFault(e', w, pool, m, env) ==> Rank(e) <= Rank(e')
    ensures Rejection(w, pool, m, env).None? <==> forall e' :: !IsFault(e', w, pool, m, env)
  {
    var r := Rejection(w, pool, m, env);
    if r.Some? { assert IsFault(r.value, w, pool, m, env); }
  }

  // ----- prices -----

  /** The message of a transaction has its fields; before London its price. */
  lemma MessageOf(tx: Tx, baseFee: Option<nat>)
    requires IsTx(tx)
    ensures var m := AsMessage(tx, baseFee);
            && (m.from, m.to, m.nonce, m.value) == (tx.from, tx.to, tx.nonce, tx.value)
            && (m.gasLimit, m.data, m.access) == (tx.gasLimit, tx.data, tx.access) && m.checkNonce && !m.isFree
            && (tx.fees.Dynamic? ==> m.feeCap == tx.fees.cap && m.tip == tx.fees.tipCap)
            && (!tx.fees.Dynamic? ==> m.feeCap == m.tip == tx.fees.price)
            && (baseFee.None? ==> m.gasPrice == m.feeCap)
  {
  }

  /** On an accepted transaction since London the price is the base fee and a tip,
      which is all of the tip offered unless the cap leaves room for less. */
  lemma PriceIsFeeAndTip(w: World, pool: nat, tx: Tx, env: Env)
    requires IsTx(tx) && env.isLondon && Total(w.balances) < TT256
    requires var m := AsMessage(tx, Some(env.baseFee));
             Rejection(w, pool, m, env).None? && AccessListFits(m, env)
    ensures var m := AsMessage(tx, Some(env.baseFee));
            var tip := m.gasPrice - env.baseFee;
            && 0 <= tip <= m.tip && m.gasPrice <= m.feeCap && (tip == m.tip || m.gasPrice == m.feeCap)
            && EffectiveTip(m, env) == tip
  {
    FeesDoNotWrap(w, pool, tx, env);
  }

  // ----- the state around the EVM -----

  /** The EVM starts with the gas paid for, the nonce of a call raised and nothing
      else changed. */
  lemma BoughtIs(w: World, m: Message, a: Address)
    requires m.gasLimit * m.gasPrice <= BalanceOf(w.balances, m.from)
    ensures var b := BoughtWorld(w, m);
            && b.code == w.code
            && BalanceOf(b.balances, a) ==
                 BalanceOf(w.balances, a) - (if a == m.from then m.gasLimit * m.gasPrice else 0)
            && NonceOf(b, a) == if a == m.from && m.to.Some? then (NonceOf(w, a) + 1) % TT64 else NonceOf(w, a)
  {
  }

  /** Settling changes balances only: nonces, code and failure are the EVM's. */
  lemma AppliedIs(w: World, m: Message, env: Env, evm: Evm, intrinsic: nat)
    requires m.gasLimit * m.gasPrice <= BalanceOf(w.balances, m.from) && intrinsic <= m.gasLimit
    requires Run(w, m, evm, intrinsic).gasLeft <= m.gasLimit
    ensures var a, o := Apply(w, m, env, evm, intrinsic), evm(BoughtWorld(w, m), m, m.gasLimit - intrinsic);
            a.world.nonces == o.world.nonces && a.world.code == o.world.code && a.failed == o.failed
  {
  }
}
