/** One message applied to the state, in the unbounded arithmetic of section 6
    of the Yellow Paper with EIP-1559 and EIP-3529: what the machine arithmetic
    of internal/state_transition.go has to compute. */
module Transition {
  import opened Common
  import opened Ledger

  const TX_GAS := 21000
  const TX_GAS_CONTRACT_CREATION := 53000
  const TX_DATA_ZERO_GAS := 4
  const TX_DATA_NON_ZERO_GAS_FRONTIER := 68
  const TX_DATA_NON_ZERO_GAS_EIP2028 := 16
  const INIT_CODE_WORD_GAS := 2
  const TX_ACCESS_LIST_ADDRESS_GAS := 2400
  const TX_ACCESS_LIST_STORAGE_KEY_GAS := 1900
  const REFUND_QUOTIENT := 2
  const REFUND_QUOTIENT_EIP3529 := 5

  /** The rules and the block context of the transition. `collector` is the fee
      collector when its rule is active, `baseFee` is 0 for a header without one. */
  datatype Env = Env(isHomestead: bool, isIstanbul: bool, isLondon: bool, isShanghai: bool,
                     collector: Option<Address>, coinbase: Address, baseFee: nat)

  /** The access list is present or not, with its numbers of addresses and keys. */
  datatype AccessList = NoAccessList | AccessList(addresses: nat, keys: nat)

  datatype Message = Message(from: Address, to: Option<Address>, nonce: nat, value: nat, gasLimit: nat,
                             gasPrice: nat, feeCap: nat, tip: nat, data: seq<int>, access: AccessList,
                             checkNonce: bool, isFree: bool)

  /** The fields fit their 64-bit and 256-bit types. */
  predicate IsMessage(m: Message)
  {
    && m.nonce < TT64 && m.gasLimit < TT64 && |m.data| < TT64
    && m.value < TT256 && m.gasPrice < TT256 && m.feeCap < TT256 && m.tip < TT256
  }

  datatype World = World(balances: Balances, nonces: map<Address, nat>, code: set<Address>)

  datatype Error =
    | NonceTooHigh | NonceTooLow | NonceMax | SenderNoEOA
    | TipAboveFeeCap | FeeCapTooLow
    | InsufficientFunds | GasLimitReached
    | GasUintOverflow | IntrinsicGasTooLow
    | GasUsedMismatch

  function NonceOf(w: World, a: Address): nat
  {
    if a in w.nonces then w.nonces[a] else 0
  }

  // ----- the EVM as an oracle -----

  /** What a Call or Create leaves behind. */
  datatype Outcome = Outcome(world: World, gasLeft: nat, refund: nat, failed: bool)

  type Evm = (World, Message, nat) -> Outcome

  /** Execution moves balances but makes and destroys none, and returns no more
      gas than it was given. */
  ghost predicate Lawful(evm: Evm)
  {
    forall w: World, m: Message, g: nat :: g < TT64 ==>
      && Total(evm(w, m, g).world.balances) == Total(w.balances)
      && evm(w, m, g).gasLeft <= g
      && evm(w, m, g).refund < TT64
  }

  // ----- gas -----

  function NonZeroBytes(data: seq<int>): (n: nat)
    ensures n <= |data|
  {
    if data == [] then 0 else NonZeroBytes(data[..|data| - 1]) + (if data[|data| - 1] != 0 then 1 else 0)
  }

  function BaseGas(m: Message, env: Env): nat
  {
    if m.to.None? && env.isHomestead then TX_GAS_CONTRACT_CREATION else TX_GAS
  }

  function NonZeroGas(env: Env): (price: nat)
    ensures price > 0
  {
    if env.isIstanbul then TX_DATA_NON_ZERO_GAS_EIP2028 else TX_DATA_NON_ZERO_GAS_FRONTIER
  }

  /** The part of the intrinsic gas that the code guards against overflow. */
  function GuardedGas(m: Message, env: Env): nat
  {
    var nz := NonZeroBytes(m.data);
    BaseGas(m, env) + nz * NonZeroGas(env) + (|m.data| - nz) * TX_DATA_ZERO_GAS +
    (if m.to.None? && env.isShanghai then (|m.data| + 31) / 32 * INIT_CODE_WORD_GAS else 0)
  }

  function AccessGas(m: Message): nat
  {
    match m.access
    case NoAccessList => 0
    case AccessList(addresses, keys) =>
      addresses * TX_ACCESS_LIST_ADDRESS_GAS + keys * TX_ACCESS_LIST_STORAGE_KEY_GAS
  }

  /** The intrinsic gas of a message. */
  function IntrinsicCost(m: Message, env: Env): (g: nat)
    ensures g >= TX_GAS
  {
    GuardedGas(m, env) + AccessGas(m)
  }

  /** No wrap-around in the unguarded access list terms: true of every access
      list that fits in memory. */
  predicate AccessListFits(m: Message, env: Env)
  {
    IntrinsicCost(m, env) < TT64
  }

  function Min(a: nat, b: nat): nat
  {
    if a > b then b else a
  }

  function RefundQuotient(env: Env): (q: nat)
    ensures q > 0
  {
    if env.isLondon then REFUND_QUOTIENT_EIP3529 else REFUND_QUOTIENT
  }

  /** The refund counter, capped to a share of the gas spent. */
  function CappedRefund(spent: nat, quotient: nat, counter: nat): (r: nat)
    requires quotient > 0
    ensures r <= counter && r <= spent && r * quotient <= spent
  {
    var share := spent / quotient;
    ShareFits(spent, quotient);
    MulMono(quotient, Min(share, counter), share);
    Min(share, counter)
  }

  lemma ShareFits(spent: nat, quotient: nat)
    requires quotient > 0
    ensures spent / quotient <= spent && quotient * (spent / quotient) <= spent
  {
    var d := spent / quotient;
    MulMono(d, 1, quotient);
    assert spent == d * quotient + spent % quotient;
  }

  /** Gas used after the capped refund. */
  function GasUsed(m: Message, env: Env, o: Outcome): (used: nat)
    requires o.gasLeft <= m.gasLimit
    ensures used <= m.gasLimit - o.gasLeft
  {
    var spent := m.gasLimit - o.gasLeft;
    spent - CappedRefund(spent, RefundQuotient(env), o.refund)
  }

  /** The refund is the greatest amount within the counter and the share. */
  lemma RefundIsGreatest(spent: nat, quotient: nat, counter: nat, k: nat)
    requires quotient > 0 && k <= counter && k * quotient <= spent
    ensures k <= CappedRefund(spent, quotient, counter)
  {
    var share := spent / quotient;
    assert spent == share * quotient + spent % quotient;
    if k > share { MulMono(quotient, share + 1, k); }
  }

  /** The whole counter is refunded if it is at most a fifth of the gas spent, half
      before London, and otherwise that share, rounded down. */
  lemma RefundIsCapped(m: Message, env: Env, o: Outcome)
    requires o.gasLeft <= m.gasLimit
    ensures var spent := m.gasLimit - o.gasLeft;
            var share := if env.isLondon then spent / 5 else spent / 2;
            GasUsed(m, env, o) == spent - (if o.refund <= share then o.refund else share)
  {
  }

  // ----- acceptance -----

  /** The checks in the order the code makes them; None is acceptance. */
  function Rejection(w: World, pool: nat, m: Message, env: Env): Option<Error>
  {
    var early := EarlyRejection(w, pool, m, env);
    if early.Some? then early else LateRejection(m, env)
  }

  /** The checks made before the gas is bought. */
  function EarlyRejection(w: World, pool: nat, m: Message, env: Env): Option<Error>
  {
    var nonce := NonceOf(w, m.from);
    if m.checkNonce && nonce < m.nonce then Some(NonceTooHigh)
    else if m.checkNonce && nonce > m.nonce then Some(NonceTooLow)
    else if m.checkNonce && nonce == TT64 - 1 then Some(NonceMax)
    else if m.checkNonce && m.from in w.code then Some(SenderNoEOA)
    else if env.isLondon && m.feeCap < m.tip then Some(TipAboveFeeCap)
    else if env.isLondon && m.feeCap < env.baseFee && !m.isFree then Some(FeeCapTooLow)
    else if BalanceOf(w.balances, m.from) < m.gasLimit * m.feeCap + m.value then Some(InsufficientFunds)
    else if pool < m.gasLimit then Some(GasLimitReached)
    else None
  }

  /** The two checks made after the gas has been bought. */
  function LateRejection(m: Message, env: Env): Option<Error>
  {
    if GuardedGas(m, env) >= TT64 then Some(GasUintOverflow)
    else if m.gasLimit < IntrinsicCost(m, env) % TT64 then Some(IntrinsicGasTooLow)
    else None
  }

  // ----- the new state -----

  function EffectiveTip(m: Message, env: Env): nat
  {
    if !env.isLondon then m.gasPrice
    else if m.feeCap > env.baseFee then Min(m.tip, m.feeCap - env.baseFee)
    else 0
  }

  /** The world the EVM starts from: gas bought, and for a call the nonce raised. */
  function BoughtWorld(w: World, m: Message): World
    requires m.gasLimit * m.gasPrice <= BalanceOf(w.balances, m.from)
  {
    var paid := w.(balances := Debit(w.balances, m.from, m.gasLimit * m.gasPrice));
    if m.to.None? then paid else paid.(nonces := paid.nonces[m.from := (NonceOf(w, m.from) + 1) % TT64])
  }

  /** Refund to the sender, fee to the coinbase, base fee to the collector. */
  function SettledBalances(b: Balances, m: Message, env: Env, used: nat): Balances
    requires used <= m.gasLimit
  {
    PaidFees(Credit(b, m.from, (m.gasLimit - used) * m.gasPrice), m, env, used)
  }

  function PaidFees(b: Balances, m: Message, env: Env, used: nat): Balances
  {
    var paid := Credit(b, env.coinbase, used * EffectiveTip(m, env));
    if !m.isFree && env.isLondon && env.collector.Some?
    then Credit(paid, env.collector.value, used * env.baseFee)
    else paid
  }

  datatype Applied = Applied(world: World, used: nat, failed: bool)

  /** The EVM's run, given the gas that is left after the intrinsic cost. */
  function Run(w: World, m: Message, evm: Evm, intrinsic: nat): Outcome
    requires m.gasLimit * m.gasPrice <= BalanceOf(w.balances, m.from) && intrinsic <= m.gasLimit
  {
    evm(BoughtWorld(w, m), m, m.gasLimit - intrinsic)
  }

  /** The whole transition of an accepted message. */
  function Apply(w: World, m: Message, env: Env, evm: Evm, intrinsic: nat): Applied
    requires m.gasLimit * m.gasPrice <= BalanceOf(w.balances, m.from) && intrinsic <= m.gasLimit
    requires Run(w, m, evm, intrinsic).gasLeft <= m.gasLimit
  {
    var o := Run(w, m, evm, intrinsic);
    var used := GasUsed(m, env, o);
    Applied(o.world.(balances := SettledBalances(o.world.balances, m, env, used)), used, o.failed)
  }

  // ----- transactions -----

  /** The fee fields of the three transaction kinds. */
  datatype Fees = Legacy(price: nat) | WithAccessList(price: nat) | Dynamic(cap: nat, tipCap: nat) {
    function GasPrice(): nat { FeeCap() }
    function FeeCap(): nat { if Dynamic? then cap else price }
    function TipCap(): nat { if Dynamic? then tipCap else price }
  }

  datatype Tx = Tx(from: Address, to: Option<Address>, nonce: nat, value: nat, gasLimit: nat,
                   fees: Fees, data: seq<int>, access: AccessList)

  predicate IsTx(tx: Tx)
  {
    && tx.nonce < TT64 && tx.gasLimit < TT64 && |tx.data| < TT64 && tx.value < TT256
    && tx.fees.FeeCap() < TT256 && tx.fees.TipCap() < TT256
  }

  /** AsMessage: with a base fee the price is tip plus base fee in 256-bit
      arithmetic, capped by the fee cap. */
  function AsMessage(tx: Tx, baseFee: Option<nat>): (m: Message)
    requires IsTx(tx)
    ensures IsMessage(m) && m.gasPrice <= m.feeCap
  {
    var cap := tx.fees.FeeCap();
    var price := if baseFee.None? then tx.fees.GasPrice() else Min((tx.fees.TipCap() + baseFee.value) % TT256, cap);
    Message(tx.from, tx.to, tx.nonce, tx.value, tx.gasLimit, price, cap, tx.fees.TipCap(), tx.data, tx.access,
            true, false)
  }

  // ----- what acceptance implies -----

  lemma MulMono(a: nat, b: nat, c: nat)
    requires b <= c
    ensures a * b <= a * c
  {
  }

  /** An accepted message's sender has bought gas at its price and can still
      cover the value; its gas covers the intrinsic cost. */
  lemma AcceptedCanPay(w: World, pool: nat, m: Message, env: Env)
    requires Rejection(w, pool, m, env).None? && AccessListFits(m, env) && m.gasPrice <= m.feeCap
    ensures m.gasLimit * m.gasPrice + m.value <= BalanceOf(w.balances, m.from)
    ensures TX_GAS <= IntrinsicCost(m, env) <= m.gasLimit <= pool
    ensures BalanceOf(BoughtWorld(w, m).balances, m.from) >= m.value
  {
    MulMono(m.gasLimit, m.gasPrice, m.feeCap);
  }

  /** On an accepted transaction tip plus base fee does not wrap, and the price
      is the base fee plus the tip the block producer gets. */
  lemma FeesDoNotWrap(w: World, pool: nat, tx: Tx, env: Env)
    requires IsTx(tx) && env.isLondon && Total(w.balances) < TT256
    requires var m := AsMessage(tx, Some(env.baseFee));
             Rejection(w, pool, m, env).None? && AccessListFits(m, env)
    ensures tx.fees.TipCap() + env.baseFee < TT256
    ensures var m := AsMessage(tx, Some(env.baseFee)); m.gasPrice == env.baseFee + EffectiveTip(m, env)
    ensures tx.gasLimit * tx.fees.FeeCap() + tx.value < TT256
  {
    var m := AsMessage(tx, Some(env.baseFee));
    AcceptedCanPay(w, pool, m, env);
    BalanceAtMostTotal(w.balances, m.from);
    CapIsModest(m.gasLimit, m.feeCap, m.value);
    PriceSplits(m.tip, env.baseFee, m.feeCap);
  }

  lemma CapIsModest(gas: nat, cap: nat, value: nat)
    requires gas >= TX_GAS && gas * cap + value < TT256
    ensures 2 * cap < TT256
  {
  }

  /** The capped sum of tip and base fee is the base fee plus the capped tip. */
  lemma PriceSplits(tip: nat, baseFee: nat, cap: nat)
    requires tip <= cap && baseFee <= cap && 2 * cap < TT256
    ensures tip + baseFee < TT256
    ensures Min((tip + baseFee) % TT256, cap) == baseFee + (if cap > baseFee then Min(tip, cap - baseFee) else 0)
  {
  }

  // ----- conservation -----

  /** What the base fee takes out of circulation. */
  function Burnt(env: Env, used: nat): nat
  {
    if env.isLondon && env.collector.None? then used * env.baseFee else 0
  }

  lemma SplitProduct(a: nat, b: nat, p: nat)
    requires b <= a
    ensures a * p == (a - b) * p + b * p
  {
  }

  /** Refund, fee and base fee share out what the gas cost. */
  lemma FeesAddUp(m: Message, env: Env, used: nat)
    requires used <= m.gasLimit
    requires env.isLondon ==> m.gasPrice == env.baseFee + EffectiveTip(m, env)
    ensures (m.gasLimit - used) * m.gasPrice + used * EffectiveTip(m, env) +
            (if env.isLondon then used * env.baseFee else 0) == m.gasLimit * m.gasPrice
  {
  }

  lemma CreditsTotal(b: Balances, m: Message, env: Env, used: nat, refund: nat, fee: nat, base: nat)
    requires used <= m.gasLimit && !m.isFree
    requires refund == (m.gasLimit - used) * m.gasPrice && fee == used * EffectiveTip(m, env)
    requires base == used * env.baseFee
    ensures Total(SettledBalances(b, m, env, used)) ==
            Total(b) + refund + fee + (if env.isLondon && env.collector.Some? then base else 0)
  {
    CreditTotal(b, m.from, refund);
    var refunded := Credit(b, m.from, refund);
    CreditTotal(refunded, env.coinbase, fee);
    var paid := Credit(refunded, env.coinbase, fee);
    if env.isLondon && env.collector.Some? { CreditTotal(paid, env.collector.value, base); }
  }

  lemma SettledTotal(b: Balances, m: Message, env: Env, used: nat)
    requires used <= m.gasLimit && !m.isFree
    requires env.isLondon ==> m.gasPrice == env.baseFee + EffectiveTip(m, env)
    ensures Total(SettledBalances(b, m, env, used)) + Burnt(env, used) == Total(b) + m.gasLimit * m.gasPrice
  {
    FeesAddUp(m, env, used);
    CreditsTotal(b, m, env, used, (m.gasLimit - used) * m.gasPrice, used * EffectiveTip(m, env), used * env.baseFee);
  }

  lemma BoughtTotal(w: World, m: Message)
    requires m.gasLimit * m.gasPrice <= BalanceOf(w.balances, m.from)
    ensures Total(BoughtWorld(w, m).balances) == Total(w.balances) - m.gasLimit * m.gasPrice
  {
    DebitTotal(w.balances, m.from, m.gasLimit * m.gasPrice);
  }

  /** One applied message changes the sum of all balances by minus the burnt
      base fee and nothing else, whichever accounts coincide. */
  lemma ApplyConserves(w: World, m: Message, env: Env, evm: Evm, intrinsic: nat)
    requires Lawful(evm) && IsMessage(m) && !m.isFree
    requires m.gasLimit * m.gasPrice <= BalanceOf(w.balances, m.from) && intrinsic <= m.gasLimit
    requires env.isLondon ==> m.gasPrice == env.baseFee + EffectiveTip(m, env)
    ensures Run(w, m, evm, intrinsic).gasLeft <= m.gasLimit
    ensures var a := Apply(w, m, env, evm, intrinsic);
            Total(a.world.balances) + Burnt(env, a.used) == Total(w.balances) && a.used <= m.gasLimit
  {
    BoughtTotal(w, m);
    var o := Run(w, m, evm, intrinsic);
    SettledTotal(o.world.balances, m, env, GasUsed(m, env, o));
  }

  lemma PurchaseAndRefund(w: World, m: Message, used: nat, a: Address)
    requires m.gasLimit * m.gasPrice <= BalanceOf(w.balances, m.from) && used <= m.gasLimit
    ensures BalanceOf(BoughtWorld(w, m).balances, a) + (if a == m.from then (m.gasLimit - used) * m.gasPrice else 0) ==
            BalanceOf(w.balances, a) - (if a == m.from then used * m.gasPrice else 0)
  {
    SplitProduct(m.gasLimit, used, m.gasPrice);
  }

  lemma SettledOf(b: Balances, m: Message, env: Env, used: nat, a: Address, refund: nat)
    requires used <= m.gasLimit && !m.isFree && refund == (m.gasLimit - used) * m.gasPrice
    ensures BalanceOf(SettledBalances(b, m, env, used), a) ==
            BalanceOf(b, a) + (if a == m.from then refund else 0)
            + (if a == env.coinbase then used * EffectiveTip(m, env) else 0)
            + (if env.isLondon && env.collector == Some(a) then used * env.baseFee else 0)
  {
  }

  /** The sender pays for the gas used, the coinbase gets the tip and the
      collector the base fee, and nobody else's balance moves but by the EVM; the
      three roles may fall on one account. */
  lemma EachPays(w: World, m: Message, env: Env, evm: Evm, intrinsic: nat, a: Address)
    requires m.gasLimit * m.gasPrice <= BalanceOf(w.balances, m.from) && intrinsic <= m.gasLimit && !m.isFree
    requires Run(w, m, evm, intrinsic).gasLeft <= m.gasLimit
    ensures var r := Apply(w, m, env, evm, intrinsic);
            var moved :=
              BalanceOf(Run(w, m, evm, intrinsic).world.balances, a) - BalanceOf(BoughtWorld(w, m).balances, a);
            BalanceOf(r.world.balances, a) ==
            BalanceOf(w.balances, a) + moved
            + (if a == env.coinbase then r.used * EffectiveTip(m, env) else 0)
            + (if env.isLondon && env.collector == Some(a) then r.used * env.baseFee else 0)
            - (if a == m.from then r.used * m.gasPrice else 0)
  {
    var o := Run(w, m, evm, intrinsic);
    var used := GasUsed(m, env, o);
    PurchaseAndRefund(w, m, used, a);
    SettledOf(o.world.balances, m, env, used, a, (m.gasLimit - used) * m.gasPrice);
  }
}
