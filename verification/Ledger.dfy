/** Account balances and their sum. */
module Ledger {

  type Address = nat
  type Balances = map<Address, nat>

  function BalanceOf(b: Balances, a: Address): nat
  {
    if a in b then b[a] else 0
  }

  /** The sum of all balances. */
  ghost function Total(b: Balances): nat
  {
    if b == map[] then 0
    else
      var a :| a in b;
      b[a] + Total(b - {a})
  }

  lemma {:induction false} TotalWithout(b: Balances, a: Address)
    requires a in b
    ensures Total(b) == b[a] + Total(b - {a})
    decreases |b|
  {
    var c :| c in b && Total(b) == b[c] + Total(b - {c});
    if c == a {
    } else {
      TotalWithout(b - {c}, a);
      TotalWithout(b - {a}, c);
      assert b - {c} - {a} == b - {a} - {c};
    }
  }

  /** Changing one balance changes the sum by the difference. */
  lemma TotalUpdate(b: Balances, a: Address, x: nat)
    ensures Total(b[a := x]) == Total(b) - BalanceOf(b, a) + x
  {
    var c := b[a := x];
    TotalWithout(c, a);
    if a in b {
      TotalWithout(b, a);
      assert c - {a} == b - {a};
    } else {
      assert c - {a} == b;
    }
  }

  lemma BalanceAtMostTotal(b: Balances, a: Address)
    ensures BalanceOf(b, a) <= Total(b)
  {
  }

  /** A zero amount leaves the account as it is, even absent. */
  function Credit(b: Balances, a: Address, amount: nat): Balances
  {
    if amount == 0 then b else b[a := BalanceOf(b, a) + amount]
  }

  function Debit(b: Balances, a: Address, amount: nat): Balances
    requires amount <= BalanceOf(b, a)
  {
    if amount == 0 then b else b[a := BalanceOf(b, a) - amount]
  }

  lemma CreditTotal(b: Balances, a: Address, amount: nat)
    ensures Total(Credit(b, a, amount)) == Total(b) + amount
  {
    TotalUpdate(b, a, BalanceOf(b, a) + amount);
  }

  lemma DebitTotal(b: Balances, a: Address, amount: nat)
    requires amount <= BalanceOf(b, a)
    ensures Total(Debit(b, a, amount)) == Total(b) - amount
  {
    TotalUpdate(b, a, BalanceOf(b, a) - amount);
  }
}
