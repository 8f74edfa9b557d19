/** Account balances as a sequence indexed by account, and their total. */
module Ledger {

  function Total(balances: seq<int>): int {
    if balances == [] then 0 else balances[0] + Total(balances[1..])
  }

  lemma {:induction false} TotalUpdate(balances: seq<int>, a: nat, v: int)
    requires a < |balances|
    ensures Total(balances[a := v]) == Total(balances) - balances[a] + v
  {
    if a == 0 {
      assert balances[a := v][1..] == balances[1..];
    } else {
      assert balances[a := v][1..] == balances[1..][a - 1 := v];
      TotalUpdate(balances[1..], a - 1, v);
    }
  }

  /** The balances after `amount` (possibly negative) is added to account `a`. */
  function Credit(balances: seq<int>, a: nat, amount: int): (r: seq<int>)
    requires a < |balances|
    ensures |r| == |balances|
  {
    balances[a := balances[a] + amount]
  }

  lemma {:induction false} TotalCredit(balances: seq<int>, a: nat, amount: int)
    requires a < |balances|
    ensures Total(Credit(balances, a, amount)) == Total(balances) + amount
  {
    TotalUpdate(balances, a, balances[a] + amount);
  }
}
