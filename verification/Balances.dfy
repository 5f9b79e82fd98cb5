/** Amounts by account, where an account that is not mentioned holds nothing. */
module Balances {
  import opened Sums

  type Address = string
  type Ledger = map<Address, int>

  function Balance(l: Ledger, a: Address): int {
    if a in l then l[a] else 0
  }

  function Delta(before: Ledger, after: Ledger, a: Address): int {
    Balance(after, a) - Balance(before, a)
  }

  /** Setting one balance changes the sum by the difference. */
  lemma SumSet(l: Ledger, a: Address, v: int)
    ensures SumOf(l[a := v]) == SumOf(l) - Balance(l, a) + v
  {
    if a in l {
      SumUpdate(l, a, v);
    } else {
      SumInsert(l, a, v);
    }
  }
}
