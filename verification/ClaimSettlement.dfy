/**
  Claim execution: the closes and the settlement transfer of a built Claim, run on lamport balances, against
  the balance changes and closed accounts that reconciliation demands.
*/
module ClaimSettlement {
  import opened Balances
  import opened Wrappers
  import opened Sequences
  import opened Sums
  import opened ClaimAllocation
  import opened Numbers

  const CLAIM_MAX_ACCOUNTS_PER_TRANSACTION := 10
  const CLAIM_PRIORITY_FEE := (100_000 * 375_000 + 999_999) / 1_000_000

  datatype BuildError =
    | DestinationIsPayer | NoAccounts | TooManyAccounts | DuplicateAccount | SettlementOutOfRange
    | FeeUnavailable | FeeIncomplete | FeeChanged | Payout(error: ClaimError)

  datatype Instruction =
    | CloseAccount(account: Address, wallet: Address)
    | Transfer(sender: Address, recipient: Address, lamports: int)

  datatype Transaction = Transaction(payer: Address, instructions: seq<Instruction>)

  function Closes(accounts: seq<Account>, wallet: Address): seq<Instruction> {
    if accounts == [] then [] else [CloseAccount(accounts[0].address, wallet)] + Closes(accounts[1..], wallet)
  }

  function AddressSet(accounts: seq<Account>): set<Address> {
    set a | a in accounts :: a.address
  }

  /** The closes in order, then the settlement. */
  function ClaimTransaction(accounts: seq<Account>, wallet: Address, payer: Address, destination: Address,
                            settlement: int): Transaction
  {
    Transaction(payer, Closes(accounts, wallet) + [Transfer(wallet, destination, settlement)])
  }

  /** The compute-budget instructions move nothing and are left out of the list. */
  function BuildClaimTransaction(accounts: seq<Account>, wallet: Address, payer: Address, destination: Address,
                                 settlement: int): Result<Transaction, BuildError>
  {
    if payer == destination then Err(DestinationIsPayer)
    else if accounts == [] then Err(NoAccounts)
    else if |accounts| > CLAIM_MAX_ACCOUNTS_PER_TRANSACTION then Err(TooManyAccounts)
    else if |AddressSet(accounts)| != |accounts| then Err(DuplicateAccount)
    else if settlement < 0 || settlement > MAX_SAFE_INTEGER then Err(SettlementOutOfRange)
    else Ok(ClaimTransaction(accounts, wallet, payer, destination, settlement))
  }

  datatype Prepared = Prepared(transaction: Transaction, sponsoredCost: int, net: int)

  /** The arithmetic of `prepareClaimTransaction`; the two fees are the answers for the estimate and the exact build. */
  function PrepareClaim(accounts: seq<Account>, wallet: Address, payer: Address, destination: Address, gaslessFee: int,
                        minimumPayout: int, estimatedFee: Option<int>,
                        exactFee: Option<int>): Result<Prepared, BuildError>
  {
    var estimate := BuildClaimTransaction(accounts, wallet, payer, destination, gaslessFee);
    if estimate.Err? then Err(estimate.error)
    else if estimatedFee.None? then Err(FeeUnavailable)
    else if estimatedFee.value < CLAIM_PRIORITY_FEE then Err(FeeIncomplete)
    else
      var sponsored := estimatedFee.value;
      var net := CalculateClaimNet(Gross(accounts), gaslessFee, sponsored, minimumPayout);
      if net.Err? then Err(Payout(net.error))
      else
        var transaction := BuildClaimTransaction(accounts, wallet, payer, destination, gaslessFee + sponsored);
        if transaction.Err? then Err(transaction.error)
        else if exactFee.None? || exactFee.value != sponsored then Err(FeeChanged)
        else Ok(Prepared(transaction.value, sponsored, net.value))
  }

  function Addresses(accounts: seq<Account>): (addresses: seq<Address>)
    ensures |addresses| == |accounts|
    ensures forall i | 0 <= i < |accounts| :: addresses[i] == accounts[i].address
  {
    seq(|accounts|, i requires 0 <= i < |accounts| => accounts[i].address)
  }

  /** Comparing the size of the set of addresses finds exactly the lists with a repeated address. */
  lemma SetSizeFindsDuplicates(accounts: seq<Account>)
    ensures |AddressSet(accounts)| == |accounts| <==> Distinct(Addresses(accounts))
  {
    ElementCount(Addresses(accounts));
    assert AddressSet(accounts) == Elements(Addresses(accounts)) by {
      assert forall i | 0 <= i < |accounts| :: Addresses(accounts)[i] == accounts[i].address && accounts[i] in accounts;
    }
  }

  // ---------------------------------------------------------------- running a transaction

  /** Closing hands everything the account holds to the wallet; a system transfer refuses to overdraw. */
  function Step(l: Ledger, instruction: Instruction): Option<Ledger> {
    match instruction
    case CloseAccount(account, wallet) =>
      if account !in l || account == wallet then None
      else
        var left := l - {account};
        Some(left[wallet := Balance(left, wallet) + l[account]])
    case Transfer(sender, recipient, lamports) =>
      if lamports < 0 || Balance(l, sender) < lamports then None
      else
        var left := l[sender := Balance(l, sender) - lamports];
        Some(left[recipient := Balance(left, recipient) + lamports])
  }

  function Run(l: Ledger, instructions: seq<Instruction>): Option<Ledger>
    decreases |instructions|
  {
    if instructions == [] then Some(l)
    else
      var next := Step(l, instructions[0]);
      if next.None? then None else Run(next.value, instructions[1..])
  }

  /** The network takes its fee from the payer before anything runs. */
  function Execute(l: Ledger, t: Transaction, networkFee: int): Option<Ledger> {
    if Balance(l, t.payer) < networkFee then None
    else Run(l[t.payer := Balance(l, t.payer) - networkFee], t.instructions)
  }

  lemma {:induction false} RunConcat(l: Ledger, a: seq<Instruction>, b: seq<Instruction>)
    ensures Run(l, a + b) == if Run(l, a).None? then None else Run(Run(l, a).value, b)
    decreases |a|
  {
    if a == [] {
      assert a + b == b;
    } else {
      assert (a + b)[1..] == a[1..] + b;
      var next := Step(l, a[0]);
      if next.Some? {
        RunConcat(next.value, a[1..], b);
      }
    }
  }

  /** The ledger still holds each account with the lamports that were quoted. */
  ghost predicate Holds(l: Ledger, accounts: seq<Account>) {
    forall a | a in accounts :: a.address in l && l[a.address] == a.recoverableLamports
  }

  /** The ledger after all accounts are closed into the wallet. */
  function Closed(l: Ledger, accounts: seq<Account>, wallet: Address): Ledger {
    (l - AddressSet(accounts))[wallet := Balance(l, wallet) + Gross(accounts)]
  }

  /** What one close leaves behind. */
  function AfterClose(l: Ledger, a: Account, wallet: Address): Ledger {
    (l - {a.address})[wallet := Balance(l, wallet) + a.recoverableLamports]
  }

  lemma CloseFirst(l: Ledger, accounts: seq<Account>, wallet: Address)
    requires accounts != [] && Holds(l, accounts) && Distinct(Addresses(accounts)) && wallet !in AddressSet(accounts)
    ensures Step(l, CloseAccount(accounts[0].address, wallet)) == Some(AfterClose(l, accounts[0], wallet))
    ensures Holds(AfterClose(l, accounts[0], wallet), accounts[1..])
    ensures Distinct(Addresses(accounts[1..])) && wallet !in AddressSet(accounts[1..])
  {
    var first, rest := accounts[0], accounts[1..];
    assert first in accounts && first.address in AddressSet(accounts);
    FirstIsAlone(accounts);
    assert (l - {first.address})[wallet := Balance(l - {first.address}, wallet) + l[first.address]]
        == AfterClose(l, first, wallet);
    forall a | a in rest
      ensures a.address in AfterClose(l, first, wallet)
          && AfterClose(l, first, wallet)[a.address] == a.recoverableLamports
    {
      assert a in accounts && a.address in AddressSet(rest) && a.address in AddressSet(accounts);
    }
  }

  lemma Overwritten(l: Ledger, gone: set<Address>, a: Address, u: int, v: int)
    ensures (l[a := u] - gone)[a := v] == (l - gone)[a := v]
  {
  }

  lemma ClosedFirst(l: Ledger, accounts: seq<Account>, wallet: Address)
    requires accounts != [] && wallet !in AddressSet(accounts)
    ensures
      var left := AfterClose(l, accounts[0], wallet);
      Closed(l, accounts, wallet) == if |accounts| == 1 then left else Closed(left, accounts[1..], wallet)
  {
    var first, rest := accounts[0], accounts[1..];
    assert accounts == [first] + rest;
    GrossOfFirst(first, rest);
    RemovedFirst(l, first, rest);
    if rest == [] {
      assert l - {first.address} - AddressSet(rest) == l - {first.address};
    } else {
      Overwritten(l - {first.address}, AddressSet(rest), wallet, Balance(l, wallet) + first.recoverableLamports,
                  Balance(l, wallet) + Gross(accounts));
    }
  }

  lemma RemovedFirst(l: Ledger, first: Account, rest: seq<Account>)
    ensures AddressSet([first] + rest) == {first.address} + AddressSet(rest)
    ensures l - AddressSet([first] + rest) == l - {first.address} - AddressSet(rest)
  {
    assert forall a | a in [first] + rest :: a == first || a in rest;
    assert AddressSet([first] + rest) == {first.address} + AddressSet(rest);
  }

  lemma {:induction false} ClosesRun(l: Ledger, accounts: seq<Account>, wallet: Address)
    requires Holds(l, accounts) && Distinct(Addresses(accounts)) && wallet !in AddressSet(accounts)
    ensures Run(l, Closes(accounts, wallet)) == Some(if accounts == [] then l else Closed(l, accounts, wallet))
    decreases |accounts|
  {
    if accounts != [] {
      CloseFirst(l, accounts, wallet);
      ClosesRun(AfterClose(l, accounts[0], wallet), accounts[1..], wallet);
      ClosedFirst(l, accounts, wallet);
      assert Closes(accounts, wallet)[1..] == Closes(accounts[1..], wallet);
    }
  }

  lemma FirstIsAlone(accounts: seq<Account>)
    requires accounts != [] && Distinct(Addresses(accounts))
    ensures accounts[0].address !in AddressSet(accounts[1..])
    ensures Distinct(Addresses(accounts[1..]))
    ensures AddressSet(accounts[1..]) <= AddressSet(accounts)
  {
    var rest := accounts[1..];
    forall a | a in rest ensures a.address != accounts[0].address && a in accounts {
      var i :| 0 <= i < |rest| && rest[i] == a;
      assert a == accounts[i + 1];
    }
  }

  // ---------------------------------------------------------------- reconciliation

  /** The deltas and closed accounts of `reconcile`; the reported network fee is the one that was charged. */
  ghost predicate Reconciles(before: Ledger, after: Ledger, accounts: seq<Account>, wallet: Address, payer: Address,
                             destination: Address, gaslessFee: int, networkFee: int, net: int)
  {
    && Balance(after, wallet) - Balance(before, wallet) == net
    && Balance(after, destination) - Balance(before, destination) == gaslessFee + networkFee
    && Balance(after, payer) - Balance(before, payer) == -networkFee
    && forall a | a in accounts :: a.address !in after
  }

  /** The parties and the accounts are all different, as the engine and the account discovery arrange. */
  ghost predicate Parties(accounts: seq<Account>, wallet: Address, payer: Address, destination: Address) {
    && wallet != payer && wallet != destination
    && wallet !in AddressSet(accounts) && payer !in AddressSet(accounts) && destination !in AddressSet(accounts)
  }

  /**
    A prepared Claim on a ledger that holds what was quoted: it runs exactly when the wallet and its payout
    are not negative together, and then every delta is the one reconciliation demands, nothing else moves and
    only the network fee leaves the ledger.
  */
  lemma ClaimSettles(l: Ledger, accounts: seq<Account>, wallet: Address, payer: Address, destination: Address,
                     gaslessFee: int, minimumPayout: int, fee: int, prepared: Prepared)
    requires PrepareClaim(accounts, wallet, payer, destination, gaslessFee, minimumPayout, Some(fee), Some(fee))
        == Ok(prepared)
    requires Parties(accounts, wallet, payer, destination)
    requires Holds(l, accounts) && Balance(l, payer) >= fee
    ensures prepared.sponsoredCost == fee && prepared.net == Gross(accounts) - gaslessFee - fee >= minimumPayout
    ensures Execute(l, prepared.transaction, fee).Some? <==> Balance(l, wallet) + prepared.net >= 0
    ensures Execute(l, prepared.transaction, fee).Some? ==>
      AsReconciled(l, Execute(l, prepared.transaction, fee).value, accounts, wallet, payer, destination, gaslessFee,
                   fee, prepared.net)
  {
    PreparedShape(accounts, wallet, payer, destination, gaslessFee, minimumPayout, fee, prepared);
    TransactionSettles(l, accounts, wallet, payer, destination, gaslessFee, fee);
  }

  /** Every delta as reconciliation demands it, nothing else moved, and only the network fee gone. */
  ghost predicate AsReconciled(l: Ledger, after: Ledger, accounts: seq<Account>, wallet: Address, payer: Address,
                               destination: Address, gaslessFee: int, fee: int, net: int)
  {
    && Reconciles(l, after, accounts, wallet, payer, destination, gaslessFee, fee, net)
    && (forall a | a !in AddressSet(accounts) + {wallet, payer, destination} :: Balance(after, a) == Balance(l, a))
    && SumOf(after) == SumOf(l) - fee
  }

  lemma TransactionSettles(l: Ledger, accounts: seq<Account>, wallet: Address, payer: Address, destination: Address,
                           gaslessFee: int, fee: int)
    requires accounts != [] && Distinct(Addresses(accounts)) && payer != destination && gaslessFee + fee >= 0
    requires Parties(accounts, wallet, payer, destination)
    requires Holds(l, accounts) && Balance(l, payer) >= fee
    ensures
      var net := Gross(accounts) - gaslessFee - fee;
      var after := Execute(l, ClaimTransaction(accounts, wallet, payer, destination, gaslessFee + fee), fee);
      && (after.Some? <==> Balance(l, wallet) + net >= 0)
      && (after.Some? ==> AsReconciled(l, after.value, accounts, wallet, payer, destination, gaslessFee, fee, net))
  {
    ClaimRuns(l, accounts, wallet, payer, destination, gaslessFee + fee, fee);
    SettledAsReconciled(l, accounts, wallet, payer, destination, gaslessFee, fee);
  }

  lemma SettledAsReconciled(l: Ledger, accounts: seq<Account>, wallet: Address, payer: Address, destination: Address,
                            gaslessFee: int, fee: int)
    requires Distinct(Addresses(accounts)) && Parties(accounts, wallet, payer, destination) && payer != destination
    requires Holds(l, accounts)
    ensures AsReconciled(l, Settled(l, accounts, wallet, payer, destination, gaslessFee + fee, fee), accounts,
                         wallet, payer, destination, gaslessFee, fee, Gross(accounts) - gaslessFee - fee)
  {
    SettledBalances(l, accounts, wallet, payer, destination, gaslessFee + fee, fee);
    SettledSum(l, accounts, wallet, payer, destination, gaslessFee + fee, fee);
  }

  /** What the checks of preparation have made sure of. */
  lemma PreparedShape(accounts: seq<Account>, wallet: Address, payer: Address, destination: Address,
                      gaslessFee: int, minimumPayout: int, fee: int, prepared: Prepared)
    requires PrepareClaim(accounts, wallet, payer, destination, gaslessFee, minimumPayout, Some(fee), Some(fee))
        == Ok(prepared)
    ensures accounts != [] && Distinct(Addresses(accounts)) && payer != destination
    ensures gaslessFee + fee >= 0
    ensures prepared.transaction == ClaimTransaction(accounts, wallet, payer, destination, gaslessFee + fee)
    ensures prepared.sponsoredCost == fee && prepared.net == Gross(accounts) - gaslessFee - fee >= minimumPayout
  {
    SetSizeFindsDuplicates(accounts);
  }

  /**
    When a Claim is prepared, and as what: at most ten different accounts, a payer other than the fee
    destination, two equal fee answers of 37,500 lamports or more, a payout of at least the minimum, and
    settlements that are exact amounts, first of the service fee alone and then with the network fee.
  */
  lemma PreparedExactly(accounts: seq<Account>, wallet: Address, payer: Address, destination: Address,
                        gaslessFee: int, minimumPayout: int, estimatedFee: Option<int>, exactFee: Option<int>,
                        prepared: Prepared)
    ensures PrepareClaim(accounts, wallet, payer, destination, gaslessFee, minimumPayout, estimatedFee, exactFee)
            == Ok(prepared) <==>
            && payer != destination && 1 <= |accounts| <= 10 && Distinct(Addresses(accounts))
            && estimatedFee.Some? && exactFee == estimatedFee && estimatedFee.value >= 37_500
            && 0 <= gaslessFee <= 9_007_199_254_740_991
            && 0 <= gaslessFee + estimatedFee.value <= 9_007_199_254_740_991
            && Gross(accounts) - gaslessFee - estimatedFee.value >= minimumPayout
            && prepared == Prepared(
                 Transaction(payer, Closes(accounts, wallet)
                                    + [Transfer(wallet, destination, gaslessFee + estimatedFee.value)]),
                 estimatedFee.value, Gross(accounts) - gaslessFee - estimatedFee.value)
  {
    SetSizeFindsDuplicates(accounts);
  }

  /** The ledger a claim that runs leaves behind. */
  function Settled(l: Ledger, accounts: seq<Account>, wallet: Address, payer: Address, destination: Address,
                   settlement: int, fee: int): Ledger
  {
    var closed := Closed(l[payer := Balance(l, payer) - fee], accounts, wallet);
    var left := closed[wallet := Balance(closed, wallet) - settlement];
    left[destination := Balance(left, destination) + settlement]
  }

  lemma ChargedHolds(l: Ledger, accounts: seq<Account>, payer: Address, fee: int)
    requires Holds(l, accounts) && payer !in AddressSet(accounts)
    ensures Holds(l[payer := Balance(l, payer) - fee], accounts)
  {
    assert forall a | a in accounts :: a.address in AddressSet(accounts);
  }

  lemma ClaimRuns(l: Ledger, accounts: seq<Account>, wallet: Address, payer: Address, destination: Address,
                  settlement: int, fee: int)
    requires accounts != [] && Distinct(Addresses(accounts)) && Parties(accounts, wallet, payer, destination)
    requires Holds(l, accounts) && Balance(l, payer) >= fee && settlement >= 0
    ensures Execute(l, ClaimTransaction(accounts, wallet, payer, destination, settlement), fee)
         == if Balance(l, wallet) + Gross(accounts) < settlement then None
            else Some(Settled(l, accounts, wallet, payer, destination, settlement, fee))
  {
    var charged := l[payer := Balance(l, payer) - fee];
    ChargedHolds(l, accounts, payer, fee);
    ClosesRun(charged, accounts, wallet);
    var transfer := Transfer(wallet, destination, settlement);
    RunConcat(charged, Closes(accounts, wallet), [transfer]);
    RunOne(Closed(charged, accounts, wallet), transfer);
  }

  lemma SettledBalances(l: Ledger, accounts: seq<Account>, wallet: Address, payer: Address, destination: Address,
                        settlement: int, fee: int)
    requires Parties(accounts, wallet, payer, destination) && payer != destination
    ensures
      var after := Settled(l, accounts, wallet, payer, destination, settlement, fee);
      && Reconciles(l, after, accounts, wallet, payer, destination, settlement - fee, fee, Gross(accounts) - settlement)
      && forall a | a !in AddressSet(accounts) + {wallet, payer, destination} :: Balance(after, a) == Balance(l, a)
  {
    assert forall a | a in accounts :: a.address in AddressSet(accounts);
  }

  /** Lamports that move from one balance to another stay on the ledger. */
  lemma MovedSum(l: Ledger, source: Address, destination: Address, amount: int)
    ensures var left := l[source := Balance(l, source) - amount];
            SumOf(left[destination := Balance(left, destination) + amount]) == SumOf(l)
  {
    var left := l[source := Balance(l, source) - amount];
    SumSet(l, source, Balance(l, source) - amount);
    SumSet(left, destination, Balance(left, destination) + amount);
  }

  lemma SettledSum(l: Ledger, accounts: seq<Account>, wallet: Address, payer: Address, destination: Address,
                   settlement: int, fee: int)
    requires Distinct(Addresses(accounts)) && Parties(accounts, wallet, payer, destination)
    requires Holds(l, accounts)
    ensures SumOf(Settled(l, accounts, wallet, payer, destination, settlement, fee)) == SumOf(l) - fee
  {
    ChargedSum(l, accounts, wallet, payer, fee);
    MovedSum(Closed(l[payer := Balance(l, payer) - fee], accounts, wallet), wallet, destination, settlement);
  }

  lemma ChargedSum(l: Ledger, accounts: seq<Account>, wallet: Address, payer: Address, fee: int)
    requires Holds(l, accounts) && Distinct(Addresses(accounts))
    requires wallet !in AddressSet(accounts) && payer !in AddressSet(accounts)
    ensures SumOf(Closed(l[payer := Balance(l, payer) - fee], accounts, wallet)) == SumOf(l) - fee
  {
    ChargedHolds(l, accounts, payer, fee);
    SumSet(l, payer, Balance(l, payer) - fee);
    ClosedSum(l[payer := Balance(l, payer) - fee], accounts, wallet);
  }

  lemma RunOne(l: Ledger, i: Instruction)
    ensures Run(l, [i]) == Step(l, i)
  {
    assert [i][1..] == [];
    if Step(l, i).Some? {
      assert Run(Step(l, i).value, []) == Step(l, i);
    }
  }

  lemma {:induction false} RemovedSum(l: Ledger, accounts: seq<Account>)
    requires Holds(l, accounts) && Distinct(Addresses(accounts))
    ensures SumOf(l - AddressSet(accounts)) == SumOf(l) - Gross(accounts)
    decreases |accounts|
  {
    if accounts == [] {
      assert l - AddressSet(accounts) == l;
    } else {
      var first, rest := accounts[0], accounts[1..];
      assert first in accounts;
      FirstIsAlone(accounts);
      SumRemove(l, first.address);
      RemovedSum(l - {first.address}, rest);
      GrossOfFirst(first, rest);
      assert accounts == [first] + rest;
      RemovedFirst(l, first, rest);
    }
  }

  lemma ClosedSum(l: Ledger, accounts: seq<Account>, wallet: Address)
    requires Holds(l, accounts) && Distinct(Addresses(accounts)) && wallet !in AddressSet(accounts)
    ensures SumOf(Closed(l, accounts, wallet)) == SumOf(l)
  {
    RemovedSum(l, accounts);
    SumSet(l - AddressSet(accounts), wallet, Balance(l, wallet) + Gross(accounts));
  }

  /** With the positive minimum payout the engine insists on, even a wallet holding nothing is never overdrawn. */
  lemma EmptyWalletSettles(l: Ledger, accounts: seq<Account>, wallet: Address, payer: Address, destination: Address,
                           gaslessFee: int, policy: ClaimPolicy, fee: int, prepared: Prepared)
    requires policy.Accepts(wallet) && destination == policy.feeDestination
    requires PrepareClaim(accounts, wallet, payer, destination, gaslessFee, policy.minimumPayout, Some(fee), Some(fee))
        == Ok(prepared)
    requires wallet != payer && wallet !in AddressSet(accounts) && payer !in AddressSet(accounts)
        && destination !in AddressSet(accounts)
    requires Holds(l, accounts) && Balance(l, payer) >= fee && Balance(l, wallet) == 0
    ensures Execute(l, prepared.transaction, fee).Some?
    ensures Balance(Execute(l, prepared.transaction, fee).value, wallet) == prepared.net >= 1
  {
    ClaimSettles(l, accounts, wallet, payer, destination, gaslessFee, policy.minimumPayout, fee, prepared);
  }
}
