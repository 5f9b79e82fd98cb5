/**
  Settlement of a Send or a Swap in one token: the transfers the transaction carries, run on the balances of
  that token, against the balance changes reconciliation looks for.
*/
module TokenSettlement {
  import opened Wrappers
  import opened Balances
  import opened Sums
  import Economics = SendEconomics
  import Quote = SwapQuote

  /** Transfers of one mint. */
  datatype Transfer = Transfer(destination: Address, amount: nat)

  /** One transfer out of the source; the token program refuses to overdraw. */
  function Move(l: Ledger, source: Address, t: Transfer): Option<Ledger> {
    if Balance(l, source) < t.amount then None
    else
      var debited := l[source := Balance(l, source) - t.amount];
      Some(debited[t.destination := Balance(debited, t.destination) + t.amount])
  }

  function Execute(l: Ledger, source: Address, transfers: seq<Transfer>): Option<Ledger>
    decreases |transfers|
  {
    if transfers == [] then Some(l)
    else
      var moved := Move(l, source, transfers[0]);
      if moved.None? then None else Execute(moved.value, source, transfers[1..])
  }

  function Total(transfers: seq<Transfer>): nat {
    if transfers == [] then 0 else transfers[0].amount + Total(transfers[1..])
  }

  /** The summed share of an address, over all transfers to it. */
  function CreditTo(transfers: seq<Transfer>, a: Address): nat {
    if transfers == [] then 0
    else (if transfers[0].destination == a then transfers[0].amount else 0) + CreditTo(transfers[1..], a)
  }

  ghost function Destinations(transfers: seq<Transfer>): set<Address> {
    set t | t in transfers :: t.destination
  }

  lemma {:induction false} CreditOfPrefix(transfers: seq<Transfer>, n: nat, a: Address)
    requires n < |transfers|
    ensures CreditTo(transfers[..n + 1], a)
         == CreditTo(transfers[..n], a) + (if transfers[n].destination == a then transfers[n].amount else 0)
  {
    var more, less := transfers[..n + 1], transfers[..n];
    if n == 0 {
      assert more[1..] == [];
    } else {
      CreditOfPrefix(transfers[1..], n - 1, a);
      assert more[1..] == transfers[1..][..n];
      assert less[1..] == transfers[1..][..n - 1];
    }
  }

  // ---------------------------------------------------------------- what reconciliation expects

  /** The map `reconcile` fills: one entry for each address, with the values of coinciding addresses added up. */
  method ExpectedDeltas(transfers: seq<Transfer>) returns (expected: map<Address, int>)
    ensures expected.Keys == Destinations(transfers)
    ensures forall a | a in expected :: expected[a] == CreditTo(transfers, a)
  {
    expected := map[];
    var i := 0;
    while i < |transfers|
      invariant 0 <= i <= |transfers|
      invariant expected.Keys == Destinations(transfers[..i])
      invariant forall a | a in expected :: expected[a] == CreditTo(transfers[..i], a)
      invariant forall a | a !in expected :: CreditTo(transfers[..i], a) == 0
    {
      var t := transfers[i];
      forall a
        ensures CreditTo(transfers[..i + 1], a)
             == CreditTo(transfers[..i], a) + (if t.destination == a then t.amount else 0)
      {
        CreditOfPrefix(transfers, i, a);
      }
      assert transfers[..i + 1] == transfers[..i] + [t];
      var soFar := if t.destination in expected then expected[t.destination] else 0;
      expected := expected[t.destination := soFar + t.amount];
      i := i + 1;
    }
    assert transfers[..i] == transfers;
  }

  /** The token part of the check: the source lost the total and every expected address gained its share. */
  ghost predicate Reconciles(before: Ledger, after: Ledger, source: Address, total: int, transfers: seq<Transfer>) {
    && Delta(before, after, source) == -total
    && forall a | a in Destinations(transfers) :: Delta(before, after, a) == CreditTo(transfers, a)
  }

  /** The token part of `reconcile`, run on the balances before and after. */
  method TokenMatches(before: Ledger, after: Ledger, source: Address, total: int, transfers: seq<Transfer>)
      returns (ok: bool)
    ensures ok <==> Reconciles(before, after, source, total, transfers)
  {
    var expected := ExpectedDeltas(transfers);
    ok := Delta(before, after, source) == -total && forall a | a in expected :: Delta(before, after, a) == expected[a];
    assert forall a | a in Destinations(transfers) :: a in expected;
  }

  // ---------------------------------------------------------------- what execution does

  /** Every balance moves by its credits less, for the source, the total: also where addresses coincide. */
  lemma {:induction false} ExecutionDeltas(l: Ledger, source: Address, transfers: seq<Transfer>, a: Address)
    requires Execute(l, source, transfers).Some?
    ensures Delta(l, Execute(l, source, transfers).value, a)
         == CreditTo(transfers, a) - (if a == source then Total(transfers) else 0)
    decreases |transfers|
  {
    if transfers != [] {
      ExecutionDeltas(Move(l, source, transfers[0]).value, source, transfers[1..], a);
    }
  }

  /** Transfers away from the source run exactly when it holds their total. */
  lemma {:induction false} RunsIfCovered(l: Ledger, source: Address, transfers: seq<Transfer>)
    requires source !in Destinations(transfers)
    requires Balance(l, source) >= 0
    ensures Execute(l, source, transfers).Some? <==> Balance(l, source) >= Total(transfers)
    decreases |transfers|
  {
    if transfers != [] {
      assert transfers[0] in transfers;
      assert forall t | t in transfers[1..] :: t in transfers;
      var moved := Move(l, source, transfers[0]);
      if moved.Some? {
        RunsIfCovered(moved.value, source, transfers[1..]);
      }
    }
  }

  /** Nothing is minted or burned. */
  lemma {:induction false} SupplyKept(l: Ledger, source: Address, transfers: seq<Transfer>)
    requires Execute(l, source, transfers).Some?
    ensures SumOf(Execute(l, source, transfers).value) == SumOf(l)
    decreases |transfers|
  {
    if transfers != [] {
      var t := transfers[0];
      var debited := l[source := Balance(l, source) - t.amount];
      SumSet(l, source, Balance(l, source) - t.amount);
      SumSet(debited, t.destination, Balance(debited, t.destination) + t.amount);
      SupplyKept(Move(l, source, t).value, source, transfers[1..]);
    }
  }

  lemma {:induction false} ZeroTotal(transfers: seq<Transfer>, a: Address)
    ensures CreditTo(transfers, a) <= Total(transfers)
    ensures a !in Destinations(transfers) ==> CreditTo(transfers, a) == 0
  {
    if transfers != [] {
      assert transfers[0] in transfers;
      assert forall t | t in transfers[1..] :: t in transfers;
      ZeroTotal(transfers[1..], a);
    }
  }

  /**
    The exact condition: an executed list reconciles if and only if the source is not one of its own
    destinations, or nothing was moved at all.
  */
  lemma ReconcilesExactly(l: Ledger, source: Address, transfers: seq<Transfer>)
    requires Execute(l, source, transfers).Some?
    ensures Reconciles(l, Execute(l, source, transfers).value, source, Total(transfers), transfers)
       <==> source !in Destinations(transfers) || Total(transfers) == 0
  {
    var after := Execute(l, source, transfers).value;
    forall a ensures Delta(l, after, a) == CreditTo(transfers, a) - (if a == source then Total(transfers) else 0) {
      ExecutionDeltas(l, source, transfers, a);
    }
    ZeroTotal(transfers, source);
  }

  lemma NeverNegative(sponsored: int, decimals: int, sol: int, token: int, bufferBps: int, result: int)
    requires Economics.CalculateSponsorReimbursement(sponsored, decimals, sol, token, bufferBps) == Ok(result)
    ensures result >= 0
  {
    Economics.ReimbursementBounds(sponsored, decimals, sol, token, bufferBps, result);
  }

  lemma TotalOfPair(t: Transfer, u: Transfer)
    ensures Total([t, u]) == t.amount + u.amount
  {
    assert [t, u][1..] == [u];
    assert Total([u]) == u.amount + Total([]) by {
      assert [u][1..] == [];
    }
  }

  // ---------------------------------------------------------------- Send

  datatype SendAccounts = SendAccounts(source: Address, destination: Address, reimbursement: Address,
                                       serviceFee: Address)

  /** The three transfers of `buildSendTransaction`, in their order. */
  function SendTransfers(accounts: SendAccounts, t: Economics.SendTerms): seq<Transfer>
    requires t.recipientAmount >= 0 && t.reimbursement >= 0 && t.serviceFee >= 0
  {
    [ Transfer(accounts.destination, t.recipientAmount),
      Transfer(accounts.reimbursement, t.reimbursement),
      Transfer(accounts.serviceFee, t.serviceFee) ]
  }

  /** The engine refuses a settlement account as source; a recipient other than the sender has its own account. */
  predicate SourceSeparate(accounts: SendAccounts) {
    accounts.source !in [accounts.destination, accounts.reimbursement, accounts.serviceFee]
  }

  /**
    A prepared Send runs exactly on the ledgers that hold its total debit, which the engine checks again before
    it submits, whichever destinations coincide; the outcome is the one reconciliation confirms: the recipient
    has the amount sent, the relayer its reimbursement, the service its fee, and the sender paid the total.
  */
  lemma SendSettles(l: Ledger, accounts: SendAccounts, t: Economics.SendTerms, request: Economics.SendRequest,
                    rates: Economics.SendRates, networkFee: int, ataRent: int)
    requires Economics.TermsHonour(t, request, rates, networkFee, ataRent)
    requires SourceSeparate(accounts)
    requires Balance(l, accounts.source) >= 0
    ensures t.reimbursement >= 0 && t.serviceFee >= 0
    ensures var transfers := SendTransfers(accounts, t);
      var after := Execute(l, accounts.source, transfers);
      && (after.Some? <==> Balance(l, accounts.source) >= t.total)
      && (after.Some? ==>
          Reconciles(l, after.value, accounts.source, t.total, transfers) && SumOf(after.value) == SumOf(l))
    ensures var after := Execute(l, accounts.source, SendTransfers(accounts, t));
      after.Some? ==> forall a ::
        Delta(l, after.value, a)
        == (if a == accounts.destination then t.recipientAmount else 0)
           + (if a == accounts.reimbursement then t.reimbursement else 0)
           + (if a == accounts.serviceFee then t.serviceFee else 0)
           - (if a == accounts.source then t.total else 0)
  {
    NeverNegative(t.sponsored, rates.fee.decimals, rates.solUsdPriceMicros, rates.fee.tokenUsdPriceMicros,
                  rates.bufferBps, t.reimbursement);
    var transfers := SendTransfers(accounts, t);
    TotalOfPair(transfers[1], transfers[2]);
    assert transfers[1..] == [transfers[1], transfers[2]];
    SettlesAwayFromSource(l, accounts.source, transfers);
    if Execute(l, accounts.source, transfers).Some? {
      forall a ensures Delta(l, Execute(l, accounts.source, transfers).value, a)
                    == (if a == accounts.destination then t.recipientAmount else 0)
                       + (if a == accounts.reimbursement then t.reimbursement else 0)
                       + (if a == accounts.serviceFee then t.serviceFee else 0)
                       - (if a == accounts.source then t.total else 0)
      {
        TripleDeltas(l, accounts.source, transfers[0], transfers[1], transfers[2], a);
      }
    }
  }

  /** What two and three transfers move, account by account. */
  lemma PairDeltas(l: Ledger, source: Address, t: Transfer, u: Transfer, a: Address)
    requires Execute(l, source, [t, u]).Some?
    ensures Delta(l, Execute(l, source, [t, u]).value, a)
         == (if a == t.destination then t.amount else 0) + (if a == u.destination then u.amount else 0)
            - (if a == source then t.amount + u.amount else 0)
  {
    ExecutionDeltas(l, source, [t, u], a);
    TotalOfPair(t, u);
    assert [t, u][1..] == [u] && [u][1..] == [];
    assert CreditTo([u], a) == (if u.destination == a then u.amount else 0) + CreditTo([u][1..], a);
  }

  lemma TripleDeltas(l: Ledger, source: Address, s: Transfer, t: Transfer, u: Transfer, a: Address)
    requires Execute(l, source, [s, t, u]).Some?
    ensures Delta(l, Execute(l, source, [s, t, u]).value, a)
         == (if a == s.destination then s.amount else 0) + (if a == t.destination then t.amount else 0)
            + (if a == u.destination then u.amount else 0)
            - (if a == source then s.amount + t.amount + u.amount else 0)
  {
    assert [s, t, u][1..] == [t, u];
    var moved := Move(l, source, s).value;
    PairDeltas(moved, source, t, u, a);
    assert Execute(moved, source, [t, u]) == Execute(l, source, [s, t, u]);
  }

  lemma SettlesAwayFromSource(l: Ledger, source: Address, transfers: seq<Transfer>)
    requires source !in Destinations(transfers) && Balance(l, source) >= 0
    ensures
      var after := Execute(l, source, transfers);
      && (after.Some? <==> Balance(l, source) >= Total(transfers))
      && (after.Some? ==>
          Reconciles(l, after.value, source, Total(transfers), transfers) && SumOf(after.value) == SumOf(l))
  {
    RunsIfCovered(l, source, transfers);
    if Execute(l, source, transfers).Some? {
      ReconcilesExactly(l, source, transfers);
      SupplyKept(l, source, transfers);
    }
  }

  // ---------------------------------------------------------------- Swap

  function SwapTransfers(reimbursement: Address, serviceFee: Address, t: Quote.SwapTerms): seq<Transfer>
    requires t.reimbursement >= 0 && t.serviceFee >= 0
  {
    [Transfer(reimbursement, t.reimbursement), Transfer(serviceFee, t.serviceFee)]
  }

  /**
    What the routed swap is expected to do to the input token: take the routed input, and leave the other settlement
    accounts alone.
  */
  ghost predicate Routed(before: Ledger, after: Ledger, source: Address, settlement: set<Address>, amount: int) {
    && Delta(before, after, source) == -amount
    && forall a | a in settlement && a != source :: Delta(before, after, a) == 0
  }

  /** Transfers that follow a route reconcile with the total exactly when the source is none of their destinations. */
  lemma RoutedReconcilesExactly(before: Ledger, routed: Ledger, source: Address, transfers: seq<Transfer>,
                                routedInput: int)
    requires routedInput > 0 && Routed(before, routed, source, Destinations(transfers), routedInput)
    requires Execute(routed, source, transfers).Some?
    ensures Reconciles(before, Execute(routed, source, transfers).value, source, routedInput + Total(transfers),
                       transfers)
       <==> source !in Destinations(transfers)
  {
    var after := Execute(routed, source, transfers).value;
    forall a ensures Delta(routed, after, a) == CreditTo(transfers, a) - (if a == source then Total(transfers) else 0) {
      ExecutionDeltas(routed, source, transfers, a);
    }
    ZeroTotal(transfers, source);
  }

  lemma PairFacts(t: Transfer, u: Transfer)
    ensures Destinations([t, u]) == {t.destination, u.destination}
    ensures Total([t, u]) == t.amount + u.amount
  {
    TotalOfPair(t, u);
    assert [t, u][0] == t && [t, u][1] == u;
  }

  lemma PairReconciles(before: Ledger, routed: Ledger, source: Address, t: Transfer, u: Transfer, routedInput: int)
    requires routedInput > 0 && Execute(routed, source, [t, u]).Some?
    requires Routed(before, routed, source, {t.destination, u.destination}, routedInput)
    ensures Reconciles(before, Execute(routed, source, [t, u]).value, source, routedInput + t.amount + u.amount, [t, u])
       <==> source !in {t.destination, u.destination}
  {
    PairFacts(t, u);
    RoutedReconcilesExactly(before, routed, source, [t, u], routedInput);
  }

  lemma PairRuns(routed: Ledger, source: Address, t: Transfer, u: Transfer)
    requires source !in {t.destination, u.destination} && Balance(routed, source) >= 0
    ensures Execute(routed, source, [t, u]).Some? <==> Balance(routed, source) >= t.amount + u.amount
  {
    PairFacts(t, u);
    RunsIfCovered(routed, source, [t, u]);
  }

  /**
    A balanced swap quote, routed: what it runs reconciles with the total input if and only if the source is
    neither settlement account, and away from them it runs exactly when the source held the total input. Then
    the two accounts have gained their shares, and the source paid what was not routed.
  */
  lemma SwapSettles(before: Ledger, routed: Ledger, source: Address, reimbursement: Address, serviceFee: Address,
                    t: Quote.SwapTerms, q: Quote.SwapRequest)
    requires Quote.Balanced(t, q)
    requires Balance(routed, source) >= 0
    requires Routed(before, routed, source, {reimbursement, serviceFee}, t.routedInput)
    ensures t.reimbursement >= 0 && t.serviceFee >= 0
    ensures var transfers := SwapTransfers(reimbursement, serviceFee, t);
      var after := Execute(routed, source, transfers);
      && (after.Some? ==>
            (Reconciles(before, after.value, source, q.totalInput, transfers)
             <==> source != reimbursement && source != serviceFee))
      && (source != reimbursement && source != serviceFee ==>
          (after.Some? <==> Balance(before, source) >= q.totalInput))
    ensures var after := Execute(routed, source, SwapTransfers(reimbursement, serviceFee, t));
      after.Some? ==> forall a ::
        Delta(routed, after.value, a)
        == (if a == reimbursement then t.reimbursement else 0) + (if a == serviceFee then t.serviceFee else 0)
           - (if a == source then q.totalInput - t.routedInput else 0)
  {
    NeverNegative(t.sponsoredCost, q.decimals, q.solUsdPriceMicros, q.tokenUsdPriceMicros, q.bufferBps,
                  t.reimbursement);
    var x, y := Transfer(reimbursement, t.reimbursement), Transfer(serviceFee, t.serviceFee);
    if Execute(routed, source, [x, y]).Some? {
      PairReconciles(before, routed, source, x, y, t.routedInput);
      forall a ensures Delta(routed, Execute(routed, source, [x, y]).value, a)
                    == (if a == reimbursement then t.reimbursement else 0)
                        + (if a == serviceFee then t.serviceFee else 0)
                       - (if a == source then q.totalInput - t.routedInput else 0)
      {
        PairDeltas(routed, source, x, y, a);
      }
    }
    if source != reimbursement && source != serviceFee {
      PairRuns(routed, source, x, y);
    }
  }
}
