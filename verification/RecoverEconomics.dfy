/**
  What Recover Value checks on a landed transaction, twice: from the quote after a submit
  (server/recover/engine.ts, reconcile) and from the durable record (reconcileDurableSubmission).
*/
module RecoverEconomics {
  import opened Wrappers
  import opened Sequences

  /** An account of the transaction, with its lamports before and after. */
  datatype Change = Change(account: string, before: int, after: int)

  /** A transaction found on chain, and whether the token and wrapped-SOL accounts are gone by now. */
  datatype Landing = Landing(failed: bool, fee: int, changes: seq<Change>, sourceGone: bool, wrappedGone: bool)

  /** What a landed transaction did. Unlike the two accounts, which may come and go, this never changes. */
  datatype Figures = Figures(failed: bool, fee: int, changes: seq<Change>)

  function FiguresOf(l: Landing): Figures {
    Figures(l.failed, l.fee, l.changes)
  }

  /** The landing as it reads once both accounts are gone. */
  function Closed(f: Figures): Landing {
    Landing(f.failed, f.fee, f.changes, true, true)
  }

  /** The figures of a quote once it is prepared. */
  datatype QuoteTerms = QuoteTerms(
    wallet: string, feeDestination: string, feePayer: string, networkFee: int, temporaryRent: int,
    swapFee: int, rentFee: int, minimumPayout: int)

  /** The same figures as the durable record keeps them. */
  datatype RecordTerms = RecordTerms(
    wallet: string, feeDestination: string, relayer: string, networkFee: int, temporaryRent: int,
    swapFee: int, rentFee: int, netUser: int)

  /** The record `prepare` writes for a quote. */
  function RecordOf(q: QuoteTerms): RecordTerms {
    RecordTerms(q.wallet, q.feeDestination, q.feePayer, q.networkFee, q.temporaryRent, q.swapFee, q.rentFee,
                q.minimumPayout)
  }

  /** The change of the first entry of an account, if it has one. */
  function Delta(changes: seq<Change>, account: string): Option<int> {
    if changes == [] then None
    else if changes[0].account == account then Some(changes[0].after - changes[0].before)
    else Delta(changes[1..], account)
  }

  predicate QuoteConfirms(q: QuoteTerms, l: Landing) {
    var sponsored := q.networkFee + q.temporaryRent;
    var settlement := q.swapFee + q.rentFee + sponsored;
    var userDelta := Delta(l.changes, q.wallet);
    var matches := && l.fee == q.networkFee
                   && userDelta.Some? && userDelta.value >= q.minimumPayout
                   && Delta(l.changes, q.feeDestination) == Some(settlement)
                   && Delta(l.changes, q.feePayer) == Some(-sponsored);
    l.sourceGone && l.wrappedGone && matches
  }

  predicate RecordConfirms(r: RecordTerms, l: Landing) {
    var sponsored := r.networkFee + r.temporaryRent;
    var settlement := r.swapFee + r.rentFee + sponsored;
    var userDelta := Delta(l.changes, r.wallet);
    && l.fee == r.networkFee
    && userDelta.Some? && userDelta.value >= r.netUser
    && Delta(l.changes, r.feeDestination) == Some(settlement)
    && Delta(l.changes, r.relayer) == Some(-sponsored)
    && l.sourceGone && l.wrappedGone
  }

  /** The two reconcilers reach one verdict on one landing. */
  lemma ReconcilersAgree(q: QuoteTerms, l: Landing)
    ensures QuoteConfirms(q, l) <==> RecordConfirms(RecordOf(q), l)
  {
  }

  predicate FirstAt(changes: seq<Change>, account: string, i: nat) {
    && i < |changes| && changes[i].account == account
    && forall j | 0 <= j < i :: changes[j].account != account
  }

  /** The first entry of the account changes by `d`. */
  ghost predicate ChangesBy(changes: seq<Change>, account: string, d: int) {
    exists i: nat :: FirstAt(changes, account, i) && changes[i].after - changes[i].before == d
  }

  lemma {:induction false} DeltaAt(changes: seq<Change>, account: string, i: nat)
    requires FirstAt(changes, account, i)
    ensures Delta(changes, account) == Some(changes[i].after - changes[i].before)
  {
    if i > 0 {
      assert changes[0].account != account;
      DeltaAt(changes[1..], account, i - 1);
    }
  }

  lemma {:induction false} FirstExists(changes: seq<Change>, account: string) returns (i: nat)
    requires Delta(changes, account).Some?
    ensures FirstAt(changes, account, i)
  {
    if changes[0].account == account {
      i := 0;
    } else {
      i := FirstExists(changes[1..], account);
      i := i + 1;
    }
  }

  lemma DeltaIsFirstChange(changes: seq<Change>, account: string, d: int)
    ensures Delta(changes, account) == Some(d) <==> ChangesBy(changes, account, d)
  {
    if Delta(changes, account).Some? {
      var i := FirstExists(changes, account);
      DeltaAt(changes, account, i);
    }
    if ChangesBy(changes, account, d) {
      var i: nat :| FirstAt(changes, account, i) && changes[i].after - changes[i].before == d;
      DeltaAt(changes, account, i);
    }
  }

  /**
    When a landing confirms: the network took the quoted fee, the user gained at least the minimum, the fee
    destination gained the two service fees and the sponsor's advance, the sponsor paid exactly that advance,
    and both accounts are gone.
  */
  ghost predicate Pays(r: RecordTerms, l: Landing) {
    && l.fee == r.networkFee
    && (exists gain :: gain >= r.netUser && ChangesBy(l.changes, r.wallet, gain))
    && ChangesBy(l.changes, r.feeDestination, r.swapFee + r.rentFee + r.networkFee + r.temporaryRent)
    && ChangesBy(l.changes, r.relayer, -(r.networkFee + r.temporaryRent))
    && l.sourceGone && l.wrappedGone
  }

  /** A record is confirmed by exactly the landings that pay it, and a quote by those that pay its figures. */
  lemma ConfirmsExactly(r: RecordTerms, l: Landing)
    ensures RecordConfirms(r, l) <==> Pays(r, l)
    ensures forall q: QuoteTerms ::
              r == RecordTerms(q.wallet, q.feeDestination, q.feePayer, q.networkFee, q.temporaryRent, q.swapFee,
                               q.rentFee, q.minimumPayout) ==>
                r == RecordOf(q) && (QuoteConfirms(q, l) <==> Pays(r, l))
  {
    forall d: int, account: string
      ensures Delta(l.changes, account) == Some(d) <==> ChangesBy(l.changes, account, d)
    {
      DeltaIsFirstChange(l.changes, account, d);
    }
    var user := Delta(l.changes, r.wallet);
    if user.Some? {
      assert ChangesBy(l.changes, r.wallet, user.value);
    }
  }

  /** The transaction has landed without an error, and its figures are those of the record. */
  predicate FiguresConfirm(r: RecordTerms, onChain: Option<Figures>) {
    onChain.Some? && !onChain.value.failed && RecordConfirms(r, Closed(onChain.value))
  }

  /** The summed change over the accounts of a transaction. */
  function NetChange(changes: seq<Change>): int {
    if changes == [] then 0 else changes[0].after - changes[0].before + NetChange(changes[1..])
  }

  function Accounts(changes: seq<Change>): (accounts: seq<string>)
    ensures |accounts| == |changes|
    ensures forall i | 0 <= i < |changes| :: accounts[i] == changes[i].account
  {
    seq(|changes|, i requires 0 <= i < |changes| => changes[i].account)
  }

  /** The accounts other than the three that reconciliation looks at. */
  function Others(changes: seq<Change>, parties: set<string>): seq<Change> {
    if changes == [] then []
    else (if changes[0].account in parties then [] else [changes[0]]) + Others(changes[1..], parties)
  }

  function DeltaOrZero(changes: seq<Change>, account: string): int {
    var d := Delta(changes, account);
    if d.Some? then d.value else 0
  }

  lemma {:induction false} DeltaAbsent(changes: seq<Change>, account: string)
    requires forall i | 0 <= i < |changes| :: changes[i].account != account
    ensures Delta(changes, account).None?
  {
    if changes != [] {
      DeltaAbsent(changes[1..], account);
    }
  }

  lemma DeltaFirst(changes: seq<Change>, account: string)
    requires changes != [] && Distinct(Accounts(changes))
    ensures Distinct(Accounts(changes[1..]))
    ensures DeltaOrZero(changes, account) ==
              (if changes[0].account == account then changes[0].after - changes[0].before else 0)
                  + DeltaOrZero(changes[1..], account)
  {
    if changes[0].account == account {
      assert forall i | 0 <= i < |changes| - 1 :: changes[1..][i] == changes[i + 1];
      DeltaAbsent(changes[1..], account);
    }
  }

  lemma OthersFirst(changes: seq<Change>, parties: set<string>)
    requires changes != []
    ensures NetChange(Others(changes, parties)) ==
              (if changes[0].account in parties then 0 else changes[0].after - changes[0].before)
                  + NetChange(Others(changes[1..], parties))
  {
    var rest := Others(changes[1..], parties);
    assert ([changes[0]] + rest)[1..] == rest;
    assert [] + rest == rest;
  }

  /** Three distinct parties and the rest make up the whole change. */
  lemma {:induction false} NetSplits(changes: seq<Change>, a: string, b: string, c: string)
    requires Distinct(Accounts(changes)) && a != b && a != c && b != c
    ensures NetChange(changes) == DeltaOrZero(changes, a) + DeltaOrZero(changes, b) + DeltaOrZero(changes, c)
                                  + NetChange(Others(changes, {a, b, c}))
  {
    if changes != [] {
      var first, rest := changes[0], changes[1..];
      DeltaFirst(changes, a);
      DeltaFirst(changes, b);
      DeltaFirst(changes, c);
      NetSplits(rest, a, b, c);
      OthersFirst(changes, {a, b, c});
    }
  }

  /**
    What a confirmed landing means for the money, given that a transaction only moves lamports and loses its
    fee: the remaining accounts (the token account, the wrapped-SOL account and the route) gave up exactly the
    user's gain, the two service fees and the network fee. The sponsor's advance comes back in full.
  */
  lemma ConfirmedLandingPays(q: QuoteTerms, l: Landing)
    requires QuoteConfirms(q, l) && PartiesDiffer(q)
    requires Distinct(Accounts(l.changes)) && NetChange(l.changes) == -l.fee
    ensures var userGain := DeltaOrZero(l.changes, q.wallet);
            && userGain >= q.minimumPayout
            && NetChange(Others(l.changes, {q.wallet, q.feeDestination, q.feePayer}))
                  == -(userGain + q.swapFee + q.rentFee + q.networkFee)
  {
    NetSplits(l.changes, q.wallet, q.feeDestination, q.feePayer);
  }

  predicate PartiesDiffer(q: QuoteTerms) {
    q.wallet != q.feeDestination && q.wallet != q.feePayer && q.feeDestination != q.feePayer
  }
}
