/** What the calls of the Recover engine come to when every awaited write returns. */
module RecoverCompletion {
  import opened Wrappers
  import opened CleanSubmission
  import opened RecoverEconomics
  import opened RecoverLifecycle
  import opened RecoverOutcomes

  /** Seen as a success, found without an error, and it pays the record. */
  ghost predicate Paid(r: Record, outcome: CleanOutcome, chain: Chain) {
    outcome == ConfirmedSuccess && chain.Found? && !chain.landing.failed && Pays(r.terms, chain.landing)
  }

  /** Seen as expired or failed, or found and not paying the record. */
  ghost predicate Lost(r: Record, outcome: CleanOutcome, chain: Chain) {
    || outcome == Expired || outcome == ConfirmedChainError
    || (outcome == ConfirmedSuccess && chain.Found? && !Paid(r, outcome, chain))
  }

  /** The releases before a call, and one more when the record is sponsored and `ended`. */
  ghost predicate ReleasedOnce(s: State, t: State, ended: bool) {
    t.history.releases == s.history.releases
                        + if ended && s.record.Some? && s.record.value.sponsored
                          then [Release(t.history.broadcast, t.history.conclusive)] else []
  }

  /**
    A status call on a submitted, signed record leaves it reconciled exactly when the transaction is seen as a
    success and its landing pays the record, failed exactly when it is lost, and open otherwise. A sponsored
    exposure is released once as the record closes.
  */
  lemma StatusOutcome(s: State, outcome: CleanOutcome, chain: Chain)
    requires s.record.Some? && s.record.value.status == Submitted && s.record.value.signature.Some?
    ensures var t, r := CallSpec(s, SmoothReconcile(outcome, chain)), s.record.value;
      && t.record == Some(r.(status := if Paid(r, outcome, chain) then Reconciled
                                       else if Lost(r, outcome, chain) then Failed else Submitted))
      && t.quote == s.quote
      && ReleasedOnce(s, t, Paid(r, outcome, chain) || Lost(r, outcome, chain))
  {
    if chain.Found? {
      ConfirmsExactly(s.record.value.terms, chain.landing);
    }
  }

  /** Before there is a signature a status call fails the record exactly when every height is past its lifetime. */
  lemma UnsignedStatusOutcome(s: State, heights: Option<bool>, w: ReconcileWorld)
    requires s.record.Some? && s.record.value.status !in {Submitted, Reconciled, Failed}
    requires w.heights == heights && w.fail == SMOOTH_FAIL
    ensures var t, ended := CallSpec(s, ReconcileStatus(w)), heights == Some(true);
      && t.record == Some(if ended then s.record.value.(status := Failed) else s.record.value)
      && t.quote == s.quote && ReleasedOnce(s, t, ended)
  {
  }

  /** Giving a quote up ends a record that nothing was signed for, in every status but relaying, and no other. */
  lemma AbortOutcome(s: State)
    requires s.record.Some?
    ensures var t, r := CallSpec(s, AbortUnsigned(true, SMOOTH_CLEANUP)), s.record.value;
      if r.signature.None? && r.status !in {Relaying, Submitted, Reconciled} then
        && t.record == Some(r.(status := Failed)) && ReleasedOnce(s, t, true)
        && t.quote == if s.quote.Some? then Some(s.quote.value.(status := Failed)) else None
      else t == s
    ensures forall w :: CallSpec(s, AbortUnsigned(false, w)) == s
  {
    var r := s.record.value;
    assert r.status == Failed ==> r == r.(status := Failed);
    assert s.history.releases + [] == s.history.releases;
  }

  /** How a submit leaves its quote: closed with its record, or still open. */
  ghost function QuoteSettled(q: Quote, r: Record, outcome: CleanOutcome, chain: Chain): Quote {
    if outcome == ConfirmedSuccess && chain == LookupThrew then q
    else q.(status := if Paid(r, outcome, chain) then Reconciled else if Lost(r, outcome, chain) then Failed
                      else Submitted,
            reconciliation := true)
  }

  /** How it leaves the record: a landing that failed on chain leaves it to the status call. */
  ghost function RecordSettled(r: Record, outcome: CleanOutcome, chain: Chain): Record {
    if Paid(r, outcome, chain) then r.(status := Reconciled)
    else if Lost(r, outcome, chain) && !(outcome == ConfirmedSuccess && chain.landing.failed) then r.(status := Failed)
    else r
  }

  /** From what was observed to the written quote and record, and the release. */
  lemma SettleOutcome(s: State, q: Quote, outcome: CleanOutcome, chain: Chain)
    requires q.prepared.Some? && s.quote == Some(q) && s.record.Some?
    requires s.record.value.terms == RecordOf(q.prepared.value)
    ensures var t, r := Settle(s, q, outcome, Settlement(chain, Returned)), s.record.value;
      && t.quote == Some(QuoteSettled(q, r, outcome, chain))
      && t.record == Some(RecordSettled(r, outcome, chain))
      && t.history.broadcast == s.history.broadcast && t.history.conclusive == s.history.conclusive
      && t.locked == s.locked
      && ReleasedOnce(s, t, || Paid(r, outcome, chain)
                            || ((outcome == Expired || outcome == ConfirmedChainError) && r.status != Failed))
  {
    var r := s.record.value;
    assert r.status == Failed ==> r == r.(status := Failed);
    if chain.Found? {
      ConfirmsExactly(r.terms, chain.landing);
    }
  }

  /**
    A submit that takes a submitted quote up again closes quote and record alike where the status call would:
    reconciled, with one release, exactly when the landing pays. An expired or failed transaction fails both and
    releases, unless the record had failed before. A landing that failed leaves the record to the status call.
  */
  lemma ResumeOutcome(s: State, signing: Signing, rounds: seq<Round>, outcome: CleanOutcome, chain: Chain)
    requires Inv(s) && Resumable(s)
    ensures var t, r := CallSpec(s, SmoothSubmit(signing, rounds, outcome, chain, Returned)), s.record.value;
      && t.quote == Some(QuoteSettled(s.quote.value, r, outcome, chain))
      && t.record == Some(RecordSettled(r, outcome, chain))
      && ReleasedOnce(s, t, || Paid(r, outcome, chain)
                            || ((outcome == Expired || outcome == ConfirmedChainError) && r.status != Failed))
  {
    SettleOutcome(Observed(s, Conclusive(Some(outcome))), s.quote.value, outcome, chain);
  }

  /**
    A first submit of an open quote, whatever its rounds: quote and record carry the signature before anything is
    sent. What the rounds observed then closes them as a resumed submit would, and where the rounds end in an
    exception both stay submitted.
  */
  lemma CrossingOutcome(s: State, signature: string, rounds: seq<Round>, resumed: CleanOutcome, chain: Chain)
    requires Inv(s) && !s.locked && s.quote.Some? && OpenQuote(s.quote.value) && !Resumable(s)
    ensures s.record.Some?
    ensures var t := CallSpec(s, SmoothSubmit(FullySigned(signature), rounds, resumed, chain, Returned));
      var r := s.record.value.(status := Submitted, signature := Some(signature));
      var q := s.quote.value.(status := Submitted, signature := Some(signature));
      var sent := BroadcastSpec(rounds);
      && t.locked && t.history.broadcast == (s.history.broadcast || sent.attempted)
      && (sent.outcome.None? ==>
            t.record == Some(r) && t.quote == Some(q) && t.history.releases == s.history.releases)
      && (sent.outcome.Some? ==>
            && t.record == Some(RecordSettled(r, sent.outcome.value, chain))
            && t.quote == Some(QuoteSettled(q, r, sent.outcome.value, chain))
            && ReleasedOnce(s, t, || Paid(r, sent.outcome.value, chain)
                                  || sent.outcome.value == Expired || sent.outcome.value == ConfirmedChainError))
  {
    var r := s.record.value.(status := Submitted, signature := Some(signature));
    var q := s.quote.value.(status := Submitted, signature := Some(signature));
    var sent := BroadcastSpec(rounds);
    var s1 := State(Some(r), Some(q), true, s.history.(broadcast := s.history.broadcast || sent.attempted));
    if sent.outcome.Some? {
      SettleOutcome(Observed(s1, sent.conclusive), q, sent.outcome.value, chain);
    }
  }

  /** The state after a submit that found its own landing paying. */
  function Completed(terms: QuoteTerms, signature: string, l: Landing): State {
    State(Some(Record(Reconciled, Some(signature), true, RecordOf(terms))),
          Some(Quote(Some(terms), Reconciled, Some(signature), true)), true,
          History(true, true, [Release(true, true)], [l]))
  }

  /** From a fresh quote to the end: prepared, submitted, found paying, reconciled, and released once. */
  lemma PaidRunCompletes(terms: QuoteTerms, signature: string, l: Landing)
    requires !l.failed && Pays(RecordOf(terms), l)
    ensures After(SubmitRun(terms, signature, l, Returned)) == Completed(terms, signature, l)
  {
    ConfirmsExactly(RecordOf(terms), l);
    var run := SubmitRun(terms, signature, l, Returned);
    AfterTwo(run[0], run[1]);
    PrepareRuns(terms);
    SubmitCompletes(terms, signature, l);
  }

  lemma SubmitCompletes(terms: QuoteTerms, signature: string, l: Landing)
    requires !l.failed && QuoteConfirms(terms, l)
    ensures CallSpec(RecoverOutcomes.Prepared(terms),
                     SmoothSubmit(FullySigned(signature), CONFIRMED_ROUNDS, ConfirmedSuccess, Found(l), Returned))
         == Completed(terms, signature, l)
  {
    var submitted := Quote(Some(terms), Submitted, Some(signature), false);
    var s := State(Some(Record(Submitted, Some(signature), true, RecordOf(terms))), Some(submitted), true,
                   History(true, true, [], []));
    assert BroadcastSpec(CONFIRMED_ROUNDS) == Broadcast(true, true, Some(ConfirmedSuccess));
    assert [] + [l] == [l] && [] + [Release(true, true)] == [Release(true, true)];
    assert Settle(s, submitted, ConfirmedSuccess, Settlement(Found(l), Returned)) == Completed(terms, signature, l);
  }

  /** A transaction the payer signed and the wallet's check then refused is released unsent, and both sides fail. */
  lemma RejectedSignatureReleases(terms: QuoteTerms, rounds: seq<Round>, resumed: CleanOutcome, chain: Chain)
    ensures CallSpec(RecoverOutcomes.Prepared(terms),
                     SmoothSubmit(SignedThenRejected, rounds, resumed, chain, Returned))
         == State(Some(Record(Failed, None, true, RecordOf(terms))), Some(Quote(Some(terms), Failed, None, false)),
                  true, History(false, false, [Release(false, false)], []))
  {
    assert [] + [Release(false, false)] == [Release(false, false)];
  }

  // ---------------------------------------------------------------- calls that stop before the end

  /**
    A submit of a prepared, open quote that is not submitted, before the boundary: one that is not admitted, finds
    a lock taken or cannot hand one back leaves everything as it is, and so does any after a crossing. One that
    is refused otherwise ends like giving the quote up.
  */
  lemma SubmitBeforeBoundary(s: State, w: SubmitWorld)
    requires s.record.Some? && s.quote.Some? && OpenQuote(s.quote.value) && !Resumable(s)
    ensures var t := CallSpec(s, Submit(w));
      && (!w.admitted || w.before in {Replayed, HandbackThrew} || (s.locked && w.before == Passes) ==> t == s)
      && (w.admitted && w.before == Refused ==>
            t == CallSpec(s, AbortUnsigned(true, w.cleanup)))
  {
  }

  /** Nothing happens on a quote that is gone, not prepared, failed, or reconciled and signed. */
  lemma SubmitOfClosedQuote(s: State, w: SubmitWorld)
    ensures CallSpec(s, Submit(w)) != s ==>
            && s.quote.Some? && s.quote.value.prepared.Some? && s.quote.value.status != Failed
            && !(s.quote.value.status == Reconciled && s.quote.value.signature.Some? && s.quote.value.reconciliation)
  {
  }

  /** The release is made once it is authorized; it is through when it has returned and is recorded. */
  predicate ReleaseIsMade(r: Record, w: ReleaseWrites) {
    r.sponsored && w.authorized == Returned
  }

  predicate ReleaseIsThrough(r: Record, w: ReleaseWrites) {
    r.sponsored ==> w.authorized == Returned && w.released == Returned && w.recorded == Returned
  }

  /**
    Whatever throws while a status call fails a lost record: the exposure is released first, as soon as the
    event is recorded, and the record only fails once the release is through, so that a later call tries again.
  */
  lemma LostRecordFaults(s: State, w: ReconcileWorld)
    requires s.record.Some? && s.record.value.status == Submitted && s.record.value.signature.Some?
    requires w.observation in {Some(Expired), Some(ConfirmedChainError)} && w.observationRecorded == Returned
    ensures var t, r := CallSpec(s, ReconcileStatus(w)), s.record.value;
      && |t.history.releases| == |s.history.releases|
                                 + (if w.fail.event == Returned && ReleaseIsMade(r, w.fail.release) then 1 else 0)
      && t.record == Some(if && w.fail.event == Returned && ReleaseIsThrough(r, w.fail.release)
                             && w.fail.record != Threw then r.(status := Failed) else r)
  {
  }

  /** The same for a record whose landing pays: accounted for first, then released, then reconciled. */
  lemma PaidRecordFaults(s: State, w: ReconcileWorld)
    requires s.record.Some? && s.record.value.status == Submitted && s.record.value.signature.Some?
    requires w.observation == Some(ConfirmedSuccess) && w.observationRecorded == Returned
    requires Paid(s.record.value, ConfirmedSuccess, w.chain)
    ensures var t, r := CallSpec(s, ReconcileStatus(w)), s.record.value;
      && |t.history.releases| == |s.history.releases|
                                 + (if w.accounting == Returned && ReleaseIsMade(r, w.release) then 1 else 0)
      && t.record == Some(if && w.accounting == Returned && ReleaseIsThrough(r, w.release)
                             && w.record != Threw then r.(status := Reconciled) else r)
  {
    ConfirmsExactly(s.record.value.terms, w.chain.landing);
  }

  /** A status call that cannot observe, or cannot record what it observed, changes nothing but what it has seen. */
  lemma UnseenStatus(s: State, w: ReconcileWorld)
    requires s.record.Some? && s.record.value.status == Submitted && s.record.value.signature.Some?
    requires w.observation in {None, Some(TimeoutUnknown)} || w.observationRecorded != Returned
    ensures var t := CallSpec(s, ReconcileStatus(w));
            && t.record == s.record && t.quote == s.quote && t.history.releases == s.history.releases
            && t.history.lookups == s.history.lookups
  {
  }

  /** Giving a quote up, with faults: released first, and failed only once the release is through. */
  lemma AbortFaults(s: State, w: CleanupWrites)
    requires s.record.Some? && s.record.value.signature.None?
        && s.record.value.status !in {Relaying, Submitted, Reconciled}
    ensures var t, r := CallSpec(s, AbortUnsigned(true, w)), s.record.value;
      && |t.history.releases| == |s.history.releases| + (if ReleaseIsMade(r, w.release) then 1 else 0)
      && t.record == Some(if ReleaseIsThrough(r, w.release) && w.record != Threw then r.(status := Failed) else r)
  {
    var r := s.record.value;
    assert r.status == Failed ==> r == r.(status := Failed);
  }

  /**
    A resumed submit whose landing pays, with faults: the record is reconciled first, the quote once it is
    accounted for, and the exposure is released only after record, accounting, quote and intent are all written.
  */
  lemma PaidResumeFaults(s: State, w: SubmitWorld)
    requires Inv(s) && Resumable(s) && w.resumed == Some(ConfirmedSuccess) && w.resumeRecorded == Returned
    requires Paid(s.record.value, ConfirmedSuccess, w.settlement.chain)
    ensures var t, q, r, end := CallSpec(s, Submit(w)), s.quote.value, s.record.value, w.settlement;
      var accounted := end.record == Returned && end.accounting == Returned;
      && t.record == Some(if end.record != Threw then r.(status := Reconciled) else r)
      && t.quote
            == Some(if accounted && end.quote != Threw then q.(status := Reconciled, reconciliation := true) else q)
      && |t.history.releases| == |s.history.releases|
           + (if && accounted && end.quote == Returned && end.intent == Returned && end.refetched == Returned
                 && ReleaseIsMade(r, end.release) then 1 else 0)
  {
    ConfirmsExactly(s.record.value.terms, w.settlement.chain.landing);
  }

  /** A resumed submit that cannot observe, or cannot record what it observed, leaves quote and record as they are. */
  lemma UnseenResume(s: State, w: SubmitWorld)
    requires Resumable(s)
    requires w.resumed.None? || (w.resumed.value != TimeoutUnknown && w.resumeRecorded != Returned)
    ensures var t := CallSpec(s, Submit(w));
            t.record == s.record && t.quote == s.quote && t.history == s.history.(conclusive := t.history.conclusive)
  {
  }

  /**
    Preparing a quote that is not prepared and has no record: the record carries the quote's terms once it is
    written, and the quote only becomes prepared after record and event are.
  */
  lemma PrepareFaults(s: State, w: PrepareWorld)
    requires s.quote.Some? && s.quote.value.prepared.None? && s.record.None?
    ensures var t := CallSpec(s, Prepare(w));
      && t.history == s.history && t.locked == s.locked
      && t.record == (if w.reachedRecord && w.record != Threw
                      then Some(Record(AwaitingUserSignature, None, w.sponsored, RecordOf(w.terms))) else None)
      && t.quote == (if && w.reachedRecord && w.record == Returned && w.event == Returned && w.quote != Threw
                     then Some(Quote(Some(w.terms), AwaitingUserSignature, None, false)) else s.quote)
  {
  }

  /** Once the quote is gone only the record is left, and no submit or preparation does anything any more. */
  lemma ExpiredQuoteIsInert(s: State, submit: SubmitWorld, prepare: PrepareWorld)
    ensures var t := CallSpec(s, QuoteExpires);
      && t.record == s.record && t.history == s.history
      && CallSpec(t, Submit(submit)) == t && CallSpec(t, Prepare(prepare)) == t
  {
  }
}
