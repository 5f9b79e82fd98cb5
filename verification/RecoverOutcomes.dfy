/**
  What the calls of the Recover engine guarantee about the record, its signature and its releases, and from
  which states sponsorship exposure can still be released.
*/
module RecoverOutcomes {
  import opened Wrappers
  import opened CleanSubmission
  import opened RecoverEconomics
  import opened RecoverLifecycle

  // ---------------------------------------------------------------- what every call guarantees

  /** The releases grow by at most one, and that one is made before any broadcast or after a conclusive observation. */
  ghost predicate AtMostOneRelease(s: State, t: State) {
    || t.history.releases == s.history.releases
    || (exists r: Release :: (r.afterBroadcast ==> r.afterConclusive) && t.history.releases == s.history.releases + [r])
  }

  /** The record is never lost, its terms never change, and neither does its signature once there is one. */
  ghost predicate RecordEndures(s: State, t: State) {
    && (s.record.Some? ==>
          t.record.Some? && t.record.value.terms == s.record.value.terms
             && t.record.value.sponsored == s.record.value.sponsored)
    && (s.record.Some? && s.record.value.signature.Some? ==> t.record.value.signature == s.record.value.signature)
    && (s.locked ==> t.locked) && (s.history.conclusive ==> t.history.conclusive)
    && (s.history.broadcast ==>
          t.history.broadcast && s.record.Some? && t.record.Some?
             && t.record.value.signature == s.record.value.signature)
    && (t.history.broadcast ==> t.record.Some? && t.record.value.signature.Some?)
  }

  ghost predicate CallGuarantees(s: State, t: State) {
    RecordEndures(s, t) && AtMostOneRelease(s, t) && s.history.lookups <= t.history.lookups
  }

  lemma ReleaseOnce(s: State, sponsored: bool, w: ReleaseWrites)
    requires MayRelease(s.history)
    ensures AtMostOneRelease(s, ReleaseExposure(s, sponsored, w).state)
  {
    var r := Release(s.history.broadcast, s.history.conclusive);
    assert r.afterBroadcast ==> r.afterConclusive;
  }

  lemma UnsignedCleanupGuarantees(s: State, cached: Option<Quote>, w: CleanupWrites)
    requires Inv(s)
    ensures CallGuarantees(s, TerminalizeUnsigned(s, cached, w).state)
  {
    if s.record.Some? && UnsignedCleanupAllowed(s.record.value) {
      ReleaseOnce(s, s.record.value.sponsored, w.release);
    }
  }

  lemma FailGuarantees(s: State, w: FailWrites)
    requires Inv(s) && MayRelease(s.history)
    ensures CallGuarantees(s, FailDurableSubmission(s, w).state)
  {
    if s.record.Some? {
      ReleaseOnce(s, s.record.value.sponsored, w.release);
    }
  }

  lemma VerdictGuarantees(s: State, q: Quote, outcome: CleanOutcome, w: SettlementWrites)
    requires ReadyToSettle(s, q) && (outcome != TimeoutUnknown ==> s.history.conclusive)
    ensures var (s1, verdict) := Verdict(s, q.prepared.value, outcome, w);
            && CallGuarantees(s, s1) && s1.history.conclusive == s.history.conclusive
            && (verdict == Some(ReconciledConfirmed) ==> s1.history.releases == s.history.releases)
  {
    if (outcome == Expired || outcome == ConfirmedChainError) && s.record.value.status != Failed {
      FailGuarantees(s, w.fail);
    }
  }

  lemma SettleGuarantees(s: State, q: Quote, outcome: CleanOutcome, w: SettlementWrites)
    requires ReadyToSettle(s, q) && (outcome != TimeoutUnknown ==> s.history.conclusive)
    ensures CallGuarantees(s, Settle(s, q, outcome, w))
  {
    VerdictGuarantees(s, q, outcome, w);
    var (s1, verdict) := Verdict(s, q.prepared.value, outcome, w);
    if verdict == Some(ReconciledConfirmed) {
      var s2 := PersistQuote(s1, w.quote, q.(status := Reconciled, reconciliation := true));
      ReleaseOnce(s2, s2.record.value.sponsored, w.release);
    }
  }

  lemma CrossGuarantees(s: State, q: Quote, w: SubmitWorld)
    requires Crossing(s, q)
    ensures CallGuarantees(s, Cross(s, q, w))
  {
    var relaying := q.(status := Relaying);
    var s1 := PersistQuote(s, w.relayingQuote, relaying);
    if w.relayingQuote == Returned {
      var s2 := UpdateRecord(s1, w.relayingRecord, s1.record.value.(status := Relaying));
      ReleaseOnce(s2, s2.record.value.sponsored, w.noBroadcast.release);
      if w.relayingRecord == Returned && w.signing.FullySigned? {
        var signature := Some(w.signing.signature);
        var submitted := relaying.(status := Submitted, signature := signature);
        var s3 := UpdateRecord(s2, w.submittedRecord, s2.record.value.(status := Submitted, signature := signature));
        var s4 := PersistQuote(s3, w.submittedQuote, submitted);
        if w.submittedRecord == Returned && w.submittedEvent == Returned && w.submittedQuote == Returned {
          BroadcastGuarantees(s4, submitted, w);
        }
      }
    }
  }

  lemma BroadcastGuarantees(s: State, q: Quote, w: SubmitWorld)
    requires ReadyToSettle(s, q) && s.quote == Some(q)
    requires s.record.value.status == Submitted && s.record.value.signature.Some?
    ensures CallGuarantees(s, Broadcasting(s, q, w))
  {
    var sent := BroadcastSpec(w.rounds);
    BroadcastConclusive(w.rounds);
    var s1 := Observed(s.(history := s.history.(broadcast := s.history.broadcast || sent.attempted)), sent.conclusive);
    if sent.outcome.Some? {
      SettleGuarantees(s1, q, sent.outcome.value, w.settlement);
    }
  }

  lemma SubmitGuarantees(s: State, w: SubmitWorld)
    requires Inv(s)
    ensures CallGuarantees(s, SubmitSpec(s, w))
  {
    if s.quote.Some? && OpenQuote(s.quote.value) {
      var q := s.quote.value;
      if q.status == Submitted && q.signature.Some? {
        var s1 := Observed(s, Conclusive(w.resumed));
        if w.resumed.Some? {
          SettleGuarantees(s1, q, w.resumed.value, w.settlement);
        }
      } else {
        UnsignedCleanupGuarantees(s, Some(q), w.cleanup);
        if !s.locked {
          CrossGuarantees(s.(locked := true), q, w);
        }
      }
    }
  }

  lemma DurableGuarantees(s: State, w: ReconcileWorld)
    requires Inv(s) && s.record.Some? && s.history.conclusive
    ensures CallGuarantees(s, ReconcileDurable(s, w))
  {
    if w.chain.Found? {
      var s1 := Looked(s, w.chain.landing);
      assert Inv(s1);
      FailGuarantees(s1, w.fail);
      ReleaseOnce(s1, s1.record.value.sponsored, w.release);
    }
  }

  lemma ReconcileGuarantees(s: State, w: ReconcileWorld)
    requires Inv(s)
    ensures CallGuarantees(s, ReconcileSpec(s, w))
  {
    if s.record.Some? && s.record.value.status != Reconciled && s.record.value.status != Failed {
      if s.record.value.status != Submitted || s.record.value.signature.None? {
        FailGuarantees(s, w.fail);
      } else if Conclusive(w.observation) {
        var s1 := Observed(s, true);
        FailGuarantees(s1, w.fail);
        DurableGuarantees(s1, w);
      }
    }
  }

  /**
    What a status call promises: the quote is left alone, a final record is left exactly as it is, and otherwise
    only its status moves, to failed with a sponsored exposure released once, or to reconciled.
  */
  ghost predicate StatusPromise(s: State, t: State) {
    && t.quote == s.quote && t.history.broadcast == s.history.broadcast
    && (s.record.None? || s.record.value.status in {Reconciled, Failed} ==> t == s)
    && (s.record.Some? ==>
          && t.record.Some? && t.record == Some(s.record.value.(status := t.record.value.status))
          && t.record.value.status in {s.record.value.status, Reconciled, Failed}
          && (t.record.value.status in {Reconciled, Failed} && t.record != s.record && s.record.value.sponsored ==>
                |t.history.releases| == |s.history.releases| + 1))
  }

  lemma FailKeepsPromise(s: State, w: FailWrites)
    requires s.record.Some? && s.record.value.status !in {Reconciled, Failed}
    ensures StatusPromise(s, FailDurableSubmission(s, w).state)
  {
  }

  lemma DurableKeepsPromise(s: State, w: ReconcileWorld)
    requires s.record.Some? && s.record.value.status !in {Reconciled, Failed}
    ensures StatusPromise(s, ReconcileDurable(s, w))
  {
    if w.chain.Found? {
      FailKeepsPromise(Looked(s, w.chain.landing), w.fail);
    }
  }

  lemma StatusKeepsPromise(s: State, w: ReconcileWorld)
    ensures StatusPromise(s, ReconcileSpec(s, w))
  {
    if s.record.Some? && s.record.value.status !in {Reconciled, Failed} {
      var s1 := Observed(s, Conclusive(w.observation));
      FailKeepsPromise(s, w.fail);
      FailKeepsPromise(s1, w.fail);
      DurableKeepsPromise(s1, w);
    }
  }

  /** Whatever the awaited calls do, every engine call keeps the record and makes at most one release, a safe one. */
  lemma CallKeepsPromises(s: State, c: EngineCall)
    requires Inv(s)
    ensures Inv(CallSpec(s, c)) && CallGuarantees(s, CallSpec(s, c))
  {
    CallKeeps(s, c);
    match c
    case Prepare(w) =>
    case AbortUnsigned(admitted, w) =>
      UnsignedCleanupGuarantees(s, s.quote, w);
    case Submit(w) =>
      SubmitGuarantees(s, w);
    case ReconcileStatus(w) =>
      ReconcileGuarantees(s, w);
    case QuoteExpires =>
  }

  // ---------------------------------------------------------------- reconciled only on a confirming landing

  predicate IsReconciled(s: State) {
    s.record.Some? && s.record.value.status == Reconciled
  }

  /** The call looked the transaction up, found it landed without an error, and its figures are the record's. */
  ghost predicate ReadsConfirming(s: State, t: State) {
    exists l: Landing ::
      && t.history.lookups == s.history.lookups + [l]
      && !l.failed && t.record.Some? && RecordConfirms(t.record.value.terms, l)
  }

  lemma VerdictReconciles(s: State, q: Quote, outcome: CleanOutcome, w: SettlementWrites)
    requires ReadyToSettle(s, q) && !IsReconciled(s)
    ensures var s1 := Verdict(s, q.prepared.value, outcome, w).0;
            IsReconciled(s1) ==> ReadsConfirming(s, s1)
  {
    if w.chain.Found? {
      var l := w.chain.landing;
      ReconcilersAgree(q.prepared.value, l);
      assert Looked(s, l).history.lookups == s.history.lookups + [l];
    }
  }

  lemma SettleReconciles(s: State, q: Quote, outcome: CleanOutcome, w: SettlementWrites)
    requires ReadyToSettle(s, q) && !IsReconciled(s)
    ensures IsReconciled(Settle(s, q, outcome, w)) ==> ReadsConfirming(s, Settle(s, q, outcome, w))
  {
    VerdictReconciles(s, q, outcome, w);
    var s1 := Verdict(s, q.prepared.value, outcome, w).0;
    if IsReconciled(s1) {
      var l: Landing :| && s1.history.lookups == s.history.lookups + [l]
                        && !l.failed && s1.record.Some? && RecordConfirms(s1.record.value.terms, l);
      assert Settle(s, q, outcome, w).history.lookups == s.history.lookups + [l];
    }
  }

  lemma CrossReconciles(s: State, q: Quote, w: SubmitWorld)
    requires Crossing(s, q) && !IsReconciled(s)
    ensures IsReconciled(Cross(s, q, w)) ==> ReadsConfirming(s, Cross(s, q, w))
  {
    if w.signing.FullySigned? && w.relayingQuote == Returned {
      var relaying := q.(status := Relaying);
      var signature := Some(w.signing.signature);
      var submitted := relaying.(status := Submitted, signature := signature);
      var s2 :=
          UpdateRecord(PersistQuote(s, Returned, relaying), w.relayingRecord, s.record.value.(status := Relaying));
      var s3 := UpdateRecord(s2, w.submittedRecord, s2.record.value.(status := Submitted, signature := signature));
      var s4 := PersistQuote(s3, w.submittedQuote, submitted);
      var sent := BroadcastSpec(w.rounds);
      var s5 :=
          Observed(s4.(history := s4.history.(broadcast := s4.history.broadcast || sent.attempted)), sent.conclusive);
      if w.relayingRecord == Returned && w.submittedRecord == Returned && w.submittedQuote == Returned
         && sent.outcome.Some? {
        BroadcastConclusive(w.rounds);
        SettleReconciles(s5, submitted, sent.outcome.value, w.settlement);
      }
    }
  }

  /** A call that turns a record reconciled has itself read a landing that confirms the record's terms. */
  lemma ReconcilingCallReads(s: State, c: EngineCall)
    requires Inv(s) && !IsReconciled(s) && IsReconciled(CallSpec(s, c))
    ensures ReadsConfirming(s, CallSpec(s, c))
  {
    if c.Submit? && s.quote.Some? && OpenQuote(s.quote.value) {
      var q, w := s.quote.value, c.submitWorld;
      if q.status == Submitted && q.signature.Some? {
        var s1 := Observed(s, Conclusive(w.resumed));
        if w.resumed.Some? {
          SettleReconciles(s1, q, w.resumed.value, w.settlement);
        }
      } else if !s.locked && w.before == Passes {
        CrossReconciles(s.(locked := true), q, w);
      }
    } else if c.ReconcileStatus? && c.reconcileWorld.chain.Found? {
      var l := c.reconcileWorld.chain.landing;
      assert CallSpec(s, c).history.lookups == s.history.lookups + [l];
    }
  }

  /**
    In every run, the call at which a record becomes reconciled has read a landing without a chain error that
    confirms the record's terms, although an observation reports success before it looks at the error.
  */
  lemma {:induction false} ReconciledOnlyOnMatch(calls: seq<EngineCall>)
    requires IsReconciled(After(calls))
    ensures exists n | 0 <= n < |calls| ::
      && !IsReconciled(After(calls[..n])) && IsReconciled(After(calls[..n + 1]))
      && ReadsConfirming(After(calls[..n]), After(calls[..n + 1]))
  {
    var last := |calls| - 1;
    var front := calls[..last];
    assert calls[..last + 1] == calls;
    if IsReconciled(After(front)) {
      ReconciledOnlyOnMatch(front);
      var n :| && 0 <= n < |front|
               && !IsReconciled(After(front[..n])) && IsReconciled(After(front[..n + 1]))
               && ReadsConfirming(After(front[..n]), After(front[..n + 1]));
      assert front[..n] == calls[..n] && front[..n + 1] == calls[..n + 1];
    } else {
      InvAfter(front);
      ReconcilingCallReads(After(front), calls[last]);
    }
  }

  // ---------------------------------------------------------------- what is on chain does not change

  /** A lookup that finds the transaction finds what is on chain; one may still miss it or throw. */
  predicate LookupReads(chain: Chain, onChain: Option<Figures>) {
    chain.Found? ==> onChain == Some(FiguresOf(chain.landing))
  }

  /** The call's lookups read `onChain`: what has landed under the signature, if anything ever does. */
  predicate CallReads(c: EngineCall, onChain: Option<Figures>) {
    match c
    case Submit(w) => LookupReads(w.settlement.chain, onChain)
    case ReconcileStatus(w) => LookupReads(w.chain, onChain)
    case _ => true
  }

  /** One record has one signature, so all lookups of a run read the same transaction. */
  ghost predicate RunReads(calls: seq<EngineCall>, onChain: Option<Figures>) {
    forall i | 0 <= i < |calls| :: CallReads(calls[i], onChain)
  }

  /** A reconciled record's terms are what is on chain. */
  ghost predicate Grounded(s: State, onChain: Option<Figures>) {
    IsReconciled(s) ==> FiguresConfirm(s.record.value.terms, onChain)
  }

  function LookupOf(c: EngineCall): Chain {
    match c
    case Submit(w) => w.settlement.chain
    case ReconcileStatus(w) => w.chain
    case _ => NotFound
  }

  /** The lookups grow by what `chain` finds, or not at all. */
  ghost predicate LooksUp(s: State, t: State, chain: Chain) {
    || t.history.lookups == s.history.lookups
    || (chain.Found? && t.history.lookups == s.history.lookups + [chain.landing])
  }

  lemma SettleLooksUp(s: State, q: Quote, outcome: CleanOutcome, w: SettlementWrites)
    requires q.prepared.Some?
    ensures LooksUp(s, Settle(s, q, outcome, w), w.chain)
  {
    assert LooksUp(s, Verdict(s, q.prepared.value, outcome, w).0, w.chain);
  }

  lemma CrossLooksUp(s: State, q: Quote, w: SubmitWorld)
    requires Crossing(s, q)
    ensures LooksUp(s, Cross(s, q, w), w.settlement.chain)
  {
    if w.relayingQuote == Returned && w.relayingRecord == Returned && w.signing.FullySigned? {
      var relaying := q.(status := Relaying);
      var signature := Some(w.signing.signature);
      var submitted := relaying.(status := Submitted, signature := signature);
      var s2 := UpdateRecord(PersistQuote(s, Returned, relaying), Returned, s.record.value.(status := Relaying));
      var s3 := UpdateRecord(s2, w.submittedRecord, s2.record.value.(status := Submitted, signature := signature));
      var s4 := PersistQuote(s3, w.submittedQuote, submitted);
      var sent := BroadcastSpec(w.rounds);
      var s5 :=
          Observed(s4.(history := s4.history.(broadcast := s4.history.broadcast || sent.attempted)), sent.conclusive);
      if sent.outcome.Some? {
        SettleLooksUp(s5, submitted, sent.outcome.value, w.settlement);
      }
    }
  }

  lemma CallLooksUp(s: State, c: EngineCall)
    requires Inv(s)
    ensures LooksUp(s, CallSpec(s, c), LookupOf(c))
  {
    if c.Submit? && s.quote.Some? && OpenQuote(s.quote.value) {
      var q, w := s.quote.value, c.submitWorld;
      if q.status == Submitted && q.signature.Some? {
        if w.resumed.Some? {
          SettleLooksUp(Observed(s, Conclusive(w.resumed)), q, w.resumed.value, w.settlement);
        }
      } else if !s.locked {
        CrossLooksUp(s.(locked := true), q, w);
      }
    }
  }

  lemma CallKeepsGrounded(s: State, c: EngineCall, onChain: Option<Figures>)
    requires Inv(s) && Grounded(s, onChain) && CallReads(c, onChain)
    ensures Inv(CallSpec(s, c)) && Grounded(CallSpec(s, c), onChain)
  {
    CallKeepsPromises(s, c);
    var t := CallSpec(s, c);
    if IsReconciled(t) && !IsReconciled(s) {
      ReconcilingCallReads(s, c);
      CallLooksUp(s, c);
      var before, after := s.history.lookups, t.history.lookups;
      var l: Landing :| && after == before + [l]
                        && !l.failed && t.record.Some? && RecordConfirms(t.record.value.terms, l);
      assert after[|before|] == l == LookupOf(c).landing;
    }
  }

  lemma {:induction false} GroundedAfter(calls: seq<EngineCall>, onChain: Option<Figures>)
    requires RunReads(calls, onChain)
    ensures Inv(After(calls)) && Grounded(After(calls), onChain)
  {
    if calls != [] {
      var front := calls[..|calls| - 1];
      GroundedAfter(front, onChain);
      CallKeepsGrounded(After(front), calls[|calls| - 1], onChain);
    }
  }

  // ---------------------------------------------------------------- exposure that no call releases

  ghost predicate Rounded(c: EngineCall) {
    c.Submit? ==> |c.submitWorld.rounds| == 3
  }

  predicate Releases(s: State, c: EngineCall) {
    |CallSpec(s, c).history.releases| > |s.history.releases|
  }

  /** Some call whose lookups read what is on chain releases, whatever its observations say. */
  ghost predicate CanRelease(s: State, onChain: Option<Figures>) {
    exists c :: Rounded(c) && CallReads(c, onChain) && Releases(s, c)
  }

  predicate IsFinal(r: Record) {
    r.status == Reconciled || (r.status == Failed && r.signature.Some?)
  }

  /** A submit takes the stored quote up where the last one left it. */
  predicate Resumable(s: State) {
    s.quote.Some? && OpenQuote(s.quote.value) && s.quote.value.status == Submitted && s.quote.value.signature.Some?
  }

  /**
    The record is not final, or a submit can still resume its quote and what is on chain confirms the terms.
    A record that failed without a signature is not final.
  */
  predicate Releasable(s: State, onChain: Option<Figures>) {
    && s.record.Some? && s.record.value.sponsored
    && (!IsFinal(s.record.value) || (Resumable(s) && FiguresConfirm(s.record.value.terms, onChain)))
  }

  const SMOOTH_RELEASE := ReleaseWrites(Returned, Returned, Returned)
  const SMOOTH_CLEANUP := CleanupWrites(SMOOTH_RELEASE, Returned, Returned, Returned)
  const SMOOTH_FAIL := FailWrites(Returned, SMOOTH_RELEASE, Returned, Returned)

  function Settlement(chain: Chain, persisted: Write): SettlementWrites {
    SettlementWrites(Returned, SMOOTH_FAIL, chain, Returned, Returned, persisted, Returned, Returned, SMOOTH_RELEASE)
  }

  /** A submit whose writes all return, `persisted` aside; the rest is left to say. */
  function SmoothSubmit(signing: Signing, rounds: seq<Round>, resumed: CleanOutcome, chain: Chain,
                        persisted: Write): EngineCall
  {
    Submit(SubmitWorld(true, Passes, SMOOTH_CLEANUP, Returned, Returned, signing, SMOOTH_CLEANUP,
                       Returned, Returned, Returned, rounds, Some(resumed), Returned, Settlement(chain, persisted)))
  }

  function SmoothReconcile(observation: CleanOutcome, chain: Chain): EngineCall {
    ReconcileStatus(ReconcileWorld(Some(true), Some(observation), Returned, chain, Returned,
                                   SMOOTH_FAIL, SMOOTH_RELEASE, Returned, Returned))
  }

  const QUIET_ROUND := Round(Some(Some(20)), true, true, Some(ConfirmedSuccess), true)
  const CONFIRMED_ROUNDS := [QUIET_ROUND, QUIET_ROUND, QUIET_ROUND]

  /** With a final record and nothing to resume, every call leaves the state as it is, or forgets the quote. */
  lemma ClosedStays(s: State, c: EngineCall)
    requires Inv(s) && s.record.Some? && IsFinal(s.record.value) && !Resumable(s)
    ensures CallSpec(s, c) == s || CallSpec(s, c) == s.(quote := None)
  {
  }

  /** A quote that resumes on figures which do not confirm leaves the failed record alone and releases nothing. */
  lemma ResumedStays(s: State, c: EngineCall, onChain: Option<Figures>)
    requires Inv(s) && Grounded(s, onChain) && CallReads(c, onChain)
    requires s.record.Some? && IsFinal(s.record.value) && Resumable(s) && !FiguresConfirm(s.record.value.terms, onChain)
    ensures var t := CallSpec(s, c);
            t.record == s.record && t.history.releases == s.history.releases
  {
    if c.Submit? && c.submitWorld.settlement.chain.Found? {
      ReconcilersAgree(s.quote.value.prepared.value, c.submitWorld.settlement.chain.landing);
    }
  }

  /** What the providers report fits what is on chain. */
  predicate Fits(outcome: CleanOutcome, onChain: Option<Figures>) {
    match outcome
    case ConfirmedSuccess => onChain.Some?
    case ConfirmedChainError => onChain.Some? && onChain.value.failed
    case Expired => onChain.None?
    case TimeoutUnknown => true
  }

  predicate CallFits(c: EngineCall, onChain: Option<Figures>) {
    match c
    case Submit(w) => w.resumed.Some? ==> Fits(w.resumed.value, onChain)
    case ReconcileStatus(w) => w.observation.Some? ==> Fits(w.observation.value, onChain)
    case _ => true
  }

  function Report(onChain: Option<Figures>): (outcome: CleanOutcome)
    ensures Fits(outcome, onChain)
  {
    if onChain.Some? then ConfirmedSuccess else Expired
  }

  function Lookup(onChain: Option<Figures>): (chain: Chain)
    ensures LookupReads(chain, onChain)
  {
    if onChain.Some? then Found(Closed(onChain.value)) else NotFound
  }

  /** A call that releases, for each way exposure is releasable; its observations fit what is on chain as well. */
  function ReleasingCall(s: State, onChain: Option<Figures>): EngineCall
    requires Releasable(s, onChain)
  {
    var r := s.record.value;
    if r.status !in {Reconciled, Failed} then SmoothReconcile(Report(onChain), Lookup(onChain))
    else if !IsFinal(r) then AbortUnsigned(true, SMOOTH_CLEANUP)
    else SmoothSubmit(SigningThrew, CONFIRMED_ROUNDS, Report(onChain), Lookup(onChain), Returned)
  }

  lemma ReleasingCallReleases(s: State, onChain: Option<Figures>)
    requires Inv(s) && Releasable(s, onChain)
    ensures var c := ReleasingCall(s, onChain);
            Rounded(c) && CallReads(c, onChain) && CallFits(c, onChain) && Releases(s, c)
  {
    if Resumable(s) && onChain.Some? {
      ReconcilersAgree(s.quote.value.prepared.value, Closed(onChain.value));
    }
  }

  lemma ReleasableFrom(s: State, onChain: Option<Figures>)
    requires Inv(s) && Grounded(s, onChain) && s.record.Some? && s.record.value.sponsored
    ensures CanRelease(s, onChain) <==> Releasable(s, onChain)
    ensures Releasable(s, onChain) ==>
        Releases(s, ReleasingCall(s, onChain)) && CallFits(ReleasingCall(s, onChain), onChain)
  {
    if Releasable(s, onChain) {
      ReleasingCallReleases(s, onChain);
    } else {
      forall c | CallReads(c, onChain)
        ensures !Releases(s, c)
      {
        if Resumable(s) {
          ResumedStays(s, c, onChain);
        } else {
          ClosedStays(s, c);
        }
      }
    }
  }

  /**
    Exactly when a call can still release sponsored exposure, in every run whose lookups read what is on chain:
    while the record is not final, or while its quote can be resumed and what is on chain confirms the terms.
    The call that then releases has observations that fit what is on chain; where none releases, none does
    whatever it observes.
  */
  lemma ReleasableExactly(calls: seq<EngineCall>, onChain: Option<Figures>)
    requires RunReads(calls, onChain)
    requires var s := After(calls); s.record.Some? && s.record.value.sponsored
    ensures var s := After(calls);
            && (CanRelease(s, onChain) <==> Releasable(s, onChain))
            && (Releasable(s, onChain) ==>
                Releases(s, ReleasingCall(s, onChain)) && CallFits(ReleasingCall(s, onChain), onChain))
  {
    GroundedAfter(calls, onChain);
    ReleasableFrom(After(calls), onChain);
  }

  /**
    From an unreleasable state no sequence of calls releases anything or changes the record. While a submit can
    still resume the quote, that is said of calls which read what is on chain.
  */
  lemma {:induction false} StuckForever(s: State, calls: seq<EngineCall>, onChain: Option<Figures>)
    requires Inv(s) && Grounded(s, onChain) && s.record.Some? && s.record.value.sponsored && !Releasable(s, onChain)
    requires Resumable(s) ==> RunReads(calls, onChain)
    ensures var t := From(s, calls);
            && t.record == s.record && t.history.releases == s.history.releases
            && Inv(t) && !Releasable(t, onChain)
            && (!Resumable(s) ==> t.history == s.history && !Resumable(t))
  {
    if calls != [] {
      var front, c := calls[..|calls| - 1], calls[|calls| - 1];
      StuckForever(s, front, onChain);
      var t := From(s, front);
      CallKeepsPromises(t, c);
      if Resumable(t) {
        ResumedStays(t, c, onChain);
      } else {
        ClosedStays(t, c);
      }
    }
  }

  function From(s: State, calls: seq<EngineCall>): State {
    if calls == [] then s else CallSpec(From(s, calls[..|calls| - 1]), calls[|calls| - 1])
  }

  // ---------------------------------------------------------------- a mismatch found by the submit itself

  /** A quote is prepared, and its submit finds the transaction landed; `persisted` is how the last quote write ends. */
  function SubmitRun(terms: QuoteTerms, signature: string, l: Landing, persisted: Write): seq<EngineCall> {
    [Prepare(PrepareWorld(true, terms, true, Returned, Returned, Returned)),
     SmoothSubmit(FullySigned(signature), CONFIRMED_ROUNDS, ConfirmedSuccess, Found(l), persisted)]
  }

  lemma AfterTwo(a: EngineCall, b: EngineCall)
    ensures After([a, b]) == CallSpec(CallSpec(FRESH_QUOTE, a), b)
  {
    assert [a, b][..1] == [a] && [a][..0] == [];
    assert After([a]) == CallSpec(After([]), a);
  }

  /** The state after a submit that found other figures. */
  function Mismatched(terms: QuoteTerms, signature: string, l: Landing, persisted: Write): State {
    var submitted := Quote(Some(terms), Submitted, Some(signature), false);
    State(Some(Record(Failed, Some(signature), true, RecordOf(terms))),
          Some(if persisted == Threw then submitted else submitted.(status := Failed, reconciliation := true)),
          true, History(true, true, [], [l]))
  }

  function Prepared(terms: QuoteTerms): State {
    State(Some(Record(AwaitingUserSignature, None, true, RecordOf(terms))),
          Some(Quote(Some(terms), AwaitingUserSignature, None, false)), false, History(false, false, [], []))
  }

  lemma PrepareRuns(terms: QuoteTerms)
    ensures CallSpec(FRESH_QUOTE, Prepare(PrepareWorld(true, terms, true, Returned, Returned, Returned)))
        == Prepared(terms)
  {
  }

  lemma SubmitMismatches(terms: QuoteTerms, signature: string, l: Landing, persisted: Write)
    requires !l.failed && !QuoteConfirms(terms, l)
    ensures CallSpec(Prepared(terms),
                     SmoothSubmit(FullySigned(signature), CONFIRMED_ROUNDS, ConfirmedSuccess, Found(l), persisted))
         == Mismatched(terms, signature, l, persisted)
  {
    var submitted := Quote(Some(terms), Submitted, Some(signature), false);
    var s := State(Some(Record(Submitted, Some(signature), true, RecordOf(terms))), Some(submitted), true,
                   History(true, true, [], []));
    assert BroadcastSpec(CONFIRMED_ROUNDS) == Broadcast(true, true, Some(ConfirmedSuccess));
    assert [] + [l] == [l];
    assert Settle(s, submitted, ConfirmedSuccess, Settlement(Found(l), persisted))
        == Mismatched(terms, signature, l, persisted);
  }

  lemma MismatchReached(terms: QuoteTerms, signature: string, l: Landing, persisted: Write)
    requires !l.failed && !QuoteConfirms(terms, l)
    ensures After(SubmitRun(terms, signature, l, persisted)) == Mismatched(terms, signature, l, persisted)
    ensures Inv(Mismatched(terms, signature, l, persisted))
  {
    var run := SubmitRun(terms, signature, l, persisted);
    AfterTwo(run[0], run[1]);
    PrepareRuns(terms);
    SubmitMismatches(terms, signature, l, persisted);
    InvAfter(run);
  }

  /**
    Two reconcilers with one verdict treat the exposure differently. When the submit itself finds the landing
    with other figures, record and quote fail with nothing released, and no later call ever releases it; had
    the durable reconciler found the same landing, it would have released it.
  */
  lemma MismatchStrandsExposure(terms: QuoteTerms, signature: string, l: Landing, persisted: Write,
                                later: seq<EngineCall>, w: ReconcileWorld)
    requires !l.failed && !QuoteConfirms(terms, l) && persisted != Threw
    requires w.chain == Found(l) && w.observation == Some(ConfirmedSuccess) && w.observationRecorded == Returned
        && w.fail == SMOOTH_FAIL
    ensures var s := After(SubmitRun(terms, signature, l, persisted));
            && s.record == Some(Record(Failed, Some(signature), true, RecordOf(terms)))
            && s.history.releases == [] && !Resumable(s)
            && From(s, later).history.releases == []
    ensures var s :=
        State(Some(Record(Submitted, Some(signature), true, RecordOf(terms))), None, true,
              History(true, false, [], []));
            ReconcileSpec(s, w).record.value.status == Failed && |ReconcileSpec(s, w).history.releases| == 1
  {
    MismatchReached(terms, signature, l, persisted);
    ReconcilersAgree(terms, l);
    StuckForever(Mismatched(terms, signature, l, persisted), later, None);
  }

  /**
    The same when that submit cannot write the quote, which stays open to a submit: whatever has become of the
    two accounts, no later call that reads the same figures releases anything.
  */
  lemma OpenQuoteStrandsExposure(terms: QuoteTerms, signature: string, l: Landing, later: seq<EngineCall>)
    requires !l.failed && !FiguresConfirm(RecordOf(terms), Some(FiguresOf(l))) && RunReads(later, Some(FiguresOf(l)))
    ensures var s := After(SubmitRun(terms, signature, l, Threw));
            && s.record == Some(Record(Failed, Some(signature), true, RecordOf(terms)))
            && s.history.releases == [] && Resumable(s)
            && !CanRelease(s, Some(FiguresOf(l)))
            && From(s, later).history.releases == []
  {
    ReconcilersAgree(terms, l);
    MismatchReached(terms, signature, l, Threw);
    var s := Mismatched(terms, signature, l, Threw);
    ReleasableFrom(s, Some(FiguresOf(l)));
    StuckForever(s, later, Some(FiguresOf(l)));
  }
}
