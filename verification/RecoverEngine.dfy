/** The engine's methods, assigning the stored record and quote step by step. */
module RecoverEngine {
  import opened Wrappers
  import opened CleanSubmission
  import opened RecoverEconomics
  import opened RecoverLifecycle
  import opened RecoverOutcomes

  class Engine {
    /** The durable record of the one prepared transaction. */
    var record: Option<Record>
    /** The quote as the temporary store holds it. */
    var quote: Option<Quote>
    /** Whether a submit has crossed and kept its replay locks in the temporary store. */
    var locked: bool
    ghost var history: History

    ghost function Snapshot(): State
      reads this
    {
      State(record, quote, locked, history)
    }

    constructor ()
      ensures Snapshot() == FRESH_QUOTE
    {
      record := None;
      quote := Some(Quote(None, Created, None, false));
      locked := false;
      history := History(false, false, [], []);
    }

    method UpdateTransaction(w: Write, r: Record) returns (ok: bool)
      modifies this`record
      ensures Snapshot() == UpdateRecord(old(Snapshot()), w, r) && ok == (w == Returned)
    {
      if w != Threw {
        record := Some(r);
      }
      ok := w == Returned;
    }

    method Persist(w: Write, q: Quote) returns (ok: bool)
      modifies this`quote
      ensures Snapshot() == PersistQuote(old(Snapshot()), w, q) && ok == (w == Returned)
    {
      if w != Threw {
        quote := Some(q);
      }
      ok := w == Returned;
    }

    method ReleaseDurableExposure(sponsored: bool, w: ReleaseWrites) returns (ok: bool)
      modifies this`history
      ensures Progress(Snapshot(), ok) == ReleaseExposure(old(Snapshot()), sponsored, w)
    {
      if !sponsored {
        return true;
      }
      if w.authorized != Returned {
        return false;
      }
      history := RecordRelease(history);
      return w.released == Returned && w.recorded == Returned;
    }

    /**
      A signed, relaying, submitted or reconciled record is left exactly as it is. Otherwise, when the cleanup
      goes through, the record has failed without a signature and a sponsored exposure was released once.
    */
    method TerminalizeUnsigned(cached: Option<Quote>, w: CleanupWrites) returns (ok: bool)
      modifies this
      ensures Progress(Snapshot(), ok) == RecoverLifecycle.TerminalizeUnsigned(old(Snapshot()), cached, w)
      ensures old(record.Some?
                  && (record.value.signature.Some? || record.value.status in {Relaying, Submitted, Reconciled})) ==>
                !ok && Snapshot() == old(Snapshot())
      ensures ok ==>
                && old(record).Some? && record == Some(old(record).value.(status := Failed))
                   && record.value.signature.None?
                && |history.releases| == |old(history.releases)| + (if record.value.sponsored then 1 else 0)
                && (cached.Some? ==> quote == Some(cached.value.(status := Failed)))
    {
      if record.None? {
        return false;
      }
      var r := record.value;
      if r.signature.Some? || r.status !in {Created, Prepared, Simulated, AwaitingUserSignature, Failed} {
        return false;
      }
      ok := ReleaseDurableExposure(r.sponsored, w.release);
      if !ok {
        return;
      }
      if r.status != Failed {
        ok := UpdateTransaction(w.record, r.(status := Failed));
        if !ok || w.intent != Returned {
          return false;
        }
      }
      if cached.Some? {
        ok := Persist(w.quote, cached.value.(status := Failed));
      }
    }

    method FailDurableSubmission(w: FailWrites) returns (ok: bool)
      modifies this
      ensures Progress(Snapshot(), ok) == RecoverLifecycle.FailDurableSubmission(old(Snapshot()), w)
    {
      if record.None? || w.event != Returned {
        return false;
      }
      var r := record.value;
      ok := ReleaseDurableExposure(r.sponsored, w.release);
      if ok {
        ok := UpdateTransaction(w.record, r.(status := Failed));
        ok := ok && w.intent == Returned;
      }
    }

    method Reconcile(terms: QuoteTerms, outcome: CleanOutcome, w: SettlementWrites)
      returns (verdict: Option<Reconciliation>)
      modifies this
      ensures (Snapshot(), verdict) == Verdict(old(Snapshot()), terms, outcome, w)
    {
      if outcome == Expired || outcome == ConfirmedChainError {
        if w.fetched != Returned {
          return None;
        }
        if record.Some? && record.value.status != Failed {
          var ok := FailDurableSubmission(w.fail);
          return if ok then Some(ReconciledFailed) else None;
        }
        return Some(ReconciledFailed);
      }
      if outcome == TimeoutUnknown {
        return Some(Pending);
      }
      match w.chain {
        case LookupThrew => return None;
        case NotFound => return Some(Pending);
        case Found(l) =>
          history := history.(lookups := history.lookups + [l]);
          if l.failed {
            return Some(ReconciledFailed);
          }
          if record.None? {
            return None;
          }
          var confirmed := QuoteConfirms(terms, l);
          var ok := UpdateTransaction(w.record, record.value.(status := if confirmed then Reconciled else Failed));
          if !ok || (confirmed && w.accounting != Returned) {
            return None;
          }
          return Some(if confirmed then ReconciledConfirmed else ReconciledFailed);
      }
    }

    method Settle(q: Quote, outcome: CleanOutcome, w: SettlementWrites)
      requires q.prepared.Some?
      modifies this
      ensures Snapshot() == RecoverLifecycle.Settle(old(Snapshot()), q, outcome, w)
    {
      var verdict := Reconcile(q.prepared.value, outcome, w);
      if verdict.None? {
        return;
      }
      var ok := Persist(w.quote, q.(status := StatusAfter(verdict.value), reconciliation := true));
      if !ok || w.intent != Returned || verdict.value != ReconciledConfirmed {
        return;
      }
      if w.refetched == Returned && record.Some? {
        ok := ReleaseDurableExposure(record.value.sponsored, w.release);
      }
    }

    method ResumeSubmitted(q: Quote, w: SubmitWorld)
      requires q.prepared.Some?
      modifies this
      ensures Snapshot() == Resume(old(Snapshot()), q, w)
    {
      history := history.(conclusive := history.conclusive || Conclusive(w.resumed));
      if w.resumed.None? || (Conclusive(w.resumed) && w.resumeRecorded != Returned) {
        return;
      }
      Settle(q, w.resumed.value, w.settlement);
    }

    /** Nothing was sent: release, then mark the quote and the record failed, whatever throws on the way. */
    method CleanUpUnsent(q: Quote, w: CleanupWrites)
      modifies this
      ensures Snapshot() == NoBroadcastCleanup(old(Snapshot()), q, w)
    {
      if record.Some? {
        var released := ReleaseDurableExposure(record.value.sponsored, w.release);
      }
      var persisted := Persist(w.quote, q.(status := Failed));
      if record.Some? {
        var updated := UpdateTransaction(w.record, record.value.(status := Failed));
      }
    }

    method Broadcast(q: Quote, w: SubmitWorld)
      requires q.prepared.Some? && |w.rounds| == BROADCAST_MAX_ROUNDS
      modifies this
      ensures Snapshot() == Broadcasting(old(Snapshot()), q, w)
    {
      var sent := BroadcastAndConfirmClean(w.rounds);
      history := history.(broadcast := history.broadcast || sent.attempted,
                          conclusive := history.conclusive || sent.conclusive);
      if sent.outcome.Some? {
        Settle(q, sent.outcome.value, w.settlement);
      }
    }

    /**
      The try and catch blocks of submit, with the flags the catch block looks at. Whatever the awaited calls
      do, the record and its terms stay, a signature under which something was broadcast stays, and at most one
      release is made, before any broadcast or after a conclusive observation.
    */
    method Submit(w: SubmitWorld)
      requires |w.rounds| == BROADCAST_MAX_ROUNDS
      modifies this
      ensures Snapshot() == SubmitSpec(old(Snapshot()), w)
      ensures old(Inv(Snapshot())) ==> Inv(Snapshot()) && CallGuarantees(old(Snapshot()), Snapshot())
    {
      if Inv(Snapshot()) {
        CallKeepsPromises(Snapshot(), EngineCall.Submit(w));
      }
      if quote.None? || quote.value.prepared.None? || quote.value.status == Failed {
        return;
      }
      var q := quote.value;
      if q.status == Reconciled && q.signature.Some? && q.reconciliation {
        return;
      }
      if q.status == Submitted && q.signature.Some? {
        ResumeSubmitted(q, w);
        return;
      }
      if !w.admitted {
        return;
      }
      var crossed, signingReturned, replayed := false, false, false;
      var submissionSignature: Option<string> := None;
      label attempt: {
        var before := PastLocks(locked, w.before);
        if before == HandbackThrew {
          return;
        }
        if before != Passes {
          replayed := before == Replayed;
          break attempt;
        }
        crossed := true;
        locked := true;
        q := q.(status := Relaying);
        var ok := Persist(w.relayingQuote, q);
        if !ok || record.None? {
          break attempt;
        }
        ok := UpdateTransaction(w.relayingRecord, record.value.(status := Relaying));
        if !ok || w.signing.SigningThrew? {
          break attempt;
        }
        signingReturned := true;
        if w.signing.SignedThenRejected? {
          break attempt;
        }
        submissionSignature := Some(w.signing.signature);
        q := q.(signature := submissionSignature, status := Submitted);
        ok := UpdateTransaction(w.submittedRecord,
                                record.value.(status := Submitted, signature := submissionSignature));
        if !ok || w.submittedEvent != Returned {
          break attempt;
        }
        ok := Persist(w.submittedQuote, q);
        if !ok {
          break attempt;
        }
        Broadcast(q, w);
        return;
      }
      if submissionSignature.None? && !crossed && !replayed {
        var cleaned := TerminalizeUnsigned(Some(q), w.cleanup);
      }
      if submissionSignature.None? && crossed && signingReturned {
        CleanUpUnsent(q, w.noBroadcast);
      }
    }

    method ReconcileDurableSubmission(w: ReconcileWorld)
      modifies this
      ensures Snapshot() == ReconcileDurable(old(Snapshot()), w)
    {
      match w.chain {
        case LookupThrew =>
        case NotFound =>
        case Found(l) =>
          history := history.(lookups := history.lookups + [l]);
          if record.None? {
            return;
          }
          if l.failed || !RecordConfirms(record.value.terms, l) {
            var failed := FailDurableSubmission(w.fail);
          } else if w.accounting == Returned {
            var ok := ReleaseDurableExposure(record.value.sponsored, w.release);
            if ok {
              ok := UpdateTransaction(w.record, record.value.(status := Reconciled));
            }
          }
      }
    }

    /** A status call; a record it turns reconciled is one whose confirming landing it has read. */
    method ReconcileStatus(w: ReconcileWorld)
      modifies this
      ensures Snapshot() == ReconcileSpec(old(Snapshot()), w)
      ensures StatusPromise(old(Snapshot()), Snapshot())
      ensures old(Inv(Snapshot())) && !IsReconciled(old(Snapshot())) && IsReconciled(Snapshot()) ==>
                ReadsConfirming(old(Snapshot()), Snapshot())
    {
      StatusKeepsPromise(Snapshot(), w);
      if Inv(Snapshot()) && !IsReconciled(Snapshot()) && IsReconciled(ReconcileSpec(Snapshot(), w)) {
        ReconcilingCallReads(Snapshot(), EngineCall.ReconcileStatus(w));
      }
      if record.None? || record.value.status == Reconciled || record.value.status == Failed {
        return;
      }
      if record.value.status != Submitted || record.value.signature.None? {
        if w.heights == Some(true) {
          var failed := FailDurableSubmission(w.fail);
        }
        return;
      }
      history := history.(conclusive := history.conclusive || Conclusive(w.observation));
      if w.observation.None? || (Conclusive(w.observation) && w.observationRecorded != Returned) {
        return;
      }
      match w.observation.value {
        case ConfirmedSuccess =>
          ReconcileDurableSubmission(w);
        case TimeoutUnknown =>
        case _ =>
          var failed := FailDurableSubmission(w.fail);
      }
    }

    method Prepare(w: PrepareWorld)
      modifies this
      ensures Snapshot() == PrepareSpec(old(Snapshot()), w)
    {
      if quote.None? || quote.value.prepared.Some? || record.Some? || !w.reachedRecord {
        return;
      }
      var ok := UpdateTransaction(w.record, Record(AwaitingUserSignature, None, w.sponsored, RecordOf(w.terms)));
      if ok && w.event == Returned {
        ok := Persist(w.quote, Quote(Some(w.terms), AwaitingUserSignature, None, false));
      }
    }

    /** One call, or the temporary store forgetting the quote. */
    method Perform(c: EngineCall)
      requires c.Submit? ==> |c.submitWorld.rounds| == BROADCAST_MAX_ROUNDS
      modifies this
      ensures Snapshot() == CallSpec(old(Snapshot()), c)
    {
      match c {
        case Prepare(w) =>
          Prepare(w);
        case AbortUnsigned(admitted, w) =>
          if admitted {
            var ok := TerminalizeUnsigned(quote, w);
          }
        case Submit(w) =>
          Submit(w);
        case ReconcileStatus(w) =>
          ReconcileStatus(w);
        case QuoteExpires =>
          quote := None;
      }
    }
  }

  /** Any run of a fresh engine, call after call, releases exposure only when that is safe. */
  method Drive(calls: seq<EngineCall>) returns (engine: Engine)
    requires forall c | c in calls :: c.Submit? ==> |c.submitWorld.rounds| == BROADCAST_MAX_ROUNDS
    ensures engine.Snapshot() == After(calls)
    ensures ReleasesJustified(engine.history)
  {
    engine := new Engine();
    var n := 0;
    while n < |calls|
      invariant 0 <= n <= |calls|
      invariant engine.Snapshot() == After(calls[..n])
    {
      engine.Perform(calls[n]);
      assert calls[..n + 1][..n] == calls[..n];
      n := n + 1;
    }
    assert calls[..n] == calls;
    InvAfter(calls);
  }
}
