/**
  The lifecycle of one prepared Recover Value transaction (server/recover/engine.ts), with engine calls
  run one after another. Every awaited call may return, throw, or take effect and then throw.
*/
module RecoverLifecycle {
  import opened Wrappers
  import opened CleanSubmission
  import opened RecoverEconomics

  datatype Status = Created | Prepared | Simulated | AwaitingUserSignature | Relaying | Submitted | Reconciled | Failed

  /** The durable record. `sponsored`: a sponsorship cost is recorded, so there is exposure to release. */
  datatype Record = Record(status: Status, signature: Option<string>, sponsored: bool, terms: RecordTerms)

  /**
    The quote in the temporary store: its terms once prepared, recover status, signature, and whether it carries a
    reconciliation.
  */
  datatype Quote = Quote(prepared: Option<QuoteTerms>, status: Status, signature: Option<string>, reconciliation: bool)

  /** A release of sponsorship exposure, with what had happened by then. */
  datatype Release = Release(afterBroadcast: bool, afterConclusive: bool)

  /** `lookups`: the transactions found on chain by a lookup that was made, in order. */
  datatype History = History(broadcast: bool, conclusive: bool, releases: seq<Release>, lookups: seq<Landing>)

  /** `locked`: a submit has crossed the boundary, and keeps its replay locks. */
  datatype State = State(record: Option<Record>, quote: Option<Quote>, locked: bool, history: History)

  /** How an awaited write ends. */
  datatype Write = Returned | Threw | TookEffectThenThrew

  datatype ReleaseWrites = ReleaseWrites(authorized: Write, released: Write, recorded: Write)

  datatype CleanupWrites = CleanupWrites(release: ReleaseWrites, record: Write, intent: Write, quote: Write)

  datatype FailWrites = FailWrites(event: Write, release: ReleaseWrites, record: Write, intent: Write)

  /** What looking the transaction up on chain says. */
  datatype Chain = LookupThrew | NotFound | Found(landing: Landing)

  datatype SettlementWrites = SettlementWrites(
    fetched: Write, fail: FailWrites, chain: Chain, record: Write, accounting: Write,
    quote: Write, intent: Write, refetched: Write, release: ReleaseWrites)

  /** How the checks before the boundary end; `HandbackThrew`: handing a lock back in the catch block threw as well. */
  datatype Boundary = Passes | Replayed | Refused | HandbackThrew

  datatype Signing = SigningThrew | SignedThenRejected | FullySigned(signature: string)

  datatype SubmitWorld = SubmitWorld(
    admitted: bool, before: Boundary, cleanup: CleanupWrites,
    relayingQuote: Write, relayingRecord: Write, signing: Signing, noBroadcast: CleanupWrites,
    submittedRecord: Write, submittedEvent: Write, submittedQuote: Write,
    rounds: seq<Round>, resumed: Option<CleanOutcome>, resumeRecorded: Write, settlement: SettlementWrites)

  datatype ReconcileWorld = ReconcileWorld(
    heights: Option<bool>, observation: Option<CleanOutcome>, observationRecorded: Write, chain: Chain,
    accounting: Write, fail: FailWrites, release: ReleaseWrites, record: Write, intent: Write)

  datatype PrepareWorld = PrepareWorld(reachedRecord: bool, terms: QuoteTerms, sponsored: bool, record: Write,
                                       event: Write, quote: Write)

  /** A call a client or the request handler makes, or the temporary store losing the quote to expiry. */
  datatype EngineCall =
    | Prepare(prepareWorld: PrepareWorld)
    | AbortUnsigned(admitted: bool, cleanup: CleanupWrites)
    | Submit(submitWorld: SubmitWorld)
    | ReconcileStatus(reconcileWorld: ReconcileWorld)
    | QuoteExpires

  /** A state and whether the caller goes on, or leaves by an exception. */
  datatype Progress = Progress(state: State, goesOn: bool)

  function UpdateRecord(s: State, w: Write, r: Record): State {
    if w == Threw then s else s.(record := Some(r))
  }

  function PersistQuote(s: State, w: Write, q: Quote): State {
    if w == Threw then s else s.(quote := Some(q))
  }

  function RecordRelease(h: History): History {
    h.(releases := h.releases + [Release(h.broadcast, h.conclusive)])
  }

  function Looked(s: State, l: Landing): State {
    s.(history := s.history.(lookups := s.history.lookups + [l]))
  }

  /** An attempt to release counts from the moment it is made, whatever the call answers. */
  function ReleaseExposure(s: State, sponsored: bool, w: ReleaseWrites): Progress {
    if !sponsored then Progress(s, true)
    else if w.authorized != Returned then Progress(s, false)
    else Progress(s.(history := RecordRelease(s.history)), w.released == Returned && w.recorded == Returned)
  }

  predicate UnsignedCleanupAllowed(r: Record) {
    r.signature.None? && r.status in {Created, Prepared, Simulated, AwaitingUserSignature, Failed}
  }

  /** terminalizeUnsigned: refuses signed, relaying, submitted and reconciled records. */
  function TerminalizeUnsigned(s: State, cached: Option<Quote>, w: CleanupWrites): Progress {
    if s.record.None? || !UnsignedCleanupAllowed(s.record.value) then Progress(s, false)
    else
      var released := ReleaseExposure(s, s.record.value.sponsored, w.release);
      if !released.goesOn then released
      else
        var failing := s.record.value.status != Failed;
        var s1 := if failing then UpdateRecord(released.state, w.record, s.record.value.(status := Failed))
                  else released.state;
        if failing && (w.record != Returned || w.intent != Returned) then Progress(s1, false)
        else if cached.None? then Progress(s1, true)
        else Progress(PersistQuote(s1, w.quote, cached.value.(status := Failed)), w.quote == Returned)
  }

  /** failDurableSubmission: releases, then marks the record failed. */
  function FailDurableSubmission(s: State, w: FailWrites): Progress {
    if s.record.None? || w.event != Returned then Progress(s, false)
    else
      var released := ReleaseExposure(s, s.record.value.sponsored, w.release);
      if !released.goesOn then released
      else Progress(UpdateRecord(released.state, w.record, s.record.value.(status := Failed)),
                    w.record == Returned && w.intent == Returned)
  }

  datatype Reconciliation = Pending | ReconciledFailed | ReconciledConfirmed

  /** What a confirmation leads to, before the quote is written: the state, and a verdict unless something threw. */
  function Verdict(s: State, terms: QuoteTerms, outcome: CleanOutcome,
                   w: SettlementWrites): (State, Option<Reconciliation>)
  {
    if outcome == Expired || outcome == ConfirmedChainError then
      if w.fetched != Returned then (s, None)
      else if s.record.Some? && s.record.value.status != Failed then
        var failed := FailDurableSubmission(s, w.fail);
        (failed.state, if failed.goesOn then Some(ReconciledFailed) else None)
      else (s, Some(ReconciledFailed))
    else if outcome == TimeoutUnknown then (s, Some(Pending))
    else
      match w.chain
      case LookupThrew => (s, None)
      case NotFound => (s, Some(Pending))
      case Found(l) =>
        var s1 := Looked(s, l);
        if l.failed then (s1, Some(ReconciledFailed))
        else if s1.record.None? then (s1, None)
        else
          var confirmed := QuoteConfirms(terms, l);
          var s2 := UpdateRecord(s1, w.record, s1.record.value.(status := if confirmed then Reconciled else Failed));
          if w.record != Returned || (confirmed && w.accounting != Returned) then (s2, None)
          else (s2, Some(if confirmed then ReconciledConfirmed else ReconciledFailed))
  }

  function StatusAfter(verdict: Reconciliation): Status {
    match verdict
    case ReconciledConfirmed => Reconciled
    case ReconciledFailed => Failed
    case Pending => Submitted
  }

  /** From a confirmation to the persisted quote and, when confirmed, the release. */
  function Settle(s: State, q: Quote, outcome: CleanOutcome, w: SettlementWrites): State
    requires q.prepared.Some?
  {
    var (s1, verdict) := Verdict(s, q.prepared.value, outcome, w);
    if verdict.None? then s1
    else
      var s2 := PersistQuote(s1, w.quote, q.(status := StatusAfter(verdict.value), reconciliation := true));
      if w.quote != Returned || w.intent != Returned || verdict.value != ReconciledConfirmed then s2
      else if w.refetched != Returned || s2.record.None? then s2
      else ReleaseExposure(s2, s2.record.value.sponsored, w.release).state
  }

  function Observed(s: State, conclusive: bool): State {
    s.(history := s.history.(conclusive := s.history.conclusive || conclusive))
  }

  function Resume(s: State, q: Quote, w: SubmitWorld): State
    requires q.prepared.Some?
  {
    var s1 := Observed(s, Conclusive(w.resumed));
    if w.resumed.None? || (Conclusive(w.resumed) && w.resumeRecorded != Returned) then s1
    else Settle(s1, q, w.resumed.value, w.settlement)
  }

  /** The catch block when the payer has signed but nothing was sent: release, then mark both sides failed. */
  function NoBroadcastCleanup(s: State, q: Quote, w: CleanupWrites): State {
    var s1 := if s.record.Some? then ReleaseExposure(s, s.record.value.sponsored, w.release).state else s;
    var s2 := PersistQuote(s1, w.quote, q.(status := Failed));
    if s2.record.None? then s2 else UpdateRecord(s2, w.record, s2.record.value.(status := Failed))
  }

  function Broadcasting(s: State, q: Quote, w: SubmitWorld): State
    requires q.prepared.Some?
  {
    var sent := BroadcastSpec(w.rounds);
    var s1 := Observed(s.(history := s.history.(broadcast := s.history.broadcast || sent.attempted)), sent.conclusive);
    if sent.outcome.None? then s1 else Settle(s1, q, sent.outcome.value, w.settlement)
  }

  /** After the boundary: relaying, signing, and the signature made durable before anything is sent. */
  function Cross(s: State, q: Quote, w: SubmitWorld): State
    requires q.prepared.Some?
  {
    var relaying := q.(status := Relaying);
    var s1 := PersistQuote(s, w.relayingQuote, relaying);
    if w.relayingQuote != Returned || s1.record.None? then s1
    else
      var s2 := UpdateRecord(s1, w.relayingRecord, s1.record.value.(status := Relaying));
      if w.relayingRecord != Returned then s2
      else
        match w.signing
        case SigningThrew => s2
        case SignedThenRejected => NoBroadcastCleanup(s2, relaying, w.noBroadcast)
        case FullySigned(signature) =>
          var submitted := relaying.(status := Submitted, signature := Some(signature));
          var s3 :=
              UpdateRecord(s2, w.submittedRecord, s2.record.value.(status := Submitted, signature := Some(signature)));
          if w.submittedRecord != Returned || w.submittedEvent != Returned then s3
          else
            var s4 := PersistQuote(s3, w.submittedQuote, submitted);
            if w.submittedQuote != Returned then s4 else Broadcasting(s4, submitted, w)
  }

  /** A prepared quote that is not finished: a submit has something to do with it. */
  predicate OpenQuote(q: Quote) {
    && q.prepared.Some?
    && q.status != Failed
    && !(q.status == Reconciled && q.signature.Some? && q.reconciliation)
  }

  /**
    A submit that crosses keeps its locks for longer than a quote that was not submitted stays stored. A later
    submit of such a quote is refused as a replay by the first lock, unless asking for it throws.
  */
  function PastLocks(locked: bool, before: Boundary): Boundary {
    if locked && before != Refused then Replayed else before
  }

  function SubmitSpec(s: State, w: SubmitWorld): State {
    if s.quote.None? || !OpenQuote(s.quote.value) then s
    else
      var q := s.quote.value;
      if q.status == Submitted && q.signature.Some? then Resume(s, q, w)
      else if !w.admitted then s
      else
        match PastLocks(s.locked, w.before)
        case Replayed => s
        case HandbackThrew => s
        case Refused => TerminalizeUnsigned(s, Some(q), w.cleanup).state
        case Passes => Cross(s.(locked := true), q, w)
  }

  /** reconcileDurableSubmission. */
  function ReconcileDurable(s: State, w: ReconcileWorld): State {
    match w.chain
    case LookupThrew => s
    case NotFound => s
    case Found(l) =>
      var s1 := Looked(s, l);
      if s1.record.None? then s1
      else if l.failed || !RecordConfirms(s1.record.value.terms, l) then FailDurableSubmission(s1, w.fail).state
      else if w.accounting != Returned then s1
      else
        var released := ReleaseExposure(s1, s1.record.value.sponsored, w.release);
        if !released.goesOn then released.state
        else UpdateRecord(released.state, w.record, s1.record.value.(status := Reconciled))
  }

  function ReconcileSpec(s: State, w: ReconcileWorld): State {
    if s.record.None? || s.record.value.status == Reconciled || s.record.value.status == Failed then s
    else if s.record.value.status != Submitted || s.record.value.signature.None? then
      // Some(true): every provider reads a height past the record's lifetime.
      if w.heights == Some(true) then FailDurableSubmission(s, w.fail).state else s
    else
      var s1 := Observed(s, Conclusive(w.observation));
      if w.observation.None? || (Conclusive(w.observation) && w.observationRecorded != Returned) then s1
      else
        match w.observation.value
        case ConfirmedSuccess => ReconcileDurable(s1, w)
        case TimeoutUnknown => s1
        case _ => FailDurableSubmission(s1, w.fail).state
  }

  function PrepareSpec(s: State, w: PrepareWorld): State {
    if s.quote.None? || s.quote.value.prepared.Some? || s.record.Some? || !w.reachedRecord then s
    else
      var s1 := UpdateRecord(s, w.record, Record(AwaitingUserSignature, None, w.sponsored, RecordOf(w.terms)));
      if w.record != Returned || w.event != Returned then s1
      else PersistQuote(s1, w.quote, Quote(Some(w.terms), AwaitingUserSignature, None, false))
  }

  function CallSpec(s: State, c: EngineCall): State {
    match c
    case Prepare(w) => PrepareSpec(s, w)
    case AbortUnsigned(admitted, w) => if admitted then TerminalizeUnsigned(s, s.quote, w).state else s
    case Submit(w) => SubmitSpec(s, w)
    case ReconcileStatus(w) => ReconcileSpec(s, w)
    case QuoteExpires => s.(quote := None)
  }

  /** A quote just created: nothing prepared, recorded, sent or released. */
  const FRESH_QUOTE := State(None, Some(Quote(None, Created, None, false)), false, History(false, false, [], []))

  function After(calls: seq<EngineCall>): State {
    if calls == [] then FRESH_QUOTE else CallSpec(After(calls[..|calls| - 1]), calls[|calls| - 1])
  }

  // ---------------------------------------------------------------- the invariant

  /** Something sent has a durable signature, and a record that unsigned cleanup and a second crossing refuse. */
  ghost predicate SentIsRecorded(s: State) {
    s.history.broadcast ==>
      && s.record.Some? && s.record.value.signature.Some?
      && s.record.value.status in {Submitted, Reconciled, Failed}
      && (s.quote.Some? ==>
            && s.quote.value.prepared.Some?
            && (|| (s.quote.value.status == Submitted && s.quote.value.signature.Some?)
                || s.quote.value.status == Failed
                || (s.quote.value.status == Reconciled && s.quote.value.signature.Some?
                    && s.quote.value.reconciliation)))
  }

  ghost predicate ReleasesJustified(h: History) {
    forall i | 0 <= i < |h.releases| :: h.releases[i].afterBroadcast ==> h.releases[i].afterConclusive
  }

  /** Only a crossing submit signs, so a signature comes with its locks, and quote and record carry the same one. */
  ghost predicate SignedAfterCrossing(s: State) {
    && (s.record.Some? && (s.record.value.signature.Some? || s.record.value.status == Reconciled) ==>
          s.locked && s.record.value.signature.Some?)
    && (s.quote.Some? && s.quote.value.prepared.Some? && s.quote.value.status == Submitted
        && s.quote.value.signature.Some? ==>
          s.record.Some? && s.record.value.signature == s.quote.value.signature)
  }

  ghost predicate Inv(s: State) {
    && SentIsRecorded(s)
    && SignedAfterCrossing(s)
    && ReleasesJustified(s.history)
    && TermsAgree(s)
  }

  /** A prepared quote and the record keep the same terms. */
  ghost predicate TermsAgree(s: State) {
    s.quote.Some? && s.quote.value.prepared.Some? ==>
      s.record.Some? && s.record.value.terms == RecordOf(s.quote.value.prepared.value)
  }

  predicate MayRelease(h: History) {
    h.broadcast ==> h.conclusive
  }

  lemma ReleaseKeeps(s: State, sponsored: bool, w: ReleaseWrites)
    requires Inv(s) && MayRelease(s.history)
    ensures var p := ReleaseExposure(s, sponsored, w);
            && Inv(p.state) && p.state.record == s.record && p.state.quote == s.quote
            && p.state.history.broadcast == s.history.broadcast && p.state.history.conclusive == s.history.conclusive
  {
  }

  lemma TerminalizeKeeps(s: State, cached: Option<Quote>, w: CleanupWrites)
    requires Inv(s) && (cached.Some? ==> cached == s.quote)
    ensures Inv(TerminalizeUnsigned(s, cached, w).state)
  {
    if s.record.Some? && UnsignedCleanupAllowed(s.record.value) {
      ReleaseKeeps(s, s.record.value.sponsored, w.release);
    }
  }

  lemma FailDurableKeeps(s: State, w: FailWrites)
    requires Inv(s) && MayRelease(s.history)
    ensures var p := FailDurableSubmission(s, w);
            && Inv(p.state) && p.state.quote == s.quote
            && p.state.history.broadcast == s.history.broadcast && p.state.history.conclusive == s.history.conclusive
  {
    if s.record.Some? && w.event == Returned {
      ReleaseKeeps(s, s.record.value.sponsored, w.release);
    }
  }

  /** Settling runs on a submitted quote whose record carries the signature. */
  ghost predicate ReadyToSettle(s: State, q: Quote) {
    && Inv(s) && q.prepared.Some? && q.status == Submitted && q.signature.Some?
    && s.record.Some? && s.record.value.terms == RecordOf(q.prepared.value)
    && s.record.value.signature == q.signature
  }

  lemma SettleKeeps(s: State, q: Quote, outcome: CleanOutcome, w: SettlementWrites)
    requires ReadyToSettle(s, q)
    requires outcome != TimeoutUnknown ==> s.history.conclusive
    ensures Inv(Settle(s, q, outcome, w))
  {
    var (s1, verdict) := Verdict(s, q.prepared.value, outcome, w);
    if (outcome == Expired || outcome == ConfirmedChainError) && w.fetched == Returned
       && s.record.value.status != Failed {
      FailDurableKeeps(s, w.fail);
    }
    assert Inv(s1) && s1.record.Some? && s1.history.conclusive == s.history.conclusive;
    if verdict.Some? {
      var s2 := PersistQuote(s1, w.quote, q.(status := StatusAfter(verdict.value), reconciliation := true));
      assert Inv(s2);
      if verdict.value == ReconciledConfirmed {
        ReleaseKeeps(s2, s2.record.value.sponsored, w.release);
      }
    }
  }

  lemma {:induction false} BroadcastConclusive(rounds: seq<Round>)
    ensures Conclusive(BroadcastSpec(rounds).outcome) ==> BroadcastSpec(rounds).conclusive
  {
    if rounds != [] {
      BroadcastConclusive(rounds[1..]);
    }
  }

  lemma BroadcastingKeeps(s: State, q: Quote, w: SubmitWorld)
    requires ReadyToSettle(s, q) && s.quote == Some(q)
    requires s.record.value.status == Submitted && s.record.value.signature.Some?
    ensures Inv(Broadcasting(s, q, w))
  {
    var sent := BroadcastSpec(w.rounds);
    BroadcastConclusive(w.rounds);
    var s1 := Observed(s.(history := s.history.(broadcast := s.history.broadcast || sent.attempted)), sent.conclusive);
    if sent.outcome.Some? {
      SettleKeeps(s1, q, sent.outcome.value, w.settlement);
    }
  }

  /** A submit that has just taken its locks: nothing was signed before. */
  ghost predicate Crossing(s: State, q: Quote) {
    && Inv(s) && s.locked && !s.history.broadcast && s.quote == Some(q) && q.prepared.Some?
    && s.record.Some? && s.record.value.signature.None?
  }

  lemma CrossKeeps(s: State, q: Quote, w: SubmitWorld)
    requires Crossing(s, q)
    ensures Inv(Cross(s, q, w))
  {
    var relaying := q.(status := Relaying);
    var s1 := PersistQuote(s, w.relayingQuote, relaying);
    var s2 := UpdateRecord(s1, w.relayingRecord, s1.record.value.(status := Relaying));
    if w.relayingQuote == Returned && w.relayingRecord == Returned {
      match w.signing
      case SigningThrew =>
      case SignedThenRejected =>
        ReleaseKeeps(s2, s2.record.value.sponsored, w.noBroadcast.release);
      case FullySigned(signature) =>
        var submitted := relaying.(status := Submitted, signature := Some(signature));
        var s3 :=
            UpdateRecord(s2, w.submittedRecord, s2.record.value.(status := Submitted, signature := Some(signature)));
        var s4 := PersistQuote(s3, w.submittedQuote, submitted);
        if w.submittedRecord == Returned && w.submittedQuote == Returned {
          BroadcastingKeeps(s4, submitted, w);
        }
    }
  }

  lemma SubmitKeeps(s: State, w: SubmitWorld)
    requires Inv(s)
    ensures Inv(SubmitSpec(s, w))
  {
    if s.quote.Some? && OpenQuote(s.quote.value) {
      var q := s.quote.value;
      if q.status == Submitted && q.signature.Some? {
        var s1 := Observed(s, Conclusive(w.resumed));
        if w.resumed.Some? {
          SettleKeeps(s1, q, w.resumed.value, w.settlement);
        }
      } else {
        TerminalizeKeeps(s, Some(q), w.cleanup);
        if !s.locked {
          CrossKeeps(s.(locked := true), q, w);
        }
      }
    }
  }

  lemma ReconcileKeeps(s: State, w: ReconcileWorld)
    requires Inv(s)
    ensures Inv(ReconcileSpec(s, w))
  {
    if s.record.Some? && s.record.value.status != Reconciled && s.record.value.status != Failed {
      if s.record.value.status != Submitted || s.record.value.signature.None? {
        FailDurableKeeps(s, w.fail);
      } else {
        var s1 := Observed(s, Conclusive(w.observation));
        if Conclusive(w.observation) {
          var s2 := if w.chain.Found? then Looked(s1, w.chain.landing) else s1;
          assert Inv(s2);
          FailDurableKeeps(s1, w.fail);
          FailDurableKeeps(s2, w.fail);
          ReleaseKeeps(s2, s2.record.value.sponsored, w.release);
        }
      }
    }
  }

  lemma CallKeeps(s: State, c: EngineCall)
    requires Inv(s)
    ensures Inv(CallSpec(s, c))
  {
    match c
    case Prepare(w) =>
    case AbortUnsigned(admitted, w) =>
      TerminalizeKeeps(s, s.quote, w);
    case Submit(w) =>
      SubmitKeeps(s, w);
    case ReconcileStatus(w) =>
      ReconcileKeeps(s, w);
    case QuoteExpires =>
  }

  lemma {:induction false} InvAfter(calls: seq<EngineCall>)
    ensures Inv(After(calls))
  {
    if calls != [] {
      InvAfter(calls[..|calls| - 1]);
      CallKeeps(After(calls[..|calls| - 1]), calls[|calls| - 1]);
    }
  }

  /**
    Over every sequence of engine calls, with any awaited call failing in any way, sponsorship exposure is
    released only while nothing has been broadcast, or after an observation other than `timeout_unknown`.
  */
  lemma ReleasedOnlyWhenSafe(calls: seq<EngineCall>, i: nat)
    requires i < |After(calls).history.releases|
    ensures var release := After(calls).history.releases[i];
            !release.afterBroadcast || release.afterConclusive
  {
    InvAfter(calls);
  }
}
