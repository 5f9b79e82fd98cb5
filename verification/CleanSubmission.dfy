/** Observing and broadcasting a signed transaction (server/clean/submission.ts). */
module CleanSubmission {
  import opened Wrappers

  const BROADCAST_MAX_ROUNDS := 3
  const BROADCAST_SAFETY_FLOOR_BLOCKS := 20

  datatype Confirmation = Processed | Confirmed | Finalized

  /**
    One provider's answer about a signature: an error, no record of it, or a status that may carry an execution error.
  */
  datatype StatusObservation = StatusError | Absent | Seen(confirmation: Option<Confirmation>, failed: bool)

  datatype HeightObservation = HeightError | Height(height: int)

  datatype CleanOutcome = ConfirmedSuccess | ConfirmedChainError | Expired | TimeoutUnknown

  predicate Settled(o: StatusObservation) {
    o.Seen? && (o.confirmation == Some(Confirmed) || o.confirmation == Some(Finalized))
  }

  function ObserveCleanSignature(statuses: seq<StatusObservation>, heights: seq<HeightObservation>,
                                 lastValidBlockHeight: Option<int>): CleanOutcome
  {
    if exists i | 0 <= i < |statuses| :: Settled(statuses[i]) then ConfirmedSuccess
    else if exists i | 0 <= i < |statuses| :: statuses[i].Seen? && statuses[i].failed then ConfirmedChainError
    else if && statuses != [] && (forall i | 0 <= i < |statuses| :: statuses[i].Absent?)
            && lastValidBlockHeight.Some?
            && heights != []
               && (forall i | 0 <= i < |heights| ::
                   heights[i].Height? && heights[i].height > lastValidBlockHeight.value) then Expired
    else TimeoutUnknown
  }

  /** A provider that has seen neither the transaction nor the end of its lifetime keeps the outcome open. */
  ghost predicate Undecided(o: StatusObservation) {
    o.Seen? ==> !Settled(o) && !o.failed
  }

  /**
    The outcome stays open exactly when no provider reports a settled or failed status and some reading needed
    to call the transaction expired is missing: a provider that erred or saw it, or one still inside its lifetime.
  */
  lemma TimeoutExact(statuses: seq<StatusObservation>, heights: seq<HeightObservation>,
                     lastValidBlockHeight: Option<int>)
    ensures ObserveCleanSignature(statuses, heights, lastValidBlockHeight) == TimeoutUnknown <==>
            && (forall o | o in statuses :: Undecided(o))
            && (|| statuses == [] || heights == [] || lastValidBlockHeight.None?
                || (exists o | o in statuses :: !o.Absent?)
                || (exists h | h in heights :: h.HeightError? || h.height <= lastValidBlockHeight.value))
  {
    assert forall i | 0 <= i < |statuses| :: statuses[i] in statuses;
    assert forall i | 0 <= i < |heights| :: heights[i] in heights;
  }

  /** Some provider says that the transaction failed when it was executed. */
  ghost predicate ErrorSeen(statuses: seq<StatusObservation>) {
    exists o | o in statuses :: o.Seen? && o.failed
  }

  ghost predicate SettledSeen(statuses: seq<StatusObservation>) {
    exists o | o in statuses :: Settled(o)
  }

  /**
    When an execution error is reported: if and only if some provider sees it and none has settled the
    transaction. As soon as one provider has, the same failed transaction is reported as a success.
  */
  lemma ErrorReportedExactly(statuses: seq<StatusObservation>, heights: seq<HeightObservation>,
                             lastValidBlockHeight: Option<int>)
    ensures var outcome := ObserveCleanSignature(statuses, heights, lastValidBlockHeight);
            && (outcome == ConfirmedChainError <==> ErrorSeen(statuses) && !SettledSeen(statuses))
            && (outcome == ConfirmedSuccess <==> SettledSeen(statuses))
            && (ErrorSeen(statuses) ==>
                (outcome == ConfirmedSuccess <==> SettledSeen(statuses))
                   && outcome in {ConfirmedSuccess, ConfirmedChainError})
  {
    assert forall i | 0 <= i < |statuses| :: statuses[i] in statuses;
  }

  /**
    One provider's answer and what it comes to. A status at the confirmed or finalized level is a success,
    whether or not it carries an error; below that level only an error decides; a signature nobody has seen has
    expired exactly when the height read is past its lifetime.
  */
  lemma OneAnswer(status: StatusObservation, height: HeightObservation, lastValidBlockHeight: int)
    ensures ObserveCleanSignature([status], [height], Some(lastValidBlockHeight)) ==
            match status
            case StatusError => TimeoutUnknown
            case Absent => if height.Height? && height.height > lastValidBlockHeight then Expired else TimeoutUnknown
            case Seen(Some(Confirmed), _) => ConfirmedSuccess
            case Seen(Some(Finalized), _) => ConfirmedSuccess
            case Seen(_, failed) => if failed then ConfirmedChainError else TimeoutUnknown
  {
    assert [status][0] == status && [height][0] == height;
  }

  /** One provider that has confirmed a failed transaction is enough for a success. */
  lemma FailedButConfirmed(confirmation: Confirmation, heights: seq<HeightObservation>,
                           lastValidBlockHeight: Option<int>)
    ensures ObserveCleanSignature([Seen(Some(confirmation), true)], heights, lastValidBlockHeight)
         == if confirmation == Processed then ConfirmedChainError else ConfirmedSuccess
  {
    var statuses := [Seen(Some(confirmation), true)];
    assert statuses[0] in statuses;
  }

  /** Neither the order of the providers nor one that answers twice changes the outcome. */
  lemma SameAnswersSameOutcome(a: seq<StatusObservation>, b: seq<StatusObservation>, g: seq<HeightObservation>,
                               h: seq<HeightObservation>, lastValidBlockHeight: Option<int>)
    requires (forall o :: o in a <==> o in b) && (forall o :: o in g <==> o in h)
    ensures ObserveCleanSignature(a, g, lastValidBlockHeight) == ObserveCleanSignature(b, h, lastValidBlockHeight)
  {
    ErrorReportedExactly(a, g, lastValidBlockHeight);
    ErrorReportedExactly(b, h, lastValidBlockHeight);
    TimeoutExact(a, g, lastValidBlockHeight);
    TimeoutExact(b, h, lastValidBlockHeight);
    assert (a != [] ==> a[0] in b) && (b != [] ==> b[0] in a);
    assert (g != [] ==> g[0] in h) && (h != [] ==> h[0] in g);
  }

  /** One broadcasting round: what each awaited call answers, None standing for a thrown error. */
  datatype Round = Round(
    remainingBlocks: Option<Option<int>>, broadcast: bool, eventsRecorded: bool,
    observation: Option<CleanOutcome>, observationRecorded: bool)

  /**
    `attempted`: a broadcast may have reached the network. `conclusive`: some observation was not `timeout_unknown`.
  */
  datatype Broadcast = Broadcast(attempted: bool, conclusive: bool, outcome: Option<CleanOutcome>)

  function Conclusive(o: Option<CleanOutcome>): bool {
    o.Some? && o.value != TimeoutUnknown
  }

  function BroadcastSpec(rounds: seq<Round>): Broadcast {
    if rounds == [] then Broadcast(false, false, Some(TimeoutUnknown))
    else
      var r := rounds[0];
      if r.remainingBlocks.None? then Broadcast(false, false, None)
      else if r.remainingBlocks.value.None? || r.remainingBlocks.value.value < BROADCAST_SAFETY_FLOOR_BLOCKS then
        Broadcast(false, Conclusive(r.observation), r.observation)
      else if !r.broadcast || !r.eventsRecorded || r.observation.None? then Broadcast(true, false, None)
      else if Conclusive(r.observation) then
        Broadcast(true, true, if r.observationRecorded then r.observation else None)
      else BroadcastSpec(rounds[1..]).(attempted := true)
  }

  /** Twenty blocks or more are left, the transaction goes out, and the observation leaves it open. */
  predicate RoundGoesOn(r: Round) {
    && r.remainingBlocks.Some? && r.remainingBlocks.value.Some? && r.remainingBlocks.value.value >= 20
    && r.broadcast && r.eventsRecorded && r.observation == Some(TimeoutUnknown)
  }

  /** The height reading answered, and the transaction does not go out: it is only observed once more. */
  predicate OnlyObserves(r: Round) {
    && r.remainingBlocks.Some?
    && (r.remainingBlocks.value.Some? ==> r.remainingBlocks.value.value < 20)
  }

  /**
    What the rounds come to, by the first one that does not go on, if there is one. A round that only observes
    ends in its observation; any other round ends in it once its events and the observation are recorded.
  */
  lemma {:induction false} BroadcastStops(rounds: seq<Round>, k: nat)
    requires k <= |rounds| && (forall i | 0 <= i < k :: RoundGoesOn(rounds[i]))
    requires k < |rounds| ==> !RoundGoesOn(rounds[k])
    ensures var sent := BroadcastSpec(rounds);
      && (forall o :: sent.outcome == Some(o) <==>
            if k == |rounds| then o == TimeoutUnknown
            else && rounds[k].remainingBlocks.Some? && rounds[k].observation == Some(o)
                 && (OnlyObserves(rounds[k])
                     || (rounds[k].broadcast && rounds[k].eventsRecorded && rounds[k].observationRecorded)))
      && (sent.attempted <==> k > 0 || (k < |rounds| && rounds[k].remainingBlocks.Some? && !OnlyObserves(rounds[k])))
      && (sent.conclusive <==>
            && k < |rounds| && rounds[k].remainingBlocks.Some?
            && rounds[k].observation.Some? && rounds[k].observation.value != TimeoutUnknown
            && (OnlyObserves(rounds[k]) || (rounds[k].broadcast && rounds[k].eventsRecorded)))
  {
    if k > 0 {
      BroadcastStops(rounds[1..], k - 1);
    }
  }

  /** Broadcasts and observes until an observation is conclusive, the rounds run out or the lifetime runs low. */
  method BroadcastAndConfirmClean(rounds: seq<Round>) returns (result: Broadcast)
    requires |rounds| == 3
    ensures result == BroadcastSpec(rounds)
    ensures Conclusive(result.outcome) ==> result.conclusive
  {
    var attempted := false;
    var ordinal := 0;
    while ordinal < BROADCAST_MAX_ROUNDS
      invariant 0 <= ordinal <= BROADCAST_MAX_ROUNDS
      invariant BroadcastSpec(rounds)
          == (var rest := BroadcastSpec(rounds[ordinal..]); rest.(attempted := rest.attempted || attempted))
    {
      var r := rounds[ordinal];
      assert rounds[ordinal..][1..] == rounds[ordinal + 1..];
      if r.remainingBlocks.None? {
        return Broadcast(attempted, false, None);
      }
      if r.remainingBlocks.value.None? || r.remainingBlocks.value.value < BROADCAST_SAFETY_FLOOR_BLOCKS {
        return Broadcast(attempted, Conclusive(r.observation), r.observation);
      }
      attempted := true;
      if !r.broadcast || !r.eventsRecorded || r.observation.None? {
        return Broadcast(attempted, false, None);
      }
      if Conclusive(r.observation) {
        return Broadcast(attempted, true, if r.observationRecorded then r.observation else None);
      }
      ordinal := ordinal + 1;
    }
    return Broadcast(attempted, false, Some(TimeoutUnknown));
  }
}
