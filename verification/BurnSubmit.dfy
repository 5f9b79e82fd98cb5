/**
  Concurrent runs of BurnEngine.submit (server/burn/engine.ts) against one store of replay locks.
  Each run is a small machine; a schedule interleaves the runs at every await, and any await may throw,
  before or after taking effect.
*/
module BurnSubmit {
  import opened Wrappers
  import opened Sequences
  import opened Ledger

  const LOCK_TTL_SECONDS := 86400

  /** Where a run is. */
  datatype Phase =
    | Acquiring(next: nat)
    | Checking
    | AcquiringFinal(hash: string)
    | Rechecking
    | Crossed
    | Signed
    | Submitted
    | Releasing
    | Finished

  /**
    A run and its locks: those pushed to `acquired`, the first `returned` of which the catch block has handed
    back, and `lost`, a lock that was taken by a call whose reply never arrived, so that it was not pushed.
    `validated` is the hash of the message the wallet returned, once it has been validated.
  */
  datatype Run = Run(
    quoteId: string, wallet: string, clientRequestId: string, requestId: string, preparedHash: string,
    phase: Phase, validated: Option<string>, acquired: seq<string>, returned: nat, lost: set<string>, crossed: bool)

  /** The shared store and every submit in flight. */
  datatype World = World(store: Store, runs: seq<Run>)

  function ReplayKeys(r: Run): seq<string> {
    ["burn-submission:" + r.quoteId, "message:" + r.preparedHash,
     "burn-submit-request:" + r.wallet + ":" + r.clientRequestId]
  }

  predicate JustStarted(r: Run) {
    r.phase == Acquiring(0) && r.validated.None? && r.acquired == [] && r.returned == 0 && r.lost == {} && !r.crossed
  }

  /**
    How the awaited call of a run's current phase ends: it returns, throws without having done anything,
    or takes effect at the store and throws all the same. `Validated` is the validation returning a hash.
  */
  datatype Event = Proceed | Throw | ThrowAfterEffect | Validated(hash: string)

  datatype Action = Action(run: nat, now: int, event: Event)

  predicate Throws(event: Event) {
    event == Throw || event == ThrowAfterEffect
  }

  /** The acquired locks that are not handed back. */
  function Kept(r: Run): set<string> {
    if r.returned <= |r.acquired| then set k | k in r.acquired[r.returned..] else {}
  }

  /** The locks in the store that are the run's. */
  function Held(r: Run): set<string> {
    Kept(r) + r.lost
  }

  /** Every lock the run has ever taken. */
  function Taken(r: Run): set<string> {
    (set k | k in r.acquired) + r.lost
  }

  /** The catch block: before the boundary the acquired locks are handed back, after it none is. */
  function Fail(r: Run): Run {
    r.(phase := if r.crossed then Finished else Releasing)
  }

  function Acquire(store: Store, now: int, r: Run, key: string, onward: Phase, event: Event): (Store, Run) {
    var outcome := Apply(store, now, AcquireReplayLock(key, r.requestId, LOCK_TTL_SECONDS));
    var taken := outcome.answer == Flag(true);
    if event == Throw then (store, Fail(r))
    else if event == ThrowAfterEffect then (outcome.store, Fail(if taken then r.(lost := r.lost + {key}) else r))
    else if taken then (outcome.store, r.(phase := onward, acquired := r.acquired + [key]))
    else (outcome.store, Fail(r))
  }

  /** One turn of the catch block's loop; nothing catches what a release throws, so that ends the run. */
  function Release(store: Store, now: int, r: Run, event: Event): (Store, Run) {
    if r.returned >= |r.acquired| then (store, r.(phase := Finished))
    else if event == Throw then (store, r.(phase := Finished))
    else
      (Apply(store, now, ReleaseReplayLockIfSafe(r.acquired[r.returned], r.requestId)).store,
       r.(returned := r.returned + 1, phase := if event == ThrowAfterEffect then Finished else Releasing))
  }

  /** One step of one run, at time `now` on the live entries. */
  function StepRun(store: Store, now: int, r: Run, event: Event): (Store, Run) {
    match r.phase
    case Finished => (store, r)
    case Releasing => Release(store, now, r, event)
    case Acquiring(next) =>
      if next < 3 then Acquire(store, now, r, ReplayKeys(r)[next], Acquiring(next + 1), event)
      else (store, if Throws(event) then Fail(r) else r.(phase := Checking))
    case AcquiringFinal(hash) => Acquire(store, now, r, "message:" + hash, Rechecking, event)
    case _ => (store, if Throws(event) then Fail(r) else Onward(r, event))
  }

  /** The phases that touch no lock. */
  function Onward(r: Run, event: Event): Run {
    match r.phase
    case Checking =>
      if event.Validated? then
        r.(validated := Some(event.hash),
           phase := if event.hash != r.preparedHash then AcquiringFinal(event.hash) else Rechecking)
      else r
    case Rechecking => r.(phase := Crossed, crossed := true)
    case Crossed => r.(phase := Signed)
    case Signed => r.(phase := Submitted)
    case Submitted => r.(phase := Finished)
    case _ => r
  }

  function Next(w: World, a: Action): World {
    if a.run >= |w.runs| then w
    else
      var (store, r) := StepRun(Live(w.store, a.now), a.now, w.runs[a.run], a.event);
      World(store, w.runs[a.run := r])
  }

  function Reached(w: World, schedule: seq<Action>): World {
    if schedule == [] then w else Next(Reached(w, schedule[..|schedule| - 1]), schedule[|schedule| - 1])
  }

  /** All steps happen within one lock lifetime of `start`. */
  ghost predicate WithinLockLifetime(schedule: seq<Action>, start: int) {
    forall i | 0 <= i < |schedule| :: start <= schedule[i].now < start + LOCK_TTL_SECONDS * 1000
  }

  ghost predicate Initial(w: World) {
    forall i | 0 <= i < |w.runs| :: JustStarted(w.runs[i])
  }

  // ---------------------------------------------------------------- the invariant

  /** Nothing handed back and nothing lost yet. */
  predicate Orderly(r: Run) {
    r.returned == 0 && r.lost == {}
  }

  /** The three locks every run takes, and the one on the message the wallet returned. */
  ghost predicate AllLocks(r: Run) {
    && ReplayKeys(r) <= r.acquired
    && r.validated.Some? && "message:" + r.validated.value in r.acquired
  }

  /** A run's locks are those its phase says it has been through. */
  ghost predicate RunShape(r: Run) {
    && Distinct(r.acquired)
    && r.returned <= |r.acquired|
    && (forall k | k in r.lost :: k !in r.acquired)
    && match r.phase
       case Acquiring(next) => next <= 3 && r.acquired == ReplayKeys(r)[..next] && !r.crossed && Orderly(r)
       case Checking => r.acquired == ReplayKeys(r) && !r.crossed && Orderly(r)
       case AcquiringFinal(hash) => r.acquired == ReplayKeys(r) && r.validated == Some(hash) && !r.crossed && Orderly(r)
       case Rechecking => AllLocks(r) && !r.crossed && Orderly(r)
       case Releasing => !r.crossed
       case Finished => r.crossed ==> AllLocks(r) && Orderly(r)
       case _ => AllLocks(r) && r.crossed && Orderly(r)
  }

  /** Every held lock is in the store under its holder's request id, and outlives `until`. */
  ghost predicate HoldsLocks(store: Store, r: Run, until: int) {
    forall k | k in Held(r) ::
      Replay(k) in store && store[Replay(k)].content == Owner(r.requestId) && store[Replay(k)].expires >= until
  }

  ghost predicate Disjoint(a: Run, b: Run) {
    Held(a) !! Held(b)
  }

  ghost predicate Invariant(w: World, until: int) {
    && (forall i | 0 <= i < |w.runs| :: RunShape(w.runs[i]) && HoldsLocks(w.store, w.runs[i], until))
    && (forall i, j | 0 <= i < j < |w.runs| :: Disjoint(w.runs[i], w.runs[j]))
  }

  /** Nothing but locks changes, and only the lock a run takes or hands back. */
  ghost predicate OnlyLock(before: Store, after: Store, key: string) {
    forall k | k != Replay(key) :: (k in after <==> k in before) && (k in before ==> after[k] == before[k])
  }

  /** What a step does to the store and to the locks of the run that takes it. */
  ghost predicate StepEffect(store: Store, r: Run, after: Store, r': Run, key: string) {
    && OnlyLock(store, after, key)
    && (after == store || Replay(key) !in store || key in Held(r))
    && (forall k | k in Held(r') :: k in Held(r) || (k == key && Replay(key) !in store))
    && (forall k | k in Held(r) :: k in Held(r') || Replay(k) !in after)
    && (forall k | k in Taken(r') :: k in Taken(r) || k in Held(r'))
    && (forall k | k in Taken(r) :: k in Taken(r'))
    && (Replay(key) in after ==> Replay(key) in store || key in Held(r'))
  }

  /** The lock a step may take or hand back, if it can do either. */
  predicate TouchesLock(r: Run) {
    match r.phase
    case Releasing => r.returned < |r.acquired|
    case Acquiring(next) => next < 3
    case AcquiringFinal(_) => true
    case _ => false
  }

  function TouchedLock(r: Run): string
    requires TouchesLock(r)
  {
    match r.phase
    case Releasing => r.acquired[r.returned]
    case Acquiring(next) => ReplayKeys(r)[next]
    case AcquiringFinal(hash) => "message:" + hash
  }

  lemma FailKeeps(r: Run)
    requires RunShape(r) && !r.phase.Releasing? && !r.phase.Finished?
    ensures RunShape(Fail(r)) && Held(Fail(r)) == Held(r) && Taken(Fail(r)) == Taken(r)
  {
  }

  lemma MembersWithLast(keys: seq<string>, key: string)
    ensures (set k | k in keys + [key]) == (set k | k in keys) + {key}
    ensures keys[0..] == keys && (keys + [key])[0..] == keys + [key]
  {
  }

  /** The lock is pushed: one more lock in order. */
  lemma PushKeeps(r: Run, key: string, onward: Phase)
    requires RunShape(r) && TouchesLock(r) && !r.phase.Releasing? && key == TouchedLock(r) && key !in r.acquired
    requires onward == if r.phase.Acquiring? then Acquiring(r.phase.next + 1) else Rechecking
    ensures var r' := r.(phase := onward, acquired := r.acquired + [key]);
            RunShape(r') && Held(r') == Held(r) + {key} && Taken(r') == Taken(r) + {key}
  {
    MembersWithLast(r.acquired, key);
    if r.phase.Acquiring? {
      assert ReplayKeys(r)[..r.phase.next + 1] == ReplayKeys(r)[..r.phase.next] + [key];
    } else {
      assert (r.acquired + [key])[|r.acquired|] == key;
    }
  }

  /** The lock is taken but not pushed, and the run goes to its catch block. */
  lemma LossKeeps(r: Run, key: string)
    requires RunShape(r) && TouchesLock(r) && !r.phase.Releasing? && key !in r.acquired
    ensures var r' := Fail(r.(lost := r.lost + {key}));
            RunShape(r') && Held(r') == Held(r) + {key} && Taken(r') == Taken(r) + {key}
  {
  }

  /** The run after an acquiring step: refused, taken, or taken with the reply lost. */
  lemma AcquireOutcome(store: Store, now: int, r: Run, event: Event)
    requires TouchesLock(r) && !r.phase.Releasing?
    ensures var (after, r') := StepRun(store, now, r, event);
            var key := TouchedLock(r);
            var onward := if r.phase.Acquiring? then Acquiring(r.phase.next + 1) else Rechecking;
            || (after == store && r' == Fail(r))
            || (&& Replay(key) !in store
                && after == store[Replay(key) := Entry(Owner(r.requestId), now + LOCK_TTL_SECONDS * 1000)]
                && (r' == r.(phase := onward, acquired := r.acquired + [key])
                    || r' == Fail(r.(lost := r.lost + {key}))))
  {
  }

  lemma AcquireStep(store: Store, now: int, r: Run, event: Event, until: int)
    requires until <= now + LOCK_TTL_SECONDS * 1000
    requires RunShape(r) && HoldsLocks(store, r, until) && TouchesLock(r) && !r.phase.Releasing?
    ensures var (after, r') := StepRun(store, now, r, event);
            RunShape(r') && HoldsLocks(after, r', until) && StepEffect(store, r, after, r', TouchedLock(r))
  {
    var key := TouchedLock(r);
    AcquireOutcome(store, now, r, event);
    FailKeeps(r);
    assert r.acquired[0..] == r.acquired;
    if Replay(key) !in store {
      assert key !in Held(r) && key !in r.acquired;
      PushKeeps(r, key, if r.phase.Acquiring? then Acquiring(r.phase.next + 1) else Rechecking);
      LossKeeps(r, key);
    }
  }

  /** Counting one more lock as handed back takes exactly that lock out of those kept. */
  lemma KeptShrinks(r: Run, r': Run)
    requires Distinct(r.acquired) && r.returned < |r.acquired|
    requires r'.acquired == r.acquired && r'.returned == r.returned + 1
    ensures r.acquired[r.returned] in Kept(r) && Kept(r') == Kept(r) - {r.acquired[r.returned]}
  {
    var n := r.returned;
    var key := r.acquired[n];
    assert r.acquired[n..] == [key] + r.acquired[n + 1..];
    assert key !in r.acquired[n + 1..] by {
      assert forall i | n + 1 <= i < |r.acquired| :: r.acquired[i] != key;
    }
  }

  lemma ReleaseStep(store: Store, now: int, r: Run, event: Event, until: int)
    requires RunShape(r) && HoldsLocks(store, r, until) && r.phase.Releasing? && r.returned < |r.acquired|
    ensures var (after, r') := StepRun(store, now, r, event);
            RunShape(r') && HoldsLocks(after, r', until) && StepEffect(store, r, after, r', TouchedLock(r))
  {
    var key := r.acquired[r.returned];
    var (after, r') := StepRun(store, now, r, event);
    KeptShrinks(r, r.(returned := r.returned + 1));
    assert key in Held(r) && key in r.acquired && key !in r.lost;
    if event == Throw {
      assert Held(r') == Held(r) && Taken(r') == Taken(r);
    } else {
      assert after == store - {Replay(key)};
      assert Held(r') == Held(r) - {key} && Taken(r') == Taken(r);
    }
  }

  lemma OnwardKeeps(r: Run, event: Event)
    requires RunShape(r) && !TouchesLock(r) && !r.phase.Releasing? && !r.phase.Acquiring?
    ensures RunShape(Onward(r, event)) && Held(Onward(r, event)) == Held(r) && Taken(Onward(r, event)) == Taken(r)
  {
    assert r.phase.Checking? ==> ReplayKeys(r)[1] in r.acquired;
  }

  lemma QuietStep(store: Store, now: int, r: Run, event: Event)
    requires RunShape(r) && !TouchesLock(r)
    ensures var (after, r') := StepRun(store, now, r, event);
            && after == store && RunShape(r')
            && Held(r') == Held(r) && Taken(r') == Taken(r)
  {
    if r.phase.Acquiring? {
      FailKeeps(r);
      assert ReplayKeys(r)[..3] == ReplayKeys(r);
    } else if !r.phase.Releasing? && !r.phase.Finished? {
      FailKeeps(r);
      OnwardKeeps(r, event);
    }
  }

  /** A step of one run keeps its own locks in order and touches no lock that another run may hold. */
  lemma StepRunKeeps(store: Store, now: int, r: Run, event: Event, until: int) returns (key: string)
    requires until <= now + LOCK_TTL_SECONDS * 1000
    requires RunShape(r) && HoldsLocks(store, r, until)
    ensures var (after, r') := StepRun(store, now, r, event);
            RunShape(r') && HoldsLocks(after, r', until) && StepEffect(store, r, after, r', key)
  {
    if !TouchesLock(r) {
      key := "";
      QuietStep(store, now, r, event);
    } else {
      key := TouchedLock(r);
      if r.phase.Releasing? {
        ReleaseStep(store, now, r, event, until);
      } else {
        AcquireStep(store, now, r, event, until);
      }
    }
  }

  lemma LiveKeepsLocks(store: Store, r: Run, now: int, until: int)
    requires HoldsLocks(store, r, until) && now < until
    ensures HoldsLocks(Live(store, now), r, until)
  {
  }

  lemma NextKeeps(w: World, a: Action, until: int)
    requires Invariant(w, until) && a.now < until <= a.now + LOCK_TTL_SECONDS * 1000
    ensures Invariant(Next(w, a), until)
  {
    if a.run < |w.runs| {
      var live := Live(w.store, a.now);
      forall i | 0 <= i < |w.runs| ensures HoldsLocks(live, w.runs[i], until) {
        LiveKeepsLocks(w.store, w.runs[i], a.now, until);
      }
      var r := w.runs[a.run];
      var key := StepRunKeeps(live, a.now, r, a.event, until);
      var w' := Next(w, a);
      var r' := w'.runs[a.run];
      forall i | 0 <= i < |w.runs| && i != a.run
        ensures HoldsLocks(w'.store, w.runs[i], until) && Disjoint(w.runs[i], r') && Disjoint(r', w.runs[i])
      {
        assert Disjoint(w.runs[i], r) && Disjoint(r, w.runs[i]) by {
          assert if i < a.run then Disjoint(w.runs[i], w.runs[a.run]) else Disjoint(w.runs[a.run], w.runs[i]);
        }
        assert forall k | k in Held(w.runs[i]) :: Replay(k) in live && k !in Held(r);
      }
    }
  }

  lemma {:induction false} InvariantReached(w: World, schedule: seq<Action>, start: int)
    requires Initial(w) && WithinLockLifetime(schedule, start)
    ensures Invariant(Reached(w, schedule), start + LOCK_TTL_SECONDS * 1000)
    ensures |Reached(w, schedule).runs| == |w.runs|
  {
    if schedule == [] {
      assert forall i | 0 <= i < |w.runs| :: ReplayKeys(w.runs[i])[..0] == [];
    } else {
      var last := |schedule| - 1;
      InvariantReached(w, schedule[..last], start);
      NextKeeps(Reached(w, schedule[..last]), schedule[last], start + LOCK_TTL_SECONDS * 1000);
    }
  }

  /** Every lock a run has taken and that is still in the store is held by some run. */
  ghost predicate Claimed(w: World) {
    forall i, k | 0 <= i < |w.runs| && k in Taken(w.runs[i]) && Replay(k) in w.store ::
      exists j :: 0 <= j < |w.runs| && k in Held(w.runs[j])
  }

  lemma ClaimedNext(w: World, a: Action, until: int)
    requires Invariant(w, until) && Claimed(w) && a.now < until <= a.now + LOCK_TTL_SECONDS * 1000
    ensures Claimed(Next(w, a))
  {
    var w' := Next(w, a);
    if a.run < |w.runs| {
      var live, r := Live(w.store, a.now), w.runs[a.run];
      LiveKeepsLocks(w.store, r, a.now, until);
      var key := StepRunKeeps(live, a.now, r, a.event, until);
      forall i, k | 0 <= i < |w'.runs| && k in Taken(w'.runs[i]) && Replay(k) in w'.store
        ensures exists j :: 0 <= j < |w'.runs| && k in Held(w'.runs[j])
      {
        if k !in Held(w'.runs[a.run]) {
          assert k in Taken(w.runs[i]) && Replay(k) in live;
          var j :| 0 <= j < |w.runs| && k in Held(w.runs[j]);
          assert j != a.run && w'.runs[j] == w.runs[j];
        }
      }
    }
  }

  lemma {:induction false} ClaimedReached(w: World, schedule: seq<Action>, start: int)
    requires Initial(w) && WithinLockLifetime(schedule, start)
    ensures Claimed(Reached(w, schedule))
  {
    if schedule != [] {
      var last := |schedule| - 1;
      ClaimedReached(w, schedule[..last], start);
      InvariantReached(w, schedule[..last], start);
      ClaimedNext(Reached(w, schedule[..last]), schedule[last], start + LOCK_TTL_SECONDS * 1000);
    }
  }

  // ---------------------------------------------------------------- what every schedule keeps

  /** The world before the step at a position of the schedule, and the acting run there. */
  function Before(w: World, schedule: seq<Action>, n: nat): World
    requires n <= |schedule|
  {
    Reached(w, schedule[..n])
  }

  predicate ActsAt(w: World, schedule: seq<Action>, i: nat, n: nat) {
    n < |schedule| && schedule[n].run == i && i < |Before(w, schedule, n).runs|
  }

  /** The run's validation returned this hash at this position of the schedule. */
  ghost predicate ValidatedAt(w: World, schedule: seq<Action>, i: nat, n: nat, hash: string) {
    && ActsAt(w, schedule, i, n)
    && Before(w, schedule, n).runs[i].phase.Checking?
    && schedule[n].event == Validated(hash)
  }

  /** The validations of a run are what it remembers, and none is ahead of a run that has not checked. */
  ghost predicate Remembers(w: World, schedule: seq<Action>, i: nat)
    requires i < |Reached(w, schedule).runs|
  {
    var r := Reached(w, schedule).runs[i];
    && (forall n, hash | ValidatedAt(w, schedule, i, n, hash) :: r.validated == Some(hash))
    && (r.validated.Some? ==> exists n :: ValidatedAt(w, schedule, i, n, r.validated.value))
    && (r.phase.Acquiring? || r.phase.Checking? ==> r.validated.None?)
  }

  lemma ValidatedBefore(w: World, schedule: seq<Action>, i: nat, n: nat, hash: string)
    requires schedule != []
    ensures ValidatedAt(w, schedule, i, n, hash) <==>
            || (n < |schedule| - 1 && ValidatedAt(w, schedule[..|schedule| - 1], i, n, hash))
            || (n == |schedule| - 1 && ValidatedAt(w, schedule, i, n, hash))
  {
    if n < |schedule| - 1 {
      assert schedule[..|schedule| - 1][..n] == schedule[..n];
    }
  }

  /** A step remembers the hash of the validation it is, and otherwise what was there. */
  lemma StepRemembers(store: Store, now: int, r: Run, event: Event)
    requires r.phase.Acquiring? || r.phase.Checking? ==> r.validated.None?
    ensures var r' := StepRun(store, now, r, event).1;
            && r'.validated == (if r.phase.Checking? && event.Validated? then Some(event.hash) else r.validated)
            && (r'.phase.Acquiring? || r'.phase.Checking? ==> r'.validated.None?)
            && (r.validated.Some? ==> !r.phase.Checking?)
  {
  }

  lemma {:induction false} RemembersReached(w: World, schedule: seq<Action>, i: nat)
    requires Initial(w) && i < |w.runs|
    ensures |Reached(w, schedule).runs| == |w.runs| && Remembers(w, schedule, i)
  {
    if schedule != [] {
      var last := |schedule| - 1;
      RemembersReached(w, schedule[..last], i);
      var before, a := Reached(w, schedule[..last]), schedule[last];
      forall n: nat, hash
        ensures ValidatedAt(w, schedule, i, n, hash) <==>
                || (n < last && ValidatedAt(w, schedule[..last], i, n, hash))
                || (n == last && ValidatedAt(w, schedule, i, n, hash))
      {
        ValidatedBefore(w, schedule, i, n, hash);
      }
      assert forall n: nat, hash | ValidatedAt(w, schedule[..last], i, n, hash) :: n < last;
      StepRemembers(Live(before.store, a.now), a.now, before.runs[i], a.event);
      var r' := Reached(w, schedule).runs[i];
      if a.run == i && before.runs[i].phase.Checking? && a.event.Validated? {
        assert ValidatedAt(w, schedule, i, last, a.event.hash);
      } else if r'.validated.Some? {
        var n :| ValidatedAt(w, schedule[..last], i, n, r'.validated.value);
        assert ValidatedAt(w, schedule, i, n, r'.validated.value);
      }
    }
  }

  /**
    Over every schedule within a lock lifetime, a run that has crossed had its message validated, exactly one
    hash was returned, and the run holds the locks on its quote, on the prepared message, on its request and on
    the message with that hash.
  */
  lemma CrossedHoldsFinalLock(w: World, schedule: seq<Action>, start: int, i: nat)
    requires Initial(w) && WithinLockLifetime(schedule, start) && i < |w.runs|
    ensures |Reached(w, schedule).runs| == |w.runs|
    ensures var r := Reached(w, schedule).runs[i];
            r.crossed ==>
              && (exists n, hash :: ValidatedAt(w, schedule, i, n, hash))
              && (forall n, hash | ValidatedAt(w, schedule, i, n, hash) ::
                    r.validated == Some(hash) &&
                    {"burn-submission:" + r.quoteId, "message:" + r.preparedHash, "message:" + hash,
                     "burn-submit-request:" + r.wallet + ":" + r.clientRequestId} <= Held(r))
  {
    InvariantReached(w, schedule, start);
    RemembersReached(w, schedule, i);
    var r := Reached(w, schedule).runs[i];
    assert RunShape(r);
    if r.crossed {
      assert AllLocks(r) && r.acquired[0..] == r.acquired;
      assert ReplayKeys(r)[0] in r.acquired && ReplayKeys(r)[1] in r.acquired && ReplayKeys(r)[2] in r.acquired;
    }
  }

  /** The messages a run is about: the one prepared and those validated. */
  ghost predicate About(w: World, schedule: seq<Action>, i: nat, hash: string)
    requires i < |Reached(w, schedule).runs|
  {
    hash == Reached(w, schedule).runs[i].preparedHash || exists n :: ValidatedAt(w, schedule, i, n, hash)
  }

  /** No message, prepared or returned by the wallet, is that of two runs which have both crossed. */
  lemma CrossedMessagesDiffer(w: World, schedule: seq<Action>, start: int, i: nat, j: nat, hash: string)
    requires Initial(w) && WithinLockLifetime(schedule, start) && i < j < |w.runs|
    ensures |Reached(w, schedule).runs| == |w.runs|
    ensures var a, b := Reached(w, schedule).runs[i], Reached(w, schedule).runs[j];
            a.crossed && b.crossed ==> !(About(w, schedule, i, hash) && About(w, schedule, j, hash))
  {
    InvariantReached(w, schedule, start);
    CrossedHoldsMessages(w, schedule, start, i, hash);
    CrossedHoldsMessages(w, schedule, start, j, hash);
    assert Disjoint(Reached(w, schedule).runs[i], Reached(w, schedule).runs[j]);
  }

  lemma CrossedHoldsMessages(w: World, schedule: seq<Action>, start: int, i: nat, hash: string)
    requires Initial(w) && WithinLockLifetime(schedule, start) && i < |w.runs|
    ensures |Reached(w, schedule).runs| == |w.runs|
    ensures var r := Reached(w, schedule).runs[i];
            r.crossed && About(w, schedule, i, hash) ==> "message:" + hash in Held(r)
  {
    CrossedHoldsFinalLock(w, schedule, start, i);
  }

  /** A returned message that another submit has locked sends the run to its catch block. */
  lemma FinalLockRefuses(w: World, i: nat, now: int, later: int, hash: string)
    requires i < |w.runs| && w.runs[i].phase.Checking? && !w.runs[i].crossed && hash != w.runs[i].preparedHash
    requires now <= later && Replay("message:" + hash) in Live(w.store, later)
    ensures var r := w.runs[i];
            Next(Next(w, Action(i, now, Validated(hash))), Action(i, later, Proceed)).runs[i]
            == r.(validated := Some(hash), phase := Releasing)
  {
    var one := Next(w, Action(i, now, Validated(hash)));
    assert one.runs[i] == w.runs[i].(validated := Some(hash), phase := AcquiringFinal(hash));
    LiveTwice(w.store, now, later);
    assert Replay("message:" + hash) in Live(one.store, later);
  }

  /**
    For any number of interleaved submits within a lock lifetime, two runs that have both crossed the relayer
    boundary are for different quotes, different prepared messages and different requests, and share no lock.
  */
  lemma AtMostOneCrossing(w: World, schedule: seq<Action>, start: int, i: nat, j: nat)
    requires Initial(w) && WithinLockLifetime(schedule, start) && i < j < |w.runs|
    ensures |Reached(w, schedule).runs| == |w.runs|
    ensures var a, b := Reached(w, schedule).runs[i], Reached(w, schedule).runs[j];
            a.crossed && b.crossed ==>
              && a.quoteId != b.quoteId
              && a.preparedHash != b.preparedHash
              && (a.wallet != b.wallet || a.clientRequestId != b.clientRequestId)
              && (forall k | k in a.acquired :: k !in b.acquired)
  {
    InvariantReached(w, schedule, start);
    var w' := Reached(w, schedule);
    var a, b := w'.runs[i], w'.runs[j];
    if a.crossed && b.crossed {
      assert RunShape(a) && RunShape(b) && Disjoint(a, b);
      assert a.acquired[0..] == a.acquired && b.acquired[0..] == b.acquired;
      assert ReplayKeys(a)[0] in a.acquired && ReplayKeys(b)[0] in b.acquired;
      assert ReplayKeys(a)[1] in a.acquired && ReplayKeys(b)[1] in b.acquired;
      assert ReplayKeys(a)[2] in a.acquired && ReplayKeys(b)[2] in b.acquired;
    }
  }

  lemma RemovedIsReturned(store: Store, now: int, r: Run, event: Event, lock: string)
    requires Replay(lock) in store && Replay(lock) !in StepRun(store, now, r, event).0
    ensures r.phase.Releasing? && r.returned < |r.acquired| && lock == r.acquired[r.returned]
  {
  }

  /**
    Whenever a step removes a live lock, the acting run is its holder, and no other run holds it,
    even one that carries the same request id.
  */
  lemma OnlyTheHolderReleases(w: World, schedule: seq<Action>, start: int, a: Action, lock: string)
    requires Initial(w) && WithinLockLifetime(schedule + [a], start)
    requires var w' := Reached(w, schedule);
             Replay(lock) in Live(w'.store, a.now) && Replay(lock) !in Next(w', a).store
    ensures var w' := Reached(w, schedule);
            && a.run < |w'.runs|
            && lock in Held(w'.runs[a.run])
            && lock in w'.runs[a.run].acquired
            && forall j | 0 <= j < |w'.runs| && j != a.run :: lock !in Held(w'.runs[j])
  {
    assert (schedule + [a])[..|schedule|] == schedule;
    assert (schedule + [a])[|schedule|] == a;
    assert forall i | 0 <= i < |schedule| :: (schedule + [a])[i] == schedule[i];
    InvariantReached(w, schedule, start);
    var w' := Reached(w, schedule);
    var until := start + LOCK_TTL_SECONDS * 1000;
    assert a.run < |w'.runs|;
    var r := w'.runs[a.run];
    LiveKeepsLocks(w'.store, r, a.now, until);
    var key := StepRunKeeps(Live(w'.store, a.now), a.now, r, a.event, until);
    assert key == lock;
    RemovedIsReturned(Live(w'.store, a.now), a.now, r, a.event, lock);
    forall j | 0 <= j < |w'.runs| && j != a.run ensures lock !in Held(w'.runs[j]) {
      assert if j < a.run then Disjoint(w'.runs[j], r) else Disjoint(r, w'.runs[j]);
    }
  }

  // ---------------------------------------------------------------- locks left behind

  /** A run at a step of an acquire whose reply is lost. */
  predicate LosingStep(store: Store, r: Run, event: Event, lock: string) {
    && event == ThrowAfterEffect && TouchesLock(r) && !r.phase.Releasing? && TouchedLock(r) == lock
    && Replay(lock) !in store
  }

  /** A run at a release that throws with the lock not handed back. */
  predicate ThrowingStep(r: Run, event: Event, lock: string) {
    && Throws(event) && r.phase.Releasing? && r.returned < |r.acquired|
    && lock in r.acquired[if event == Throw then r.returned else r.returned + 1..]
  }

  predicate Failed(r: Run) {
    r.phase.Finished? && !r.crossed
  }

  /** The step took the lock, and its reply was lost. */
  ghost predicate LosesReply(w: World, schedule: seq<Action>, i: nat, n: nat, lock: string) {
    && ActsAt(w, schedule, i, n)
    && var before := Before(w, schedule, n);
    LosingStep(Live(before.store, schedule[n].now), before.runs[i], schedule[n].event, lock)
  }

  /** The step handed a lock back and threw, with this one not handed back yet. */
  ghost predicate ThrowsReleasing(w: World, schedule: seq<Action>, i: nat, n: nat, lock: string) {
    ActsAt(w, schedule, i, n) && ThrowingStep(Before(w, schedule, n).runs[i], schedule[n].event, lock)
  }

  ghost predicate ReplyLost(w: World, schedule: seq<Action>, i: nat, lock: string) {
    exists n :: LosesReply(w, schedule, i, n, lock)
  }

  /** A release at or before this lock's own threw, and its own did not take effect. */
  ghost predicate ReleaseThrew(w: World, schedule: seq<Action>, i: nat, lock: string) {
    exists n :: ThrowsReleasing(w, schedule, i, n, lock)
  }

  /** The lock is still in the store and no other run has it. */
  ghost predicate LeftBehind(w: World, i: nat, lock: string) {
    Replay(lock) in w.store && forall j | 0 <= j < |w.runs| && j != i :: lock !in Held(w.runs[j])
  }

  /** The history of one run's locks. */
  ghost predicate Explained(w: World, schedule: seq<Action>, i: nat, lock: string)
    requires i < |Reached(w, schedule).runs|
  {
    var r := Reached(w, schedule).runs[i];
    && (lock in r.lost <==> ReplyLost(w, schedule, i, lock))
    && (if Failed(r) then lock in Kept(r) <==> ReleaseThrew(w, schedule, i, lock)
        else !ReleaseThrew(w, schedule, i, lock))
  }

  lemma ExtendedHistory(w: World, schedule: seq<Action>, i: nat, lock: string)
    requires schedule != []
    ensures var last := |schedule| - 1;
            && (ReplyLost(w, schedule, i, lock)
                <==> ReplyLost(w, schedule[..last], i, lock) || LosesReply(w, schedule, i, last, lock))
            && (ReleaseThrew(w, schedule, i, lock) <==>
                  ReleaseThrew(w, schedule[..last], i, lock) || ThrowsReleasing(w, schedule, i, last, lock))
  {
    var last := |schedule| - 1;
    forall n: nat | n < last
      ensures LosesReply(w, schedule, i, n, lock) <==> LosesReply(w, schedule[..last], i, n, lock)
      ensures ThrowsReleasing(w, schedule, i, n, lock) <==> ThrowsReleasing(w, schedule[..last], i, n, lock)
    {
      assert schedule[..last][..n] == schedule[..n];
    }
    assert forall n: nat | LosesReply(w, schedule, i, n, lock) :: n <= last;
    assert forall n: nat | ThrowsReleasing(w, schedule, i, n, lock) :: n <= last;
  }

  /** One step adds to the history exactly what it does to the run's locks. */
  lemma ExplainedStep(w: World, schedule: seq<Action>, i: nat, lock: string)
    requires schedule != [] && i < |Reached(w, schedule[..|schedule| - 1]).runs|
    requires RunShape(Reached(w, schedule[..|schedule| - 1]).runs[i])
    requires Explained(w, schedule[..|schedule| - 1], i, lock)
    ensures i < |Reached(w, schedule).runs| && Explained(w, schedule, i, lock)
  {
    var last := |schedule| - 1;
    ExtendedHistory(w, schedule, i, lock);
    assert Before(w, schedule, last) == Reached(w, schedule[..last]);
    var w0 := Reached(w, schedule[..last]);
    var r, a := w0.runs[i], schedule[last];
    if a.run == i {
      var live := Live(w0.store, a.now);
      LossExplained(live, a.now, r, a.event, lock);
      if r.phase.Releasing? {
        ReleaseExplained(live, a.now, r, a.event, lock);
      } else {
        OnlyReleasingFails(live, a.now, r, a.event);
      }
    }
  }

  lemma LossExplained(store: Store, now: int, r: Run, event: Event, lock: string)
    ensures var r' := StepRun(store, now, r, event).1;
            lock in r'.lost <==> lock in r.lost || LosingStep(store, r, event, lock)
  {
  }

  lemma ReleaseExplained(store: Store, now: int, r: Run, event: Event, lock: string)
    requires RunShape(r) && r.phase.Releasing?
    ensures var r' := StepRun(store, now, r, event).1;
            if r'.phase.Finished? then lock in Kept(r') <==> ThrowingStep(r, event, lock)
            else !ThrowingStep(r, event, lock)
  {
  }

  lemma OnlyReleasingFails(store: Store, now: int, r: Run, event: Event)
    requires RunShape(r) && !r.phase.Releasing?
    ensures var r' := StepRun(store, now, r, event).1;
            if r.phase.Finished? then r' == r else !Failed(r')
  {
  }

  lemma {:induction false} HistoryExplains(w: World, schedule: seq<Action>, start: int, i: nat, lock: string)
    requires Initial(w) && WithinLockLifetime(schedule, start) && i < |w.runs|
    ensures i < |Reached(w, schedule).runs| && Explained(w, schedule, i, lock)
  {
    if schedule != [] {
      var last := |schedule| - 1;
      HistoryExplains(w, schedule[..last], start, i, lock);
      InvariantReached(w, schedule[..last], start);
      assert RunShape(Reached(w, schedule[..last]).runs[i]);
      ExplainedStep(w, schedule, i, lock);
    }
  }

  /**
    A run that ended before crossing has left one of its locks behind if and only if the reply of the acquire
    that took it was lost, or a release at or before its own threw (its own without taking effect). Every other
    lock it took is out of the store, unless another run has taken it since.
  */
  lemma FailedRunLeavesLocksExactly(w: World, schedule: seq<Action>, start: int, i: nat, lock: string)
    requires Initial(w) && WithinLockLifetime(schedule, start) && i < |w.runs|
    ensures |Reached(w, schedule).runs| == |w.runs|
    ensures var w' := Reached(w, schedule);
            var r := w'.runs[i];
            Failed(r) && lock in Taken(r) ==>
              (LeftBehind(w', i, lock) <==> ReplyLost(w, schedule, i, lock) || ReleaseThrew(w, schedule, i, lock))
  {
    InvariantReached(w, schedule, start);
    ClaimedReached(w, schedule, start);
    HistoryExplains(w, schedule, start, i, lock);
    var w' := Reached(w, schedule);
    var r := w'.runs[i];
    if lock in Held(r) {
      assert HoldsLocks(w'.store, r, start + LOCK_TTL_SECONDS * 1000);
      forall j | 0 <= j < |w'.runs| && j != i ensures lock !in Held(w'.runs[j]) {
        assert if j < i then Disjoint(w'.runs[j], r) else Disjoint(r, w'.runs[j]);
      }
    } else if lock in Taken(r) && Replay(lock) in w'.store {
      var j :| 0 <= j < |w'.runs| && lock in Held(w'.runs[j]);
    }
  }

  // ---------------------------------------------------------------- three short schedules

  /** The three locks of a run have different names. */
  lemma ReplayKeysDiffer(r: Run)
    ensures Distinct(ReplayKeys(r))
  {
    var keys := ReplayKeys(r);
    assert keys[0][10] == 's' && keys[1][0] == 'm' && keys[2][10] == 't';
  }

  /** The first run takes a lock that is free. */
  lemma TakesFreeLock(store: Store, now: int, r: Run, others: seq<Run>, next: nat)
    requires r.phase == Acquiring(next) && next < 3 && Replay(ReplayKeys(r)[next]) !in Live(store, now)
    ensures Next(World(store, [r] + others), Action(0, now, Proceed)) ==
              World(
                Live(store, now)
                  [Replay(ReplayKeys(r)[next]) := Entry(Owner(r.requestId), now + LOCK_TTL_SECONDS * 1000)],
                    [r.(phase := Acquiring(next + 1), acquired := r.acquired + [ReplayKeys(r)[next]])] + others)
  {
  }

  /** After three undisturbed steps on free locks a run holds exactly its three locks. */
  lemma TakesAllLocks(store: Store, now: int, r: Run, others: seq<Run>)
    requires JustStarted(r) && forall k | k in ReplayKeys(r) :: Replay(k) !in Live(store, now)
    ensures var go := Action(0, now, Proceed);
            var w := Next(Next(Next(World(store, [r] + others), go), go), go);
            && w.runs == [r.(phase := Acquiring(3), acquired := ReplayKeys(r))] + others
            && forall k | k in ReplayKeys(r) ::
                 Replay(k) in w.store && w.store[Replay(k)] == Entry(Owner(r.requestId), now + LOCK_TTL_SECONDS * 1000)
  {
    ReplayKeysDiffer(r);
    var keys := ReplayKeys(r);
    var go := Action(0, now, Proceed);
    TakesFreeLock(store, now, r, others, 0);
    var one := Next(World(store, [r] + others), go);
    TakesFreeLock(one.store, now, one.runs[0], others, 1);
    var two := Next(one, go);
    TakesFreeLock(two.store, now, two.runs[0], others, 2);
    assert [] + [keys[0]] + [keys[1]] + [keys[2]] == keys;
    assert r.(phase := Acquiring(3), acquired := keys) ==
           r.(phase := Acquiring(1), acquired := [keys[0]])
            .(phase := Acquiring(2), acquired := [keys[0], keys[1]])
            .(phase := Acquiring(3), acquired := keys);
  }

  /** A run with all its locks crosses in three further steps when its checks pass. */
  lemma LockedRunCrosses(w: World, r: Run, now: int)
    requires w.runs == [r] && r.phase == Acquiring(3)
    ensures var go := Action(0, now, Proceed);
            var checked := Next(Next(w, go), Action(0, now, Validated(r.preparedHash)));
            Next(checked, go).runs == [r.(phase := Crossed, validated := Some(r.preparedHash), crossed := true)]
  {
    var go := Action(0, now, Proceed);
    var checking := Next(w, go);
    assert checking.runs == [r.(phase := Checking)];
    assert Next(checking, Action(0, now, Validated(r.preparedHash))).runs
        == [r.(phase := Rechecking, validated := Some(r.preparedHash))];
  }

  /** With its locks free, a run that is alone crosses after six steps, holding exactly its three locks. */
  lemma LoneRunCrosses(store: Store, r: Run, now: int)
    requires JustStarted(r) && forall k | k in ReplayKeys(r) :: Replay(k) !in Live(store, now)
    ensures var go := Action(0, now, Proceed);
            var locked := Next(Next(Next(World(store, [r]), go), go), go);
            var checked := Next(Next(locked, go), Action(0, now, Validated(r.preparedHash)));
            Next(checked, go).runs
            == [r.(phase := Crossed, validated := Some(r.preparedHash), crossed := true, acquired := ReplayKeys(r))]
  {
    TakesAllLocks(store, now, r, []);
    assert [r] + [] == [r];
    var go := Action(0, now, Proceed);
    var held := r.(phase := Acquiring(3), acquired := ReplayKeys(r));
    assert [held] + [] == [held];
    LockedRunCrosses(Next(Next(Next(World(store, [r]), go), go), go), held, now);
  }

  /** And when the wallet has changed the message, it crosses after one more, holding the lock on that too. */
  lemma LoneRunCrossesChanged(store: Store, r: Run, now: int, hash: string)
    requires JustStarted(r) && forall k | k in ReplayKeys(r) :: Replay(k) !in Live(store, now)
    requires hash != r.preparedHash && Replay("message:" + hash) !in Live(store, now)
    ensures var go := Action(0, now, Proceed);
            var locked := Next(Next(Next(World(store, [r]), go), go), go);
            var w := Next(Next(Next(Next(locked, go), Action(0, now, Validated(hash))), go), go);
            && w.runs == [r.(phase := Crossed, validated := Some(hash), crossed := true,
                             acquired := ReplayKeys(r) + ["message:" + hash])]
            && forall k | k in w.runs[0].acquired ::
                 Replay(k) in w.store && w.store[Replay(k)] == Entry(Owner(r.requestId), now + 86_400_000)
  {
    TakesAllLocks(store, now, r, []);
    assert [r] + [] == [r];
    var go := Action(0, now, Proceed);
    var locked := Next(Next(Next(World(store, [r]), go), go), go);
    var held := r.(phase := Acquiring(3), acquired := ReplayKeys(r));
    assert [held] + [] == [held];
    OtherMessage(r, hash);
    OtherKeysFree(store, r, now, "message:" + hash);
    ChangedRunCrosses(locked, held, now, hash);
  }

  /**
    Past the boundary a run is signed, submitted and finished, in that order, or finished by whatever throws;
    no step of that adds a lock to the store, hands one back or is refused.
  */
  lemma CrossedRunEnds(w: World, a: Action)
    requires a.run < |w.runs| && w.runs[a.run].crossed && w.runs[a.run].phase in {Crossed, Signed, Submitted}
    ensures var r := w.runs[a.run];
            Next(w, a) == World(
              Live(w.store, a.now),
              w.runs[a.run := r.(phase := if a.event == Throw || a.event == ThrowAfterEffect then Finished
                                          else match r.phase case Crossed => Signed case Signed => Submitted
                                                             case _ => Finished)])
  {
  }

  lemma OtherMessage(r: Run, hash: string)
    requires hash != r.preparedHash
    ensures "message:" + hash !in ReplayKeys(r)
  {
    var key := "message:" + hash;
    var keys := ReplayKeys(r);
    assert key[0] == 'm' && keys[0][0] == 'b' && keys[2][0] == 'b';
    assert key[8..] == hash && keys[1][8..] == r.preparedHash;
  }

  /** Taking the three locks leaves every other key as it was. */
  lemma OtherKeysFree(store: Store, r: Run, now: int, key: string)
    requires JustStarted(r) && forall k | k in ReplayKeys(r) :: Replay(k) !in Live(store, now)
    requires key !in ReplayKeys(r) && Replay(key) !in Live(store, now)
    ensures var go := Action(0, now, Proceed);
            Replay(key) !in Next(Next(Next(World(store, [r]), go), go), go).store
  {
    ReplayKeysDiffer(r);
    var keys := ReplayKeys(r);
    var go := Action(0, now, Proceed);
    TakesFreeLock(store, now, r, [], 0);
    assert [r] + [] == [r];
    var one := Next(World(store, [r]), go);
    TakesFreeLock(one.store, now, one.runs[0], [], 1);
    assert one.runs == [one.runs[0]] + [];
    var two := Next(one, go);
    TakesFreeLock(two.store, now, two.runs[0], [], 2);
    assert two.runs == [two.runs[0]] + [];
  }

  lemma ChangedRunCrosses(w: World, r: Run, now: int, hash: string)
    requires w.runs == [r] && r.phase == Acquiring(3) && hash != r.preparedHash && Replay("message:" + hash) !in w.store
    requires forall k | k in r.acquired ::
        Replay(k) in w.store && w.store[Replay(k)] == Entry(Owner(r.requestId), now + 86_400_000)
    ensures var go := Action(0, now, Proceed);
            var w' := Next(Next(Next(Next(w, go), Action(0, now, Validated(hash))), go), go);
            && w'.runs == [r.(phase := Crossed, validated := Some(hash), crossed := true,
                              acquired := r.acquired + ["message:" + hash])]
            && forall k | k in w'.runs[0].acquired ::
                 Replay(k) in w'.store && w'.store[Replay(k)] == Entry(Owner(r.requestId), now + 86_400_000)
  {
    var go := Action(0, now, Proceed);
    var checking := Next(w, go);
    assert checking.runs == [r.(phase := Checking)];
    var validated := Next(checking, Action(0, now, Validated(hash)));
    assert validated.runs == [r.(phase := AcquiringFinal(hash), validated := Some(hash))];
    LiveTwice(w.store, now, now);
    assert validated.store == Live(w.store, now);
    var taken := Next(validated, go);
    assert taken.runs
        == [r.(phase := Rechecking, validated := Some(hash), acquired := r.acquired + ["message:" + hash])];
  }

  /** A fresh submit of the same quote is refused while the lock on the quote is in the store. */
  lemma RefusedWhileLocked(w: World, i: nat, now: int)
    requires i < |w.runs| && JustStarted(w.runs[i]) && Replay(ReplayKeys(w.runs[i])[0]) in Live(w.store, now)
    ensures Next(w, Action(i, now, Proceed)) == World(Live(w.store, now), w.runs[i := w.runs[i].(phase := Releasing)])
  {
  }

  /**
    A release that throws: a run has taken its three locks, a check throws, and the first release throws too.
    All three locks stay for their whole lifetime, and until then every submit of the quote is refused.
  */
  lemma ThrowingReleaseStrandsLocks(store: Store, r: Run, retry: Run, now: int, later: int)
    requires JustStarted(r) && forall k | k in ReplayKeys(r) :: Replay(k) !in Live(store, now)
    requires JustStarted(retry) && retry.quoteId == r.quoteId
    requires now <= later < now + LOCK_TTL_SECONDS * 1000
    ensures var go, fail := Action(0, now, Proceed), Action(0, now, Throw);
            var w := Next(Next(Next(Next(Next(World(store, [r, retry]), go), go), go), fail), fail);
            && w.runs == [r.(phase := Finished, acquired := ReplayKeys(r)), retry]
            && (forall k | k in ReplayKeys(r) :: Replay(k) in Live(w.store, later))
            && Next(w, Action(1, later, Proceed)).runs[1].phase == Releasing
  {
    TakesAllLocks(store, now, r, [retry]);
    assert [r] + [retry] == [r, retry];
    var go, fail := Action(0, now, Proceed), Action(0, now, Throw);
    var locked := Next(Next(Next(World(store, [r, retry]), go), go), go);
    FailsTwice(locked, r.(phase := Acquiring(3), acquired := ReplayKeys(r)), retry, now);
    var w := Next(Next(locked, fail), fail);
    assert ReplayKeys(retry)[0] == ReplayKeys(r)[0] && ReplayKeys(r)[0] in ReplayKeys(r);
    RefusedWhileLocked(w, 1, later);
  }

  lemma FailsTwice(w: World, r: Run, retry: Run, now: int)
    requires w.runs == [r, retry] && r.phase == Acquiring(3) && r.acquired != [] && r.returned == 0 && !r.crossed
    ensures var fail := Action(0, now, Throw);
            Next(Next(w, fail), fail) == World(Live(w.store, now), [r.(phase := Finished), retry])
  {
    LiveTwice(w.store, now, now);
  }

  /** A lost reply: the first acquire takes its lock and throws. The run hands back nothing, and the lock stays. */
  lemma LostReplyStrandsLock(store: Store, r: Run, retry: Run, now: int, later: int)
    requires JustStarted(r) && Replay(ReplayKeys(r)[0]) !in Live(store, now)
    requires JustStarted(retry) && retry.quoteId == r.quoteId
    requires now <= later < now + LOCK_TTL_SECONDS * 1000
    ensures var w := Next(Next(World(store, [r, retry]), Action(0, now, ThrowAfterEffect)), Action(0, now, Proceed));
            && w.runs[0].phase == Finished && !w.runs[0].crossed && w.runs[0].acquired == []
            && Held(w.runs[0]) == {ReplayKeys(r)[0]}
            && Next(w, Action(1, later, Proceed)).runs[1].phase == Releasing
  {
    var w := Next(Next(World(store, [r, retry]), Action(0, now, ThrowAfterEffect)), Action(0, now, Proceed));
    assert w.runs[1] == retry && ReplayKeys(retry)[0] == ReplayKeys(r)[0];
    RefusedWhileLocked(w, 1, later);
  }
}
