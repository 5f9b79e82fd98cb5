/** Replay locks over whole runs of the store (server/storage/temporary.ts): whom they keep out, and for how long. */
module LockRuns {
  import opened Ledger

  /** The owner gives the lock back. */
  predicate GivesBack(op: Operation, lock: string, owner: string) {
    op.ReleaseReplayLockIfSafe? && op.lock == lock && op.owner == owner
  }

  ghost predicate NotGivenBack(trace: Trace, lock: string, owner: string) {
    forall i | 0 <= i < |trace| :: !GivesBack(trace[i].op, lock, owner)
  }

  /** The lock is taken, by this owner and until this time. */
  ghost predicate TakenUntil(s: Store, lock: string, owner: string, until: int) {
    Replay(lock) in s && s[Replay(lock)] == Entry(Owner(owner), until)
  }

  lemma LockStep(s: Store, t: Timed, lock: string, owner: string, until: int)
    requires WellFormed(t.op) && TakenUntil(s, lock, owner, until) && t.now < until
    ensures !GivesBack(t.op, lock, owner) ==> TakenUntil(StepOn(s, t).store, lock, owner, until)
    ensures GivesBack(t.op, lock, owner) ==> Replay(lock) !in StepOn(s, t).store
    ensures t.op.AcquireReplayLock? && t.op.lock == lock ==> StepOn(s, t).answer == Flag(false)
    ensures t.op.HasReplayLock? && t.op.lock == lock ==> StepOn(s, t).answer == Flag(true)
  {
    var live := Live(s, t.now);
    assert TakenUntil(live, lock, owner, until);
    if t.op.Release? || t.op.Reserve? {
      assert Replay(lock) !in SponsorKeys(t.op.keys);
    }
  }

  /**
    Until its deadline a lock is its owner's. Whatever else is done to the store, other owners giving it back
    included, it stays while the owner does not give it back: every acquire of it is refused, whoever asks, and
    every question whether it is there is answered yes.
  */
  lemma {:induction false} LockStays(s: Store, trace: Trace, lock: string, owner: string, until: int)
    requires AllWellFormed(trace) && TakenUntil(s, lock, owner, until)
    requires NotGivenBack(trace, lock, owner) && forall i | 0 <= i < |trace| :: trace[i].now < until
    ensures TakenUntil(Final(s, trace), lock, owner, until)
    ensures forall i | 0 <= i < |trace| ::
        && (trace[i].op.AcquireReplayLock? && trace[i].op.lock == lock ==> AnswerAt(s, trace, i) == Flag(false))
        && (trace[i].op.HasReplayLock? && trace[i].op.lock == lock ==> AnswerAt(s, trace, i) == Flag(true))
  {
    if trace != [] {
      var last := |trace| - 1;
      LockStays(s, trace[..last], lock, owner, until);
      LockStep(Final(s, trace[..last]), trace[last], lock, owner, until);
      forall i | 0 <= i < last
        ensures AnswerAt(s, trace, i) == AnswerAt(s, trace[..last], i)
      {
        assert trace[..last][..i] == trace[..i];
      }
    }
  }

  lemma Granted(s: Store, t: Timed)
    requires t.op.AcquireReplayLock? && StepOn(s, t).answer == Flag(true)
    ensures TakenUntil(StepOn(s, t).store, t.op.lock, t.op.owner, t.now + t.op.ttlSeconds * 1000)
  {
  }

  /** After the lock is gone, or its time is over, the question for it is answered no. */
  lemma MissedWhenGone(s: Store, t: Timed)
    requires t.op.HasReplayLock? && (Replay(t.op.lock) !in s || s[Replay(t.op.lock)].expires <= t.now)
    ensures StepOn(s, t).answer == Flag(false)
  {
  }

  /** And the next acquire is granted. */
  lemma GrantedWhenGone(s: Store, t: Timed)
    requires t.op.AcquireReplayLock? && (Replay(t.op.lock) !in s || s[Replay(t.op.lock)].expires <= t.now)
    ensures StepOn(s, t).answer == Flag(true)
  {
  }

  /**
    The life of a lock, from any store: once granted it is there and keeps everyone out until its owner gives it back or
    its lifetime ends; then it is not there and the next acquire is granted.
  */
  lemma LockLifetime(s: Store, acquire: Timed, during: Trace, release: Timed, next: Timed, question: Timed)
    requires acquire.op.AcquireReplayLock? && WellFormed(acquire.op) && StepOn(s, acquire).answer == Flag(true)
    requires AllWellFormed(during) && NotGivenBack(during, acquire.op.lock, acquire.op.owner)
    requires var until := acquire.now + acquire.op.ttlSeconds * 1000;
             (forall i | 0 <= i < |during| :: during[i].now < until) && release.now < until
    requires GivesBack(release.op, acquire.op.lock, acquire.op.owner)
    requires next.op.AcquireReplayLock? && next.op.lock == acquire.op.lock
    requires question.op.HasReplayLock? && question.op.lock == acquire.op.lock
    ensures var held := Final(StepOn(s, acquire).store, during);
            var until := acquire.now + acquire.op.ttlSeconds * 1000;
            && (next.now < until ==> StepOn(held, next).answer == Flag(false))
            && (next.now >= until ==> StepOn(held, next).answer == Flag(true))
            && StepOn(StepOn(held, release).store, next).answer == Flag(true)
            && StepOn(held, question).answer == Flag(question.now < until)
            && StepOn(StepOn(held, release).store, question).answer == Flag(false)
  {
    var lock, owner, until := acquire.op.lock, acquire.op.owner, acquire.now + acquire.op.ttlSeconds * 1000;
    Granted(s, acquire);
    LockStays(StepOn(s, acquire).store, during, lock, owner, until);
    var held := Final(StepOn(s, acquire).store, during);
    LockStep(held, release, lock, owner, until);
    GrantedWhenGone(StepOn(held, release).store, next);
    MissedWhenGone(StepOn(held, release).store, question);
    if question.now < until {
      LockStep(held, question, lock, owner, until);
    } else {
      MissedWhenGone(held, question);
    }
    if next.now < until {
      LockRefused(held, next, owner, until);
    } else {
      GrantedWhenGone(held, next);
    }
  }

  lemma LockRefused(s: Store, next: Timed, owner: string, until: int)
    requires next.op.AcquireReplayLock? && TakenUntil(s, next.op.lock, owner, until) && next.now < until
    ensures StepOn(s, next).answer == Flag(false)
  {
  }
}
