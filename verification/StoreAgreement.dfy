/** The two temporary stores, driven by the same operations at the same times. */
module StoreAgreement {
  import opened Ledger
  import opened MemoryStore
  import opened RedisStore

  ghost predicate Answered(trace: Trace, answers: seq<Answer>)
    requires AllWellFormed(trace)
  {
    |answers| <= |trace| && forall i | 0 <= i < |answers| :: answers[i] == AnswerAt(map[], trace, i)
  }

  lemma NextAnswer(trace: Trace, n: nat)
    requires AllWellFormed(trace) && n < |trace|
    ensures AnswerAt(map[], trace, n) == StepOn(Final(map[], trace[..n]), trace[n]).answer
    ensures Final(map[], trace[..n + 1]) == StepOn(Final(map[], trace[..n]), trace[n]).store
  {
    assert trace[..n + 1][..n] == trace[..n];
  }

  /**
    On every sequence of operations under one non-decreasing clock, starting empty, the in-memory store and
    the Redis scripts give the same answers and hold the same live entries, those of the ledger.
  */
  method Lockstep(memory: MemoryTemporaryStore, redis: UpstashTemporaryStore, trace: Trace)
    returns (fromMemory: seq<Answer>, fromRedis: seq<Answer>)
    requires AllWellFormed(trace) && Monotone(trace)
    requires memory.values == map[] && redis.db == map[] && redis.Valid()
    modifies memory, redis
    ensures |fromMemory| == |trace| && fromMemory == fromRedis && Answered(trace, fromMemory)
    ensures redis.Valid()
    ensures trace != [] ==>
              var now := trace[|trace| - 1].now;
              memory.View(now) == redis.View(now) == Final(map[], trace)
  {
    fromMemory, fromRedis := [], [];
    var n := 0;
    while n < |trace|
      invariant 0 <= n <= |trace| && |fromMemory| == n
      invariant redis.Valid() && fromMemory == fromRedis && Answered(trace, fromMemory)
      invariant if n == 0 then memory.values == map[] && redis.db == map[]
                else memory.View(trace[n - 1].now) == redis.View(trace[n - 1].now) == Final(map[], trace[..n])
    {
      var now, op := trace[n].now, trace[n].op;
      assert memory.View(now) == redis.View(now) == Live(Final(map[], trace[..n]), now) by {
        if n > 0 {
          memory.ViewLater(trace[n - 1].now, now);
          redis.ViewLater(trace[n - 1].now, now);
        }
      }
      NextAnswer(trace, n);
      var a := memory.Perform(op, now);
      var b := redis.Perform(op, now);
      fromMemory, fromRedis := fromMemory + [a], fromRedis + [b];
      n := n + 1;
    }
    assert trace[..n] == trace;
  }
}
