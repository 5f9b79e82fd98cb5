/**
  How many calls a fixed-window rate limit lets through over whole runs of the store, in which
  calls on one key mix with every other operation.
*/
module RateLimitRuns {
  import opened Wrappers
  import opened Ledger
  import opened Numbers

  predicate CallsOn(op: Operation, key: string) {
    op.ConsumeRateLimit? && op.key == key
  }

  /** Every call on `key` uses this limit and this window. */
  ghost predicate FixedPolicy(trace: Trace, key: string, limit: nat, windowSeconds: int) {
    && AllWellFormed(trace)
    && forall i | 0 <= i < |trace| && CallsOn(trace[i].op, key) ::
         trace[i].op.limit == limit && trace[i].op.windowSeconds == windowSeconds
  }

  /** The number of calls on `key` allowed at times in [from, until). */
  ghost function Allowed(trace: Trace, key: string, from: int, until: int): nat
    requires AllWellFormed(trace)
  {
    if trace == [] then 0
    else
      var last := |trace| - 1;
      Allowed(trace[..last], key, from, until) +
      if CallsOn(trace[last].op, key) && from <= trace[last].now < until
         && AnswerAt(map[], trace, last) == Flag(true) then 1 else 0
  }

  datatype Window = Window(end: int, count: int)

  /** The counter window of the latest call on `key`, as that call left it. */
  ghost function LatestWindow(trace: Trace, key: string): Option<Window>
    requires AllWellFormed(trace)
  {
    if trace == [] then None
    else
      var last := |trace| - 1;
      if CallsOn(trace[last].op, key) then
        var s := StepOn(Final(map[], trace[..last]), trace[last]).store;
        Some(Window(s[Rate(key)].expires, Number(s, Rate(key))))
      else LatestWindow(trace[..last], key)
  }

  /** The stored counter is the latest window, unless that has passed. */
  ghost predicate Tracks(s: Store, key: string, window: Option<Window>, now: int) {
    match window
    case None => Rate(key) !in s
    case Some(w) => if Rate(key) in s then s[Rate(key)] == Entry(Count(w.count), w.end) else w.end <= now
  }

  lemma TracksStep(s: Store, t: Timed, key: string, window: Option<Window>, before: int)
    requires WellFormed(t.op) && Tracks(s, key, window, before) && before <= t.now
    ensures Tracks(Live(s, t.now), key, window, t.now)
    ensures !CallsOn(t.op, key) ==> Tracks(StepOn(s, t).store, key, window, t.now)
    ensures CallsOn(t.op, key) ==>
              var opens := window.None? || window.value.end <= t.now;
              var count := if opens then 1 else window.value.count + 1;
              && StepOn(s, t).answer == Flag(count <= t.op.limit)
              && StepOn(s, t).store[Rate(key)]
                    == Entry(Count(count), if opens then t.now + t.op.windowSeconds * 1000 else window.value.end)
  {
    if !CallsOn(t.op, key) {
      var live := Live(s, t.now);
      assert Rate(key) in StepOn(s, t).store <==> Rate(key) in live;
    }
  }

  /**
    What can have been allowed in [from, from + length) once the latest window ends at `w.end`: the call that
    opens a window always counts in it, so a window opened before `from` has at most limit - 1 calls left for it.
  */
  function AllowedBound(w: Option<Window>, limit: nat, from: int, length: int): int {
    var rest := if limit == 0 then 0 else limit - 1;
    if w.None? || w.value.end <= from then 0
    else if w.value.end < from + length then Min(w.value.count - 1, rest)
    else if w.value.end - length < from + length then rest + Min(w.value.count, limit)
    else rest + limit
  }

  ghost predicate WindowInvariant(trace: Trace, key: string, limit: nat, windowSeconds: int, from: int)
    requires AllWellFormed(trace)
  {
    var now := if trace == [] then 0 else trace[|trace| - 1].now;
    var w := LatestWindow(trace, key);
    && (trace != [] ==> Tracks(Final(map[], trace), key, w, now))
    && (w.Some? ==> trace != [] && w.value.count >= 1 && w.value.end - windowSeconds * 1000 <= now)
    && Allowed(trace, key, from, from + windowSeconds * 1000) <= AllowedBound(w, limit, from, windowSeconds * 1000)
  }

  lemma PrefixPolicy(trace: Trace, key: string, limit: nat, windowSeconds: int)
    requires trace != [] && FixedPolicy(trace, key, limit, windowSeconds) && Monotone(trace)
    ensures FixedPolicy(trace[..|trace| - 1], key, limit, windowSeconds) && Monotone(trace[..|trace| - 1])
  {
  }

  lemma {:induction false} WindowInvariantHolds(trace: Trace, key: string, limit: nat, windowSeconds: int, from: int)
    requires FixedPolicy(trace, key, limit, windowSeconds) && Monotone(trace) && windowSeconds > 0
    ensures WindowInvariant(trace, key, limit, windowSeconds, from)
  {
    if trace != [] {
      var last := |trace| - 1;
      PrefixPolicy(trace, key, limit, windowSeconds);
      WindowInvariantHolds(trace[..last], key, limit, windowSeconds, from);
      var before := if last == 0 then trace[last].now else trace[last - 1].now;
      TracksStep(Final(map[], trace[..last]), trace[last], key, LatestWindow(trace[..last], key), before);
      if !CallsOn(trace[last].op, key) {
        assert LatestWindow(trace, key) == LatestWindow(trace[..last], key);
      }
    }
  }

  /**
    Over any half-open interval of one window's length, fewer than twice the limit is allowed,
    whatever the call times and whatever else the store does in between.
  */
  lemma IntervalAllowsUnderTwiceTheLimit(trace: Trace, key: string, limit: nat, windowSeconds: int, from: int)
    requires FixedPolicy(trace, key, limit, windowSeconds) && Monotone(trace) && windowSeconds > 0
    ensures Allowed(trace, key, from, from + windowSeconds * 1000) <= if limit == 0 then 0 else 2 * limit - 1
  {
    WindowInvariantHolds(trace, key, limit, windowSeconds, from);
  }

  /** A counter window allows exactly its first `limit` calls. */
  lemma {:induction false} WindowAllowsTheLimit(trace: Trace, key: string, limit: nat, windowSeconds: int)
    requires FixedPolicy(trace, key, limit, windowSeconds) && Monotone(trace) && windowSeconds > 0
    requires LatestWindow(trace, key).Some?
    ensures var w := LatestWindow(trace, key).value;
            Allowed(trace, key, w.end - windowSeconds * 1000, w.end) == Min(w.count, limit)
  {
    var last := |trace| - 1;
    var length := windowSeconds * 1000;
    var w := LatestWindow(trace, key).value;
    PrefixPolicy(trace, key, limit, windowSeconds);
    WindowInvariantHolds(trace, key, limit, windowSeconds, 0);
    WindowInvariantHolds(trace[..last], key, limit, windowSeconds, w.end - length);
    var before := if last == 0 then trace[last].now else trace[last - 1].now;
    var earlier := LatestWindow(trace[..last], key);
    TracksStep(Final(map[], trace[..last]), trace[last], key, earlier, before);
    if !CallsOn(trace[last].op, key) || (earlier.Some? && trace[last].now < earlier.value.end) {
      WindowAllowsTheLimit(trace[..last], key, limit, windowSeconds);
    }
  }
}
