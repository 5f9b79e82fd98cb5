/**
  The Redis-backed temporary store: the Lua scripts of UpstashTemporaryStore, run against the
  commands they use. A script runs at one instant of the server's clock.
*/
module RedisStore {
  import opened Wrappers
  import opened Sequences
  import opened Ledger

  /** A value with its deadline; a key made by INCRBY has none until EXPIRE gives it one. */
  datatype Stored = Stored(content: Content, deadline: Option<int>)

  predicate Present(db: map<StoreKey, Stored>, key: StoreKey, now: int) {
    key in db && (db[key].deadline.None? || db[key].deadline.value > now)
  }

  predicate WellKept(key: StoreKey, stored: Stored) {
    && stored.deadline.Some?
    && (key.Replay? <==> stored.content.Owner?)
    && (key.Rate? ==> stored.content.n >= 1)
  }

  class UpstashTemporaryStore {
    var db: map<StoreKey, Stored>

    /** Between scripts every key has a deadline, and a rate counter has counted something. */
    ghost predicate Valid()
      reads this
    {
      forall k | k in db :: WellKept(k, db[k])
    }

    ghost function View(now: int): Store
      reads this
      requires Valid()
    {
      map k | k in db && Present(db, k, now) :: Entry(db[k].content, db[k].deadline.value)
    }

    /** Time alone only takes entries away. */
    lemma ViewLater(earlier: int, now: int)
      requires Valid() && earlier <= now
      ensures View(now) == Live(View(earlier), now)
    {
    }

    constructor ()
      ensures Valid() && db == map[]
    {
      db := map[];
    }

    // ---------------------------------------------------------------- commands

    function Get(key: StoreKey, now: int): Option<Content>
      reads this
    {
      if Present(db, key, now) then Some(db[key].content) else None
    }

    function ToNumber(reply: Option<Content>, otherwise: int): int {
      if reply.Some? && reply.value.Count? then reply.value.n else otherwise
    }

    function Ttl(key: StoreKey, now: int): int
      reads this
    {
      if !Present(db, key, now) then -2
      else if db[key].deadline.None? then -1
      else (db[key].deadline.value - now + 500) / 1000
    }

    method IncrBy(key: StoreKey, amount: int, now: int) returns (n: int)
      modifies this
      ensures n == ToNumber(old(Get(key, now)), 0) + amount
      ensures db == old(db)[key := Stored(Count(n), if old(Present(db, key, now)) then old(db[key].deadline) else None)]
    {
      n := ToNumber(Get(key, now), 0) + amount;
      db := db[key := Stored(Count(n), if Present(db, key, now) then db[key].deadline else None)];
    }

    method Expire(key: StoreKey, seconds: int, now: int)
      modifies this
      ensures db == if old(Present(db, key, now))
                    then old(db)[key := Stored(old(db[key].content), Some(now + seconds * 1000))]
                    else old(db)
    {
      if Present(db, key, now) {
        db := db[key := Stored(db[key].content, Some(now + seconds * 1000))];
      }
    }

    method SetEx(key: StoreKey, content: Content, seconds: int, now: int)
      modifies this
      ensures db == old(db)[key := Stored(content, Some(now + seconds * 1000))]
    {
      db := db[key := Stored(content, Some(now + seconds * 1000))];
    }

    method Del(key: StoreKey)
      modifies this
      ensures db == old(db) - {key}
    {
      db := db - {key};
    }

    // ---------------------------------------------------------------- locks and rate limits

    method AcquireReplayLock(lock: string, owner: string, ttlSeconds: int, now: int) returns (acquired: bool)
      requires Valid() && ttlSeconds > 0
      modifies this
      ensures Valid()
      ensures Outcome(View(now), Flag(acquired))
          == Apply(old(View(now)), now, Ledger.AcquireReplayLock(lock, owner, ttlSeconds))
    {
      if Get(Replay(lock), now).Some? {
        return false;
      }
      SetEx(Replay(lock), Owner(owner), ttlSeconds, now);
      return true;
    }

    method HasReplayLock(lock: string, now: int) returns (held: bool)
      requires Valid()
      ensures Outcome(View(now), Flag(held)) == Apply(View(now), now, Ledger.HasReplayLock(lock))
    {
      return Get(Replay(lock), now).Some?;
    }

    method ReleaseReplayLockIfSafe(lock: string, owner: string, now: int)
      requires Valid()
      modifies this
      ensures Valid()
      ensures Outcome(View(now), Done) == Apply(old(View(now)), now, Ledger.ReleaseReplayLockIfSafe(lock, owner))
    {
      if Get(Replay(lock), now) == Some(Owner(owner)) {
        Del(Replay(lock));
      }
    }

    /** INCR, and EXPIRE only when the counter has just come into being. */
    method ConsumeRateLimit(key: string, limit: int, windowSeconds: int, now: int) returns (allowed: bool)
      requires Valid() && windowSeconds > 0
      modifies this
      ensures Valid()
      ensures Outcome(View(now), Flag(allowed))
          == Apply(old(View(now)), now, Ledger.ConsumeRateLimit(key, limit, windowSeconds))
    {
      var n := IncrBy(Rate(key), 1, now);
      if n == 1 {
        Expire(Rate(key), windowSeconds, now);
      }
      return n <= limit;
    }

    // ---------------------------------------------------------------- exposure

    /** One turn of the reserving loop: INCRBY, then EXPIRE if the counter had no time to live. */
    method CountUp(key: string, amount: int, windowSeconds: int, now: int)
      requires Valid() && windowSeconds > 0
      modifies this
      ensures Valid()
      ensures View(now) == Raised(old(View(now)), Sponsor(key), amount, now + windowSeconds * 1000)
    {
      var n := IncrBy(Sponsor(key), amount, now);
      if Ttl(Sponsor(key), now) < 0 {
        Expire(Sponsor(key), windowSeconds, now);
      }
    }

    method ReserveSponsorshipExposure(keys: seq<string>, amount: int, limits: seq<int>, windowSeconds: int, id: string,
                                      now: int)
      returns (allowed: bool)
      requires Valid() && WellFormed(Reserve(keys, amount, limits, windowSeconds, id))
      modifies this
      ensures Valid()
      ensures Outcome(View(now), Flag(allowed))
          == ReserveExposure(old(View(now)), now, keys, amount, limits, windowSeconds, id)
    {
      if Get(Reservation(id), now).Some? {
        return true;
      }
      for i := 0 to |keys|
        invariant Valid() && View(now) == old(View(now))
        invariant forall j | 0 <= j < i :: Number(View(now), Sponsor(keys[j])) + amount <= limits[j]
      {
        var n := ToNumber(Get(Sponsor(keys[i]), now), 0);
        if n + amount > limits[i] {
          return false;
        }
      }
      AddToEach(keys, amount, windowSeconds, now);
      SetEx(Reservation(id), Count(amount), windowSeconds, now);
      return true;
    }

    /** The turn of the key at a position, on a store that has had the turns before it. */
    method AddNext(keys: seq<string>, i: nat, amount: int, windowSeconds: int, now: int, ghost before: Store)
      requires Valid() && Distinct(keys) && windowSeconds > 0 && i < |keys|
      requires View(now) == AddToCounters(before, keys[..i], amount, now + windowSeconds * 1000)
      modifies this
      ensures Valid()
      ensures View(now) == AddToCounters(before, keys[..i + 1], amount, now + windowSeconds * 1000)
    {
      CountUp(keys[i], amount, windowSeconds, now);
      AddOne(before, keys, i, amount, now + windowSeconds * 1000);
    }

    method AddToEach(keys: seq<string>, amount: int, windowSeconds: int, now: int)
      requires Valid() && Distinct(keys) && windowSeconds > 0
      modifies this
      ensures Valid()
      ensures View(now) == AddToCounters(old(View(now)), keys, amount, now + windowSeconds * 1000)
    {
      ghost var before := View(now);
      AddNone(before, keys, amount, now + windowSeconds * 1000);
      for i := 0 to |keys|
        invariant Valid()
        invariant View(now) == AddToCounters(before, keys[..i], amount, now + windowSeconds * 1000)
      {
        AddNext(keys, i, amount, windowSeconds, now, before);
      }
      assert keys[..|keys|] == keys;
    }

    /** One turn of the releasing loop: DECRBY, then DEL at zero. */
    method CountDown(key: string, amount: int, now: int)
      requires Valid() && Sponsor(key) in View(now)
      modifies this
      ensures Valid()
      ensures var before := old(View(now));
              var next := Number(before, Sponsor(key)) - amount;
              View(now) == if next == 0 then before - {Sponsor(key)}
                           else before[Sponsor(key) := Entry(Count(next), before[Sponsor(key)].expires)]
    {
      var n := IncrBy(Sponsor(key), -amount, now);
      if n == 0 {
        Del(Sponsor(key));
      }
    }

    method ReleaseSponsorshipExposure(keys: seq<string>, amount: int, id: string, now: int) returns (answer: Answer)
      requires Valid() && WellFormed(Release(keys, amount, id))
      modifies this
      ensures Valid()
      ensures Outcome(View(now), answer) == ReleaseExposure(old(View(now)), keys, amount, id)
    {
      if Get(Reservation(id), now).None? {
        return AlreadyReleased;
      }
      if ToNumber(Get(Reservation(id), now), 0) != amount {
        return AmountMismatch;
      }
      for i := 0 to |keys|
        invariant Valid() && View(now) == old(View(now))
        invariant forall j | 0 <= j < i ::
            Sponsor(keys[j]) in View(now) && Number(View(now), Sponsor(keys[j])) >= amount
      {
        var n := ToNumber(Get(Sponsor(keys[i]), now), -1);
        if n < amount {
          return CountersUnsafe;
        }
      }
      SubtractFromEach(keys, amount, now);
      Del(Reservation(id));
      return Released;
    }

    method SubtractFromEach(keys: seq<string>, amount: int, now: int)
      requires Valid() && Distinct(keys)
      requires forall j | 0 <= j < |keys| :: Sponsor(keys[j]) in View(now)
      modifies this
      ensures Valid()
      ensures View(now) == SubtractFromCounters(old(View(now)), keys, amount)
    {
      ghost var before := View(now);
      SubtractNone(before, keys, amount);
      for i := 0 to |keys|
        invariant Valid()
        invariant View(now) == SubtractFromCounters(before, keys[..i], amount)
      {
        SubtractOne(before, keys, i, amount);
        CountDown(keys[i], amount, now);
      }
      assert keys[..|keys|] == keys;
    }

    /** Any operation of the store's interface. */
    method Perform(op: Operation, now: int) returns (answer: Answer)
      requires Valid() && WellFormed(op)
      modifies this
      ensures Valid()
      ensures Outcome(View(now), answer) == Apply(old(View(now)), now, op)
    {
      match op
      case AcquireReplayLock(lock, owner, ttl) =>
        var yes := AcquireReplayLock(lock, owner, ttl, now);
        answer := Flag(yes);
      case HasReplayLock(lock) =>
        var yes := HasReplayLock(lock, now);
        answer := Flag(yes);
      case ReleaseReplayLockIfSafe(lock, owner) =>
        ReleaseReplayLockIfSafe(lock, owner, now);
        answer := Done;
      case ConsumeRateLimit(key, limit, window) =>
        var yes := ConsumeRateLimit(key, limit, window, now);
        answer := Flag(yes);
      case Reserve(keys, amount, limits, window, id) =>
        var yes := ReserveSponsorshipExposure(keys, amount, limits, window, id, now);
        answer := Flag(yes);
      case Release(keys, amount, id) =>
        answer := ReleaseSponsorshipExposure(keys, amount, id, now);
      case GetExposure(key) =>
        answer := Exposure(ToNumber(Get(Sponsor(key), now), 0));
    }
  }
}
