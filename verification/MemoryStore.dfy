/** The in-process temporary store: a map whose expired entries are dropped when they are looked at. */
module MemoryStore {
  import opened Wrappers
  import opened Sequences
  import opened Ledger

  class MemoryTemporaryStore {
    var values: Store

    /** The entries that count at time `now`; the others are waiting to be dropped. */
    ghost function View(now: int): Store
      reads this
    {
      Live(values, now)
    }

    /** Time alone only takes entries away. */
    lemma ViewLater(earlier: int, now: int)
      requires earlier <= now
      ensures View(now) == Live(View(earlier), now)
    {
      LiveTwice(values, earlier, now);
    }

    constructor ()
      ensures values == map[]
    {
      values := map[];
    }

    method Current(key: StoreKey, now: int) returns (item: Option<Entry>)
      modifies this
      ensures View(now) == old(View(now))
      ensures item == if key in View(now) then Some(View(now)[key]) else None
      ensures key in values <==> key in View(now)
    {
      if key in values && values[key].expires <= now {
        values := values - {key};
      }
      item := if key in values then Some(values[key]) else None;
    }

    method Set(key: StoreKey, entry: Entry, ghost now: int)
      requires entry.expires > now
      modifies this
      ensures View(now) == old(View(now))[key := entry]
    {
      values := values[key := entry];
    }

    method Delete(key: StoreKey, ghost now: int)
      modifies this
      ensures View(now) == old(View(now)) - {key}
    {
      values := values - {key};
    }

    method AcquireReplayLock(lock: string, owner: string, ttlSeconds: int, now: int) returns (acquired: bool)
      requires ttlSeconds > 0
      modifies this
      ensures Outcome(View(now), Flag(acquired))
          == Apply(old(View(now)), now, Ledger.AcquireReplayLock(lock, owner, ttlSeconds))
    {
      var item := Current(Replay(lock), now);
      if item.Some? {
        return false;
      }
      Set(Replay(lock), Entry(Owner(owner), now + ttlSeconds * 1000), now);
      return true;
    }

    method HasReplayLock(lock: string, now: int) returns (held: bool)
      modifies this
      ensures Outcome(View(now), Flag(held)) == Apply(old(View(now)), now, Ledger.HasReplayLock(lock))
    {
      var item := Current(Replay(lock), now);
      return item.Some?;
    }

    method ReleaseReplayLockIfSafe(lock: string, owner: string, now: int)
      modifies this
      ensures Outcome(View(now), Done) == Apply(old(View(now)), now, Ledger.ReleaseReplayLockIfSafe(lock, owner))
    {
      var item := Current(Replay(lock), now);
      if item.Some? && item.value.content == Owner(owner) {
        Delete(Replay(lock), now);
      }
    }

    method ConsumeRateLimit(key: string, limit: int, windowSeconds: int, now: int) returns (allowed: bool)
      requires windowSeconds > 0
      modifies this
      ensures Outcome(View(now), Flag(allowed))
          == Apply(old(View(now)), now, Ledger.ConsumeRateLimit(key, limit, windowSeconds))
    {
      var item := Current(Rate(key), now);
      var count := if item.Some? && item.value.content.Count? then item.value.content.n + 1 else 1;
      var expires := if item.Some? then item.value.expires else now + windowSeconds * 1000;
      Set(Rate(key), Entry(Count(count), expires), now);
      return count <= limit;
    }

    method GetSponsorshipExposure(key: string, now: int) returns (n: int)
      modifies this
      ensures View(now) == old(View(now))
      ensures n == Number(View(now), Sponsor(key))
    {
      var item := Current(Sponsor(key), now);
      n := if item.Some? && item.value.content.Count? then item.value.content.n else 0;
    }

    method ExceedsLimit(keys: seq<string>, amount: int, limits: seq<int>, now: int) returns (exceeds: bool)
      requires |keys| == |limits|
      modifies this
      ensures View(now) == old(View(now))
      ensures exceeds <==> exists i | 0 <= i < |keys| :: Number(View(now), Sponsor(keys[i])) + amount > limits[i]
    {
      for i := 0 to |keys|
        invariant View(now) == old(View(now))
        invariant forall j | 0 <= j < i :: Number(View(now), Sponsor(keys[j])) + amount <= limits[j]
      {
        var counter := GetSponsorshipExposure(keys[i], now);
        if counter + amount > limits[i] {
          return true;
        }
      }
      return false;
    }

    /** One turn of the adding loop. */
    method CountUp(key: string, amount: int, expires: int, now: int)
      requires expires > now
      modifies this
      ensures View(now) == Raised(old(View(now)), Sponsor(key), amount, expires)
    {
      var counter := GetSponsorshipExposure(key, now);
      var item := Current(Sponsor(key), now);
      Set(Sponsor(key), Entry(Count(counter + amount), if item.Some? then item.value.expires else expires), now);
    }

    method AddToEach(keys: seq<string>, amount: int, expires: int, now: int)
      requires Distinct(keys) && expires > now
      modifies this
      ensures View(now) == AddToCounters(old(View(now)), keys, amount, expires)
    {
      ghost var before := View(now);
      AddNone(before, keys, amount, expires);
      for i := 0 to |keys|
        invariant View(now) == AddToCounters(before, keys[..i], amount, expires)
      {
        AddOne(before, keys, i, amount, expires);
        CountUp(keys[i], amount, expires, now);
      }
      assert keys[..|keys|] == keys;
    }

    method ReserveSponsorshipExposure(keys: seq<string>, amount: int, limits: seq<int>, windowSeconds: int, id: string,
                                      now: int)
      returns (allowed: bool)
      requires WellFormed(Reserve(keys, amount, limits, windowSeconds, id))
      modifies this
      ensures Outcome(View(now), Flag(allowed))
          == ReserveExposure(old(View(now)), now, keys, amount, limits, windowSeconds, id)
    {
      var reservation := Current(Reservation(id), now);
      if reservation.Some? {
        return true;
      }
      var exceeds := ExceedsLimit(keys, amount, limits, now);
      if exceeds {
        return false;
      }
      var expires := now + windowSeconds * 1000;
      AddToEach(keys, amount, expires, now);
      Set(Reservation(id), Entry(Count(amount), expires), now);
      return true;
    }

    method ReleaseSponsorshipExposure(keys: seq<string>, amount: int, id: string, now: int) returns (answer: Answer)
      requires Distinct(keys)
      modifies this
      ensures Outcome(View(now), answer) == ReleaseExposure(old(View(now)), keys, amount, id)
    {
      var reservation := Current(Reservation(id), now);
      if reservation.None? {
        return AlreadyReleased;
      }
      var reserved := if reservation.value.content.Count? then reservation.value.content.n else 0;
      if reserved != amount {
        return AmountMismatch;
      }
      var counters: seq<Entry> := [];
      for i := 0 to |keys|
        invariant View(now) == old(View(now)) && |counters| == i
        invariant forall j | 0 <= j < i ::
            && Sponsor(keys[j]) in View(now) && counters[j] == View(now)[Sponsor(keys[j])]
            && Number(View(now), Sponsor(keys[j])) >= amount
      {
        var item := Current(Sponsor(keys[i]), now);
        if item.None? {
          return CountersUnsafe;
        }
        var counter := if item.value.content.Count? then item.value.content.n else 0;
        if counter < amount {
          return CountersUnsafe;
        }
        counters := counters + [item.value];
      }
      ghost var before := View(now);
      SubtractNone(before, keys, amount);
      for i := 0 to |keys|
        invariant View(now) == SubtractFromCounters(before, keys[..i], amount)
      {
        SubtractOne(before, keys, i, amount);
        var next := (if counters[i].content.Count? then counters[i].content.n else 0) - amount;
        if next == 0 {
          Delete(Sponsor(keys[i]), now);
        } else {
          Set(Sponsor(keys[i]), Entry(Count(next), counters[i].expires), now);
        }
      }
      assert keys[..|keys|] == keys;
      Delete(Reservation(id), now);
      return Released;
    }

    /** Any operation of the store's interface. */
    method Perform(op: Operation, now: int) returns (answer: Answer)
      requires WellFormed(op)
      modifies this
      ensures Outcome(View(now), answer) == Apply(old(View(now)), now, op)
    {
      match op
      case AcquireReplayLock(lock, owner, ttl) =>
        var yes := AcquireReplayLock(lock, owner, ttl, now);
        answer := Flag(yes);
      case HasReplayLock(lock) =>
        var yes := HasReplayLock(lock, now);
        answer := Flag(yes);
      case ReleaseReplayLockIfSafe(lock, owner) =>
        ReleaseReplayLockIfSafe(lock, owner, now);
        answer := Done;
      case ConsumeRateLimit(key, limit, window) =>
        var yes := ConsumeRateLimit(key, limit, window, now);
        answer := Flag(yes);
      case Reserve(keys, amount, limits, window, id) =>
        var yes := ReserveSponsorshipExposure(keys, amount, limits, window, id, now);
        answer := Flag(yes);
      case Release(keys, amount, id) =>
        answer := ReleaseSponsorshipExposure(keys, amount, id, now);
      case GetExposure(key) =>
        var n := GetSponsorshipExposure(key, now);
        answer := Exposure(n);
    }
  }
}
