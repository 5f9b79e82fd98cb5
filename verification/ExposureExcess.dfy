/**
  The exposure behind a counter: the summed live reservations that name it. A counter and the reservations it
  counted expire separately, so the two can drift apart; this says exactly when and by how much.
*/
module ExposureExcess {
  import opened Wrappers
  import opened Sequences
  import opened Ledger
  import opened Sums
  import opened ExposureRuns

  ghost function Exposure(s: Store, keysOf: KeysOf, key: string): int {
    SumOf(Naming(s, keysOf, key, None))
  }

  /** What the reservations amount to beyond the counter. */
  ghost function Excess(s: Store, keysOf: KeysOf, key: string): int {
    Exposure(s, keysOf, key) - Number(s, Sponsor(key))
  }

  lemma ReserveKeepsExcess(s: Store, now: int, op: Operation, keysOf: KeysOf, key: string)
    requires op.Reserve? && KeysFixedFor(op, keysOf)
    ensures Excess(Apply(s, now, op).store, keysOf, key) == Excess(s, keysOf, key)
  {
    var outcome := Apply(s, now, op);
    if Reservation(op.id) !in s && outcome.answer == Flag(true) {
      ReserveEffect(s, now, op.keys, op.amount, op.limits, op.windowSeconds, op.id, key);
      NamingInsert(s, outcome.store, keysOf, key, None, op.id);
    }
  }

  lemma ReleaseKeepsExcess(s: Store, now: int, op: Operation, keysOf: KeysOf, key: string)
    requires op.Release? && KeysFixedFor(op, keysOf)
    ensures Excess(Apply(s, now, op).store, keysOf, key) == Excess(s, keysOf, key)
  {
    var outcome := Apply(s, now, op);
    if outcome.answer == Released {
      ReleaseEffect(s, op.keys, op.amount, op.id, key);
      NamingInsert(outcome.store, s, keysOf, key, None, op.id);
    }
  }

  /** No operation changes the excess. */
  lemma OperationsKeepExcess(s: Store, now: int, op: Operation, keysOf: KeysOf, key: string)
    requires KeysFixedFor(op, keysOf)
    ensures Excess(Apply(s, now, op).store, keysOf, key) == Excess(s, keysOf, key)
  {
    if op.Reserve? {
      ReserveKeepsExcess(s, now, op, keysOf, key);
    } else if op.Release? {
      ReleaseKeepsExcess(s, now, op, keysOf, key);
    } else {
      var t := Apply(s, now, op).store;
      SameLedger(s, now, op);
      IdsOf(s);
      IdsOf(t);
      SameNaming(s, t, keysOf, key, None);
    }
  }

  /** The reservations naming a key that have ended by a given time. */
  ghost function Ended(s: Store, keysOf: KeysOf, key: string, now: int): map<string, int> {
    map id | id in Naming(s, keysOf, key, None) && s[Reservation(id)].expires <= now :: Number(s, Reservation(id))
  }

  /** Leaving out some entries of a map takes their sum away. */
  lemma {:induction false} SumSplit(whole: map<string, int>, part: set<string>)
    requires part <= whole.Keys
    ensures SumOf(whole) == SumOf(whole - part) + SumOf(map id | id in part :: whole[id])
    decreases |part|
  {
    if part == {} {
      assert whole - part == whole;
      assert (map id | id in part :: whole[id]) == map[];
    } else {
      var id :| id in part;
      var rest := part - {id};
      SumSplit(whole, rest);
      SumRemove(whole - rest, id);
      assert whole - rest - {id} == whole - part;
      assert (map i | i in part :: whole[i]) == (map i | i in rest :: whole[i])[id := whole[id]];
      SumInsert(map i | i in rest :: whole[i], id, whole[id]);
    }
  }

  /**
    What a step of a run does to the excess of a key: the counter that ended before it, less the reservations that did.
  */
  ghost function Drift(s: Store, keysOf: KeysOf, key: string, now: int): int {
    (if Sponsor(key) in s && s[Sponsor(key)].expires <= now then Number(s, Sponsor(key)) else 0)
        - SumOf(Ended(s, keysOf, key, now))
  }

  lemma NamingAfterTime(s: Store, keysOf: KeysOf, key: string, now: int)
    ensures Ended(s, keysOf, key, now).Keys <= Naming(s, keysOf, key, None).Keys
    ensures Naming(Live(s, now), keysOf, key, None) == Naming(s, keysOf, key, None) - Ended(s, keysOf, key, now).Keys
    ensures Ended(s, keysOf, key, now)
         == map id | id in Ended(s, keysOf, key, now).Keys :: Naming(s, keysOf, key, None)[id]
  {
    NamingEntries(s, keysOf, key, None);
    NamingEntries(Live(s, now), keysOf, key, None);
  }

  /**
    Only time changes the excess: a counter that ends adds what it counted, and reservations that end take theirs away.
  */
  lemma TimeChangesExcess(s: Store, keysOf: KeysOf, key: string, now: int)
    ensures Excess(Live(s, now), keysOf, key) == Excess(s, keysOf, key) + Drift(s, keysOf, key, now)
  {
    NamingAfterTime(s, keysOf, key, now);
    SumSplit(Naming(s, keysOf, key, None), Ended(s, keysOf, key, now).Keys);
  }

  ghost function TotalDrift(trace: Trace, keysOf: KeysOf, key: string): int
    requires AllWellFormed(trace)
  {
    if trace == [] then 0
    else
      var last := |trace| - 1;
      TotalDrift(trace[..last], keysOf, key) + Drift(Final(map[], trace[..last]), keysOf, key, trace[last].now)
  }

  /**
    Over every run the exposure is the counter plus, exactly, what ended counters counted less what ended reservations
    held.
  */
  lemma {:induction false} ExposureOverRuns(trace: Trace, keysOf: KeysOf, key: string)
    requires KeysFixed(trace, keysOf) && AllWellFormed(trace)
    ensures Exposure(Final(map[], trace), keysOf, key)
        == Number(Final(map[], trace), Sponsor(key)) + TotalDrift(trace, keysOf, key)
  {
    if trace == [] {
      assert Naming(map[], keysOf, key, None) == map[];
    } else {
      var last := |trace| - 1;
      ExposureOverRuns(trace[..last], keysOf, key);
      var s, t := Final(map[], trace[..last]), trace[last];
      TimeChangesExcess(s, keysOf, key, t.now);
      OperationsKeepExcess(Live(s, t.now), t.now, t.op, keysOf, key);
    }
  }

  /** The exposure is within the limit at every time at which no more has drifted away than has come back. */
  lemma ExposureWithinLimit(trace: Trace, keysOf: KeysOf, limitOf: LimitOf, windowSeconds: int, key: string)
    requires Fixed(trace, keysOf, limitOf, windowSeconds) && Monotone(trace) && AllWellFormed(trace) && trace != []
    requires Sponsor(key) in Final(map[], trace)
    ensures Exposure(Final(map[], trace), keysOf, key) <= limitOf(key) + TotalDrift(trace, keysOf, key)
  {
    ExposureOverRuns(trace, keysOf, key);
    BoundedOverRuns(trace, keysOf, limitOf, windowSeconds);
  }

  /** While no counter window of a key has ended, nothing has drifted away. */
  ghost predicate NoWindowEnds(trace: Trace, key: string)
    requires AllWellFormed(trace)
  {
    forall n | 0 <= n < |trace| ::
      Sponsor(key) in Final(map[], trace[..n]) ==> Final(map[], trace[..n])[Sponsor(key)].expires > trace[n].now
  }

  lemma EndedNonNegative(s: Store, keysOf: KeysOf, key: string, now: int)
    requires forall id | Reservation(id) in s :: Number(s, Reservation(id)) >= 0
    ensures SumOf(Ended(s, keysOf, key, now)) >= 0
  {
    NamingEntries(s, keysOf, key, None);
    SumMonotone(map[], Ended(s, keysOf, key, now));
  }

  lemma {:induction false} DriftWithoutWindowEnd(trace: Trace, keysOf: KeysOf, limitOf: LimitOf, windowSeconds: int,
                                                 key: string)
    requires Fixed(trace, keysOf, limitOf, windowSeconds) && Monotone(trace) && AllWellFormed(trace)
    requires NoWindowEnds(trace, key)
    ensures TotalDrift(trace, keysOf, key) <= 0
  {
    if trace != [] {
      var last := |trace| - 1;
      var front := trace[..last];
      assert forall n | 0 <= n < last :: front[..n] == trace[..n];
      DriftWithoutWindowEnd(front, keysOf, limitOf, windowSeconds, key);
      LastDrift(trace, keysOf, limitOf, windowSeconds, key);
    }
  }

  lemma LastDrift(trace: Trace, keysOf: KeysOf, limitOf: LimitOf, windowSeconds: int, key: string)
    requires Fixed(trace, keysOf, limitOf, windowSeconds) && Monotone(trace) && AllWellFormed(trace)
    requires trace != [] && NoWindowEnds(trace, key)
    ensures Drift(Final(map[], trace[..|trace| - 1]), keysOf, key, trace[|trace| - 1].now) <= 0
  {
    var last := |trace| - 1;
    if last > 0 {
      BoundedOverRuns(trace[..last], keysOf, limitOf, windowSeconds);
    }
    EndedNonNegative(Final(map[], trace[..last]), keysOf, key, trace[last].now);
  }

  /** The limit bounds the exposure itself until a counter window ends. */
  lemma ExposureWithinLimitInWindow(trace: Trace, keysOf: KeysOf, limitOf: LimitOf, windowSeconds: int, key: string)
    requires Fixed(trace, keysOf, limitOf, windowSeconds) && Monotone(trace) && AllWellFormed(trace)
    requires NoWindowEnds(trace, key) && Sponsor(key) in Final(map[], trace)
    ensures Exposure(Final(map[], trace), keysOf, key) <= limitOf(key)
  {
    ExposureWithinLimit(trace, keysOf, limitOf, windowSeconds, key);
    DriftWithoutWindowEnd(trace, keysOf, limitOf, windowSeconds, key);
  }

  // ---------------------------------------------------------------- which states keep the limit

  /** A new reservation that names the key, under the configured limits, and is granted. */
  ghost predicate GrantedOn(s: Store, now: int, op: Operation, keysOf: KeysOf, limitOf: LimitOf, windowSeconds: int,
                            key: string)
  {
    && op.Reserve? && KeysFixedFor(op, keysOf) && FixedFor(op, limitOf, windowSeconds)
    && key in op.keys && Reservation(op.id) !in s
    && Apply(s, now, op).answer == Flag(true)
  }

  /** A granted reservation adds its amount to the exposure of each of its keys. */
  lemma GrantAdds(s: Store, now: int, op: Operation, keysOf: KeysOf, key: string)
    requires op.Reserve? && KeysFixedFor(op, keysOf) && key in op.keys
    requires Reservation(op.id) !in s && Apply(s, now, op).answer == Flag(true)
    ensures Exposure(Apply(s, now, op).store, keysOf, key) == Exposure(s, keysOf, key) + op.amount
  {
    ReserveKeepsExcess(s, now, op, keysOf, key);
    ReserveEffect(s, now, op.keys, op.amount, op.limits, op.windowSeconds, op.id, key);
  }

  lemma GrantAddsToLimit(s: Store, now: int, op: Operation, keysOf: KeysOf, limitOf: LimitOf, windowSeconds: int,
                         key: string)
    requires GrantedOn(s, now, op, keysOf, limitOf, windowSeconds, key)
    ensures Exposure(Apply(s, now, op).store, keysOf, key) <= limitOf(key) + Excess(s, keysOf, key)
  {
    GrantAdds(s, now, op, keysOf, key);
    var i :| 0 <= i < |op.keys| && op.keys[i] == key;
    assert !(Number(s, Sponsor(op.keys[i])) + op.amount > op.limits[i]);
  }

  /** Every counter of the keys can take the amount. */
  ghost predicate HaveRoom(s: Store, keys: seq<string>, limitOf: LimitOf, amount: int) {
    forall i | 0 <= i < |keys| :: Number(s, Sponsor(keys[i])) + amount <= limitOf(keys[i])
  }

  /** The reservation under an id that uses up what the counter of one of its keys leaves. */
  function FillUp(s: Store, keysOf: KeysOf, limitOf: LimitOf, windowSeconds: int, key: string, id: string): Operation {
    var keys := keysOf(id);
    Reserve(keys, limitOf(key) - Number(s, Sponsor(key)),
            seq(|keys|, i requires 0 <= i < |keys| => limitOf(keys[i])), windowSeconds, id)
  }

  lemma FillUpReachesLimit(s: Store, now: int, keysOf: KeysOf, limitOf: LimitOf, windowSeconds: int, key: string,
                           id: string)
    requires Reservation(id) !in s && key in keysOf(id) && Distinct(keysOf(id)) && windowSeconds > 0
    requires Number(s, Sponsor(key)) <= limitOf(key)
    requires HaveRoom(s, keysOf(id), limitOf, limitOf(key) - Number(s, Sponsor(key)))
    ensures var op := FillUp(s, keysOf, limitOf, windowSeconds, key, id);
            && GrantedOn(s, now, op, keysOf, limitOf, windowSeconds, key)
            && Exposure(Apply(s, now, op).store, keysOf, key) == limitOf(key) + Excess(s, keysOf, key)
  {
    GrantAdds(s, now, FillUp(s, keysOf, limitOf, windowSeconds, key, id), keysOf, key);
  }

  /**
    The limit bounds the exposure itself exactly while the reservations exceed the counter by nothing: that is
    when every reservation then granted on the key leaves the exposure within the limit. Some id of this key has
    to be free whose other counters have as much room as the key's.
  */
  lemma GrantsStayWithinLimitExactly(s: Store, now: int, keysOf: KeysOf, limitOf: LimitOf, windowSeconds: int,
                                     key: string, id: string)
    requires Reservation(id) !in Live(s, now) && key in keysOf(id) && Distinct(keysOf(id)) && windowSeconds > 0
    requires Number(Live(s, now), Sponsor(key)) <= limitOf(key)
    requires HaveRoom(Live(s, now), keysOf(id), limitOf, limitOf(key) - Number(Live(s, now), Sponsor(key)))
    ensures var live := Live(s, now);
            Excess(live, keysOf, key) <= 0 <==>
            forall op | GrantedOn(live, now, op, keysOf, limitOf, windowSeconds, key) ::
              Exposure(Apply(live, now, op).store, keysOf, key) <= limitOf(key)
  {
    var live := Live(s, now);
    forall op | GrantedOn(live, now, op, keysOf, limitOf, windowSeconds, key)
      ensures Exposure(Apply(live, now, op).store, keysOf, key) <= limitOf(key) + Excess(live, keysOf, key)
    {
      GrantAddsToLimit(live, now, op, keysOf, limitOf, windowSeconds, key);
    }
    FillUpReachesLimit(live, now, keysOf, limitOf, windowSeconds, key, id);
  }

  // ---------------------------------------------------------------- a run that exceeds the limit

  /** Window of 60 seconds, limits of 10: the second reservation outlives the counters that counted it. */
  function ExceedingTrace(keys: seq<string>): (trace: Trace)
    ensures |trace| == 3
  {
    [Timed(0, Reserve(keys, 1, Tens(keys), 60, "a")),
     Timed(59_000, Reserve(keys, 9, Tens(keys), 60, "b")),
     Timed(60_000, Reserve(keys, 10, Tens(keys), 60, "c"))]
  }

  function ExceedingStore(keys: seq<string>, n: nat): Store {
    match n
    case 0 => map[]
    case 1 => map[] + Reserved("a", 1, 60_000) + Counters(keys, 1, 60_000)
    case 2 => Reserved("a", 1, 60_000) + Reserved("b", 9, 119_000) + Counters(keys, 10, 60_000)
    case _ => Reserved("b", 9, 119_000) + Reserved("c", 10, 120_000) + Counters(keys, 10, 120_000)
  }

  lemma ExceedingFirst(keys: seq<string>)
    requires Distinct(keys)
    ensures StepOn(ExceedingStore(keys, 0), ExceedingTrace(keys)[0]) == Outcome(ExceedingStore(keys, 1), Flag(true))
  {
    assert Live(map[], 0) == map[];
    ReserveFirst(map[], 0, keys, 1, "a");
  }

  lemma ExceedingSecond(keys: seq<string>)
    requires Distinct(keys)
    ensures StepOn(ExceedingStore(keys, 1), ExceedingTrace(keys)[1]) == Outcome(ExceedingStore(keys, 2), Flag(true))
  {
    var a := Reserved("a", 1, 60_000);
    assert map[] + a == a == Live(a, 59_000);
    LiveCounters(a, keys, 1, 60_000, 59_000);
    ReserveNext(a, 1, 60_000, 59_000, keys, 9, "b");
  }

  lemma ExceedingThird(keys: seq<string>)
    requires Distinct(keys)
    ensures StepOn(ExceedingStore(keys, 2), ExceedingTrace(keys)[2]) == Outcome(ExceedingStore(keys, 3), Flag(true))
  {
    var a, b := Reserved("a", 1, 60_000), Reserved("b", 9, 119_000);
    assert Live(a + b, 60_000) == b;
    LiveCounters(a + b, keys, 10, 60_000, 60_000);
    ReserveFirst(b, 60_000, keys, 10, "c");
  }

  lemma ExceedingStep(keys: seq<string>, n: nat)
    requires Distinct(keys) && n < 3
    ensures StepOn(ExceedingStore(keys, n), ExceedingTrace(keys)[n]) == Outcome(ExceedingStore(keys, n + 1), Flag(true))
  {
    if n == 0 {
      ExceedingFirst(keys);
    } else if n == 1 {
      ExceedingSecond(keys);
    } else {
      ExceedingThird(keys);
    }
  }

  lemma {:induction false} ExceedingFinal(keys: seq<string>, n: nat)
    requires Distinct(keys) && n <= 3
    ensures AllWellFormed(ExceedingTrace(keys))
    ensures Final(map[], ExceedingTrace(keys)[..n]) == ExceedingStore(keys, n)
  {
    if n > 0 {
      ExceedingFinal(keys, n - 1);
      ExceedingStep(keys, n - 1);
      assert ExceedingTrace(keys)[..n][..n - 1] == ExceedingTrace(keys)[..n - 1];
    }
  }

  lemma NineteenNamed(keysOf: KeysOf, keys: seq<string>, key: string)
    requires keysOf("b") == keysOf("c") == keys && key in keys
    ensures Exposure(ExceedingStore(keys, 3), keysOf, key) == 19
  {
    var s := ExceedingStore(keys, 3);
    NamingEntries(s, keysOf, key, None);
    var nine := map["b" := 9];
    assert "b" != "c";
    assert Naming(s, keysOf, key, None) == nine["c" := 10] by {
      assert forall id :: Reservation(id) in s <==> id == "b" || id == "c";
      assert forall id :: Names(s, keysOf, key, None, id) <==> id == "b" || id == "c";
    }
    SumInsert(nine, "c", 10);
    assert nine == map[]["b" := 9];
    SumInsert(map[], "b", 9);
  }

  /** With limits of 10, all three reservations are granted and the live ones amount to 19. */
  lemma ExposureExceedsLimit(keysOf: KeysOf, keys: seq<string>, key: string)
    requires keysOf("b") == keysOf("c") == keys && Distinct(keys) && key in keys
    ensures AllWellFormed(ExceedingTrace(keys))
    ensures forall i | 0 <= i < 3 :: AnswerAt(map[], ExceedingTrace(keys), i) == Flag(true)
    ensures Exposure(Final(map[], ExceedingTrace(keys)), keysOf, key) == 19
  {
    ExceedingFinal(keys, 3);
    assert ExceedingTrace(keys)[..3] == ExceedingTrace(keys);
    NineteenNamed(keysOf, keys, key);
    forall i | 0 <= i < 3 ensures AnswerAt(map[], ExceedingTrace(keys), i) == Flag(true) {
      ExceedingFinal(keys, i);
      ExceedingStep(keys, i);
    }
  }
}
