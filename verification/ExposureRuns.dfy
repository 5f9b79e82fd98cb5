/**
  The sponsorship-exposure ledger over whole runs: conservation while nothing expires, and bounds
  whatever expires. A reservation id always comes with the same keys, as in server/risk/operational.ts.
*/
module ExposureRuns {
  import opened Wrappers
  import opened Sequences
  import opened Ledger
  import opened Sums

  type KeysOf = string -> seq<string>

  function ReservationIds(s: Store): set<string> {
    set k | k in s && k.Reservation? :: k.name
  }

  /** An unreleased reservation naming `key`; with `since`, one that expires no sooner than that. */
  predicate Names(s: Store, keysOf: KeysOf, key: string, since: Option<int>, id: string) {
    Reservation(id) in s && key in keysOf(id) && (since.None? || s[Reservation(id)].expires >= since.value)
  }

  function Naming(s: Store, keysOf: KeysOf, key: string, since: Option<int>): map<string, int> {
    map id | id in ReservationIds(s) && Names(s, keysOf, key, since, id) :: Number(s, Reservation(id))
  }

  lemma NamingEntries(s: Store, keysOf: KeysOf, key: string, since: Option<int>)
    ensures forall id :: id in Naming(s, keysOf, key, since) <==> Names(s, keysOf, key, since, id)
    ensures forall id | Names(s, keysOf, key, since, id) ::
        Naming(s, keysOf, key, since)[id] == Number(s, Reservation(id))
  {
    IdsOf(s);
  }

  lemma SameNaming(s: Store, t: Store, keysOf: KeysOf, key: string, since: Option<int>)
    requires forall id :: Names(t, keysOf, key, since, id) <==> Names(s, keysOf, key, since, id)
    requires forall id | Names(s, keysOf, key, since, id) :: Number(t, Reservation(id)) == Number(s, Reservation(id))
    ensures Naming(t, keysOf, key, since) == Naming(s, keysOf, key, since)
  {
    NamingEntries(s, keysOf, key, since);
    NamingEntries(t, keysOf, key, since);
  }

  /** Reserves and releases of one id always use that id's keys. */
  ghost predicate KeysFixed(trace: Trace, keysOf: KeysOf) {
    forall i | 0 <= i < |trace| :: KeysFixedFor(trace[i].op, keysOf)
  }

  ghost predicate KeysFixedFor(op: Operation, keysOf: KeysOf) {
    && WellFormed(op)
    && match op
       case Reserve(keys, _, _, _, id) => keys == keysOf(id)
       case Release(keys, _, id) => keys == keysOf(id)
       case _ => true
  }

  // ---------------------------------------------------------------- one operation's effect on the reservations

  predicate TouchesExposure(op: Operation) {
    op.Reserve? || op.Release?
  }

  /** What is outstanding is recorded by the reservation entries; other operations do not touch the ledger. */
  lemma OtherOperations(s: Store, now: int, op: Operation, k: StoreKey)
    requires WellFormed(op) && !TouchesExposure(op) && (k.Sponsor? || k.Reservation?)
    ensures var t := Apply(s, now, op).store;
            (k in t <==> k in s) && (k in s ==> t[k] == s[k])
  {
  }

  lemma SponsorKeysMember(keys: seq<string>, key: string)
    ensures Sponsor(key) in SponsorKeys(keys) <==> key in keys
  {
    if key in keys {
      var i :| 0 <= i < |keys| && keys[i] == key;
      assert Sponsor(keys[i]) in SponsorKeys(keys);
    }
  }

  /** A granted reservation adds its amount to each of its counters and enters its own record; nothing else moves. */
  lemma ReserveEffect(s: Store, now: int, keys: seq<string>, amount: int, limits: seq<int>, window: int, id: string,
                      key: string)
    requires |keys| == |limits|
    requires Reservation(id) !in s && ReserveExposure(s, now, keys, amount, limits, window, id).answer == Flag(true)
    ensures var t := ReserveExposure(s, now, keys, amount, limits, window, id).store;
            && (forall other :: Reservation(other) in t <==> Reservation(other) in s || other == id)
            && (forall other | other != id && Reservation(other) in s :: t[Reservation(other)] == s[Reservation(other)])
            && t[Reservation(id)] == Entry(Count(amount), now + window * 1000)
            && (key in keys ==>
                  && Sponsor(key) in t
                  && t[Sponsor(key)]
                        == Entry(Count(Number(s, Sponsor(key)) + amount),
                                 Deadline(s, Sponsor(key), now + window * 1000)))
            && (key !in keys ==>
                (Sponsor(key) in t <==> Sponsor(key) in s)
                   && (Sponsor(key) in s ==> t[Sponsor(key)] == s[Sponsor(key)]))
  {
    SponsorKeysMember(keys, key);
  }

  lemma ReleaseEffect(s: Store, keys: seq<string>, amount: int, id: string, key: string)
    requires ReleaseExposure(s, keys, amount, id).answer == Released
    ensures var t := ReleaseExposure(s, keys, amount, id).store;
            && Reservation(id) in s && Number(s, Reservation(id)) == amount
            && (forall other :: Reservation(other) in t <==> Reservation(other) in s && other != id)
            && (forall other | other != id && Reservation(other) in s :: t[Reservation(other)] == s[Reservation(other)])
            && (key in keys ==>
                  && Sponsor(key) in s && Number(s, Sponsor(key)) >= amount
                  && (Sponsor(key) in t <==> Number(s, Sponsor(key)) != amount)
                  && (Sponsor(key) in t ==>
                      t[Sponsor(key)] == Entry(Count(Number(s, Sponsor(key)) - amount), s[Sponsor(key)].expires)))
            && (key !in keys ==>
                (Sponsor(key) in t <==> Sponsor(key) in s)
                   && (Sponsor(key) in s ==> t[Sponsor(key)] == s[Sponsor(key)]))
  {
    SponsorKeysMember(keys, key);
    if key in keys {
      var i :| 0 <= i < |keys| && keys[i] == key;
      assert !(Sponsor(keys[i]) !in s || Number(s, Sponsor(keys[i])) < amount);
    }
  }

  // ---------------------------------------------------------------- conservation without expiry

  /** Every counter is the sum of the unreleased reservations that name it. */
  ghost predicate Conserved(s: Store, keysOf: KeysOf) {
    && (forall key :: Number(s, Sponsor(key)) == SumOf(Naming(s, keysOf, key, None)))
    && (forall id | Reservation(id) in s :: s[Reservation(id)].content.Count? && s[Reservation(id)].content.n >= 0)
    && (forall key | Sponsor(key) in s :: s[Sponsor(key)].content.Count?)
  }

  /** No ledger entry reaches its deadline before `horizon`. */
  ghost predicate Lasting(s: Store, horizon: int) {
    forall k | k in s && (k.Sponsor? || k.Reservation?) :: s[k].expires >= horizon
  }

  ghost predicate NoExpiry(trace: Trace, horizon: int) {
    forall i | 0 <= i < |trace| ::
      trace[i].now < horizon && (trace[i].op.Reserve? ==> trace[i].now + trace[i].op.windowSeconds * 1000 >= horizon)
  }

  lemma IdsOf(s: Store)
    ensures forall id :: id in ReservationIds(s) <==> Reservation(id) in s
  {
    forall id | Reservation(id) in s ensures id in ReservationIds(s) {
      assert Reservation(id).name == id;
    }
  }

  lemma NamingInsert(s: Store, t: Store, keysOf: KeysOf, key: string, since: Option<int>, id: string)
    requires Reservation(id) !in s && Reservation(id) in t
    requires forall other :: Reservation(other) in t <==> Reservation(other) in s || other == id
    requires forall other | other != id && Reservation(other) in s :: t[Reservation(other)] == s[Reservation(other)]
    ensures SumOf(Naming(t, keysOf, key, since)) ==
            SumOf(Naming(s, keysOf, key, since))
                + (if Names(t, keysOf, key, since, id) then Number(t, Reservation(id)) else 0)
  {
    NamingEntries(s, keysOf, key, since);
    NamingEntries(t, keysOf, key, since);
    var without, with := Naming(s, keysOf, key, since), Naming(t, keysOf, key, since);
    forall other | other != id ensures Names(t, keysOf, key, since, other) <==> Names(s, keysOf, key, since, other) {
    }
    if Names(t, keysOf, key, since, id) {
      assert with == without[id := Number(t, Reservation(id))];
      SumInsert(without, id, Number(t, Reservation(id)));
    } else {
      assert with == without;
    }
  }

  lemma ConservedReserve(s: Store, now: int, op: Operation, keysOf: KeysOf)
    requires Conserved(s, keysOf) && op.Reserve? && KeysFixedFor(op, keysOf)
    ensures Conserved(Apply(s, now, op).store, keysOf)
  {
    var outcome := Apply(s, now, op);
    if Reservation(op.id) !in s && outcome.answer == Flag(true) {
      forall key
        ensures Number(outcome.store, Sponsor(key)) == SumOf(Naming(outcome.store, keysOf, key, None))
        ensures Sponsor(key) in outcome.store ==> outcome.store[Sponsor(key)].content.Count?
        ensures Reservation(key) in outcome.store ==>
            outcome.store[Reservation(key)].content.Count? && outcome.store[Reservation(key)].content.n >= 0
      {
        ReserveEffect(s, now, op.keys, op.amount, op.limits, op.windowSeconds, op.id, key);
        NamingInsert(s, outcome.store, keysOf, key, None, op.id);
      }
    }
  }

  lemma ConservedRelease(s: Store, now: int, op: Operation, keysOf: KeysOf)
    requires Conserved(s, keysOf) && op.Release? && KeysFixedFor(op, keysOf)
    ensures Conserved(Apply(s, now, op).store, keysOf)
  {
    var outcome := Apply(s, now, op);
    if outcome.answer == Released {
      forall key
        ensures Number(outcome.store, Sponsor(key)) == SumOf(Naming(outcome.store, keysOf, key, None))
        ensures Sponsor(key) in outcome.store ==> outcome.store[Sponsor(key)].content.Count?
        ensures Reservation(key) in outcome.store ==>
            outcome.store[Reservation(key)].content.Count? && outcome.store[Reservation(key)].content.n >= 0
      {
        ReleaseEffect(s, op.keys, op.amount, op.id, key);
        NamingInsert(outcome.store, s, keysOf, key, None, op.id);
      }
    }
  }

  lemma ConservedStep(s: Store, now: int, op: Operation, keysOf: KeysOf)
    requires Conserved(s, keysOf) && KeysFixedFor(op, keysOf)
    ensures Conserved(Apply(s, now, op).store, keysOf)
  {
    if op.Reserve? {
      ConservedReserve(s, now, op, keysOf);
    } else if op.Release? {
      ConservedRelease(s, now, op, keysOf);
    } else {
      var t := Apply(s, now, op).store;
      forall key
        ensures Number(t, Sponsor(key)) == SumOf(Naming(t, keysOf, key, None))
        ensures Sponsor(key) in t ==> t[Sponsor(key)].content.Count?
        ensures Reservation(key) in t ==> t[Reservation(key)].content.Count? && t[Reservation(key)].content.n >= 0
      {
        SameLedger(s, now, op);
        IdsOf(s);
        IdsOf(t);
        SameNaming(s, t, keysOf, key, None);
      }
    }
  }

  lemma SameLedger(s: Store, now: int, op: Operation)
    requires WellFormed(op) && !TouchesExposure(op)
    ensures var t := Apply(s, now, op).store;
            forall k: StoreKey | k.Sponsor? || k.Reservation? :: (k in t <==> k in s) && (k in s ==> t[k] == s[k])
  {
    forall k: StoreKey | k.Sponsor? || k.Reservation?
      ensures var t := Apply(s, now, op).store; (k in t <==> k in s) && (k in s ==> t[k] == s[k])
    {
      OtherOperations(s, now, op, k);
    }
  }

  lemma ConservedLive(s: Store, keysOf: KeysOf, now: int, horizon: int)
    requires Conserved(s, keysOf) && Lasting(s, horizon) && now < horizon
    ensures Conserved(Live(s, now), keysOf) && Lasting(Live(s, now), horizon)
  {
    var t := Live(s, now);
    IdsOf(s);
    IdsOf(t);
    forall key ensures Number(t, Sponsor(key)) == SumOf(Naming(t, keysOf, key, None)) {
      SameNaming(s, t, keysOf, key, None);
    }
  }

  lemma LastingStep(s: Store, now: int, op: Operation, horizon: int)
    requires WellFormed(op) && Lasting(s, horizon)
    requires op.Reserve? ==> now + op.windowSeconds * 1000 >= horizon
    ensures Lasting(Apply(s, now, op).store, horizon)
  {
    if !TouchesExposure(op) {
      SameLedger(s, now, op);
    }
  }

  /** Over every run in which nothing expires, each counter equals the sum of the unreleased reservations naming it. */
  lemma {:induction false} ConservationOverRuns(trace: Trace, keysOf: KeysOf, horizon: int)
    requires KeysFixed(trace, keysOf) && NoExpiry(trace, horizon)
    ensures Conserved(Final(map[], trace), keysOf) && Lasting(Final(map[], trace), horizon)
  {
    if trace == [] {
      forall key ensures Number(map[], Sponsor(key)) == SumOf(Naming(map[], keysOf, key, None)) {
        assert Naming(map[], keysOf, key, None) == map[];
      }
    } else {
      var last := |trace| - 1;
      ConservationOverRuns(trace[..last], keysOf, horizon);
      var s, t := Final(map[], trace[..last]), trace[last];
      ConservedLive(s, keysOf, t.now, horizon);
      ConservedStep(Live(s, t.now), t.now, t.op, keysOf);
      LastingStep(Live(s, t.now), t.now, t.op, horizon);
    }
  }

  // ---------------------------------------------------------------- releases without expiry

  lemma CountersCover(s: Store, keysOf: KeysOf, id: string, key: string)
    requires Conserved(s, keysOf) && Reservation(id) in s && key in keysOf(id)
    ensures Number(s, Sponsor(key)) >= Number(s, Reservation(id)) >= 0
  {
    IdsOf(s);
    var naming := Naming(s, keysOf, key, None);
    var alone := map[id := naming[id]];
    SumMonotone(alone, naming);
    SumRemove(alone, id);
    assert alone - {id} == map[];
  }

  /**
    Releasing a live reservation with its own keys and amount succeeds exactly when the amount is positive
    or all of its counters still exist.
  */
  lemma MatchingReleaseExact(s: Store, keysOf: KeysOf, id: string)
    requires Conserved(s, keysOf) && Reservation(id) in s
    ensures ReleaseExposure(s, keysOf(id), Number(s, Reservation(id)), id).answer == Released <==>
            Number(s, Reservation(id)) > 0 || forall key | key in keysOf(id) :: Sponsor(key) in s
  {
    var keys, amount := keysOf(id), Number(s, Reservation(id));
    forall key | key in keys ensures Number(s, Sponsor(key)) >= amount {
      CountersCover(s, keysOf, id, key);
    }
    assert amount > 0 ==> forall key | key in keys :: Sponsor(key) in s;
    if forall key | key in keys :: Sponsor(key) in s {
      assert forall i | 0 <= i < |keys| :: keys[i] in keys;
    } else {
      var key :| key in keys && Sponsor(key) !in s;
      var i :| 0 <= i < |keys| && keys[i] == key;
      assert Sponsor(keys[i]) !in s;
    }
  }

  /**
    The answer to every release in a run without expiry: there must be a live reservation, the amount must be
    its own, and then the release succeeds unless it is a zero amount one of whose counters is gone.
  */
  lemma ReleaseAnswerOverRuns(trace: Trace, keysOf: KeysOf, horizon: int, i: nat)
    requires KeysFixed(trace, keysOf) && NoExpiry(trace, horizon)
    requires i < |trace| && trace[i].op.Release?
    ensures var s := Live(Final(map[], trace[..i]), trace[i].now);
            var op := trace[i].op;
            AnswerAt(map[], trace, i) ==
              if Reservation(op.id) !in s then AlreadyReleased
              else if Number(s, Reservation(op.id)) != op.amount then AmountMismatch
              else if op.amount > 0 || forall key | key in op.keys :: Sponsor(key) in s then Released
              else CountersUnsafe
  {
    assert KeysFixed(trace[..i], keysOf) && KeysFixedFor(trace[i].op, keysOf);
    ConservationOverRuns(trace[..i], keysOf, horizon);
    var s := Final(map[], trace[..i]);
    ConservedLive(s, keysOf, trace[i].now, horizon);
    var op, live := trace[i].op, Live(s, trace[i].now);
    if Reservation(op.id) in live && Number(live, Reservation(op.id)) == op.amount {
      MatchingReleaseExact(live, keysOf, op.id);
    }
  }

  /**
    The answers to the other two ledger operations in such a run. A question for the exposure behind a key is
    answered with the sum of the unreleased reservations naming it; a new reservation is granted exactly when,
    with it, that sum stays within the limit of every key.
  */
  lemma LedgerAnswersOverRuns(trace: Trace, keysOf: KeysOf, horizon: int, i: nat)
    requires KeysFixed(trace, keysOf) && NoExpiry(trace, horizon) && i < |trace|
    ensures var s, op := Live(Final(map[], trace[..i]), trace[i].now), trace[i].op;
      && (op.GetExposure? ==> AnswerAt(map[], trace, i) == Exposure(SumOf(Naming(s, keysOf, op.key, None))))
      && (op.Reserve? ==>
            AnswerAt(map[], trace, i) ==
            Flag(|| Reservation(op.id) in s
                 || forall k | 0 <= k < |op.keys| ::
                      SumOf(Naming(s, keysOf, op.keys[k], None)) + op.amount <= op.limits[k]))
  {
    assert KeysFixed(trace[..i], keysOf) && KeysFixedFor(trace[i].op, keysOf);
    ConservationOverRuns(trace[..i], keysOf, horizon);
    ConservedLive(Final(map[], trace[..i]), keysOf, trace[i].now, horizon);
  }

  /** No counter of the reservation is kept at zero: what deleting at zero maintains while every amount is positive. */
  ghost predicate CountersPositive(s: Store, keys: seq<string>) {
    forall k | k in SponsorKeys(keys) && k in s :: s[k].content.Count? && Number(s, k) > 0
  }

  /** Releasing right after reserving puts the whole ledger back, deadlines included. */
  lemma ReleaseUndoesReserve(s: Store, now: int, keys: seq<string>, amount: nat, limits: seq<int>, windowSeconds: int,
                             id: string)
    requires |keys| == |limits| && Distinct(keys) && CountersPositive(s, keys)
    requires Reservation(id) !in s
        && ReserveExposure(s, now, keys, amount, limits, windowSeconds, id).answer == Flag(true)
    ensures var reserved := ReserveExposure(s, now, keys, amount, limits, windowSeconds, id).store;
            ReleaseExposure(reserved, keys, amount, id) == Outcome(s, Released)
  {
    var reserved := ReserveExposure(s, now, keys, amount, limits, windowSeconds, id).store;
    assert forall i | 0 <= i < |keys| :: Sponsor(keys[i]) in SponsorKeys(keys);
    assert SubtractFromCounters(reserved, keys, amount) - {Reservation(id)} == s;
  }

  /**
    Refusals leave the ledger as it is. So does every later reservation under the id of one that is still live,
    whatever its keys, amount, limits and window, and every later release under an id that is not live.
  */
  lemma RepeatsAndRefusalsChangeNothing(s: Store, now: int, keys: seq<string>, amount: int, limits: seq<int>,
                                        windowSeconds: int, id: string)
    requires |keys| == |limits|
    ensures ReserveExposure(s, now, keys, amount, limits, windowSeconds, id).answer == Flag(false) ==>
              ReserveExposure(s, now, keys, amount, limits, windowSeconds, id).store == s
    ensures Reservation(id) in s ==>
        ReserveExposure(s, now, keys, amount, limits, windowSeconds, id) == Outcome(s, Flag(true))
    ensures ReleaseExposure(s, keys, amount, id).answer != Released ==> ReleaseExposure(s, keys, amount, id).store == s
    ensures Reservation(id) !in s ==> ReleaseExposure(s, keys, amount, id) == Outcome(s, AlreadyReleased)
  {
  }

  /** A granted reservation stays, with its amount, until its deadline or its own release. */
  lemma {:induction false} ReservationStays(s: Store, trace: Trace, id: string, until: int)
    requires AllWellFormed(trace) && Reservation(id) in s && s[Reservation(id)].expires >= until
    requires forall i | 0 <= i < |trace| :: trace[i].now < until && !(trace[i].op.Release? && trace[i].op.id == id)
    ensures Reservation(id) in Final(s, trace) && Final(s, trace)[Reservation(id)] == s[Reservation(id)]
  {
    if trace != [] {
      var last := |trace| - 1;
      ReservationStays(s, trace[..last], id, until);
      var live, t := Live(Final(s, trace[..last]), trace[last].now), trace[last];
      if t.op.Reserve? && Reservation(t.op.id) !in live && Apply(live, t.now, t.op).answer == Flag(true) {
        ReserveEffect(live, t.now, t.op.keys, t.op.amount, t.op.limits, t.op.windowSeconds, t.op.id, "");
      } else if t.op.Release? && Apply(live, t.now, t.op).answer == Released {
        ReleaseEffect(live, t.op.keys, t.op.amount, t.op.id, "");
      } else if !TouchesExposure(t.op) {
        OtherOperations(live, t.now, t.op, Reservation(id));
      }
    }
  }

  /** So repeating it at any time before then is granted and changes nothing, whatever has happened in between. */
  lemma RepeatedReserveIsIdempotent(s: Store, trace: Trace, id: string, again: Timed, until: int)
    requires AllWellFormed(trace) && Reservation(id) in s && s[Reservation(id)].expires >= until
    requires forall i | 0 <= i < |trace| :: trace[i].now < until && !(trace[i].op.Release? && trace[i].op.id == id)
    requires again.op.Reserve? && again.op.id == id && WellFormed(again.op) && again.now < until
    ensures StepOn(Final(s, trace), again) == Outcome(Live(Final(s, trace), again.now), Flag(true))
  {
    ReservationStays(s, trace, id, until);
  }

  // ---------------------------------------------------------------- runs on one list of keys

  /** A counter for each key, at one count and with one deadline. */
  function Counters(keys: seq<string>, n: int, expires: int): Store {
    map k | k in SponsorKeys(keys) :: Entry(Count(n), expires)
  }

  /** A limit of 10 for each key. */
  function Tens(keys: seq<string>): (limits: seq<int>)
    ensures |limits| == |keys|
  {
    seq(|keys|, _ => 10)
  }

  function Reserved(id: string, amount: int, expires: int): Store {
    map[Reservation(id) := Entry(Count(amount), expires)]
  }

  ghost predicate NoCounters(s: Store) {
    forall k | k in s :: k.Reservation?
  }

  /** Reserving where no key has a counter yet. */
  lemma ReserveFirst(rest: Store, now: int, keys: seq<string>, amount: int, id: string)
    requires NoCounters(rest) && Reservation(id) !in rest && amount <= 10
    ensures ReserveExposure(rest, now, keys, amount, Tens(keys), 60, id) ==
            Outcome(rest + Reserved(id, amount, now + 60_000) + Counters(keys, amount, now + 60_000), Flag(true))
  {
    var after := ReserveExposure(rest, now, keys, amount, Tens(keys), 60, id).store;
    assert after == rest + Reserved(id, amount, now + 60_000) + Counters(keys, amount, now + 60_000);
  }

  lemma AddOnCounters(rest: Store, keys: seq<string>, n: int, expires: int, amount: int, otherwise: int)
    requires NoCounters(rest)
    ensures AddToCounters(rest + Counters(keys, n, expires), keys, amount, otherwise)
         == rest + Counters(keys, n + amount, expires)
  {
  }

  lemma ReservationFirst(rest: Store, keys: seq<string>, n: int, expires: int, id: string, amount: int, until: int)
    ensures (rest + Counters(keys, n, expires))[Reservation(id) := Entry(Count(amount), until)]
         == rest + Reserved(id, amount, until) + Counters(keys, n, expires)
  {
  }

  lemma CountersRead(rest: Store, keys: seq<string>, n: int, expires: int, amount: int)
    requires n + amount <= 10
    ensures forall i | 0 <= i < |keys| ::
        !(Number(rest + Counters(keys, n, expires), Sponsor(keys[i])) + amount > Tens(keys)[i])
  {
    assert forall i | 0 <= i < |keys| :: Sponsor(keys[i]) in SponsorKeys(keys);
  }

  /** A reservation within all limits is granted. */
  lemma GrantedOutcome(s: Store, now: int, keys: seq<string>, amount: int, limits: seq<int>, windowSeconds: int,
                       id: string)
    requires |keys| == |limits| && Reservation(id) !in s
    requires forall i | 0 <= i < |keys| :: !(Number(s, Sponsor(keys[i])) + amount > limits[i])
    ensures var expires := now + windowSeconds * 1000;
            ReserveExposure(s, now, keys, amount, limits, windowSeconds, id) ==
            Outcome(AddToCounters(s, keys, amount, expires)[Reservation(id) := Entry(Count(amount), expires)],
                    Flag(true))
  {
  }

  /** Reserving where every key has its counter. */
  lemma ReserveNext(rest: Store, n: int, expires: int, now: int, keys: seq<string>, amount: int, id: string)
    requires NoCounters(rest) && Reservation(id) !in rest && n + amount <= 10
    ensures ReserveExposure(rest + Counters(keys, n, expires), now, keys, amount, Tens(keys), 60, id) ==
            Outcome(rest + Reserved(id, amount, now + 60_000) + Counters(keys, n + amount, expires), Flag(true))
  {
    CountersRead(rest, keys, n, expires, amount);
    GrantedOutcome(rest + Counters(keys, n, expires), now, keys, amount, Tens(keys), 60, id);
    AddOnCounters(rest, keys, n, expires, amount, now + 60_000);
    ReservationFirst(rest, keys, n + amount, expires, id, amount, now + 60_000);
  }

  lemma LiveCounters(rest: Store, keys: seq<string>, n: int, expires: int, now: int)
    requires NoCounters(rest)
    ensures Live(rest + Counters(keys, n, expires), now)
         == if expires > now then Live(rest, now) + Counters(keys, n, expires) else Live(rest, now)
  {
  }

  /** Releasing what all the counters hold takes them away. */
  lemma ReleaseAll(rest: Store, n: int, expires: int, keys: seq<string>, id: string)
    requires NoCounters(rest) && Reservation(id) in rest && rest[Reservation(id)].content == Count(n)
    ensures ReleaseExposure(rest + Counters(keys, n, expires), keys, n, id) ==
            Outcome(rest - {Reservation(id)}, Released)
  {
    var before := rest + Counters(keys, n, expires);
    assert forall i | 0 <= i < |keys| :: Sponsor(keys[i]) in SponsorKeys(keys);
    assert ReleaseExposure(before, keys, n, id).store == rest - {Reservation(id)};
  }

  lemma ReleaseStuck(s: Store, keys: seq<string>, amount: int, id: string)
    requires NoCounters(s) && keys != [] && Reservation(id) in s && s[Reservation(id)].content == Count(amount)
    ensures ReleaseExposure(s, keys, amount, id) == Outcome(s, CountersUnsafe)
  {
    assert Sponsor(keys[0]) !in s;
  }

  /** Two reservations share their counters; the paying one is released before the one that pays nothing. */
  function StrandingTrace(keys: seq<string>): (trace: Trace)
    ensures |trace| == 4
  {
    [Timed(0, Reserve(keys, 0, Tens(keys), 60, "a")),
     Timed(1, Reserve(keys, 5, Tens(keys), 60, "b")),
     Timed(2, Release(keys, 5, "b")),
     Timed(3, Release(keys, 0, "a"))]
  }

  function StrandingStore(keys: seq<string>, n: nat): Store {
    match n
    case 0 => map[]
    case 1 => map[] + Reserved("a", 0, 60_000) + Counters(keys, 0, 60_000)
    case 2 => Reserved("a", 0, 60_000) + Reserved("b", 5, 60_001) + Counters(keys, 5, 60_000)
    case _ => Reserved("a", 0, 60_000)
  }

  lemma StrandingFirst(keys: seq<string>)
    requires Distinct(keys)
    ensures StepOn(StrandingStore(keys, 0), StrandingTrace(keys)[0]) == Outcome(StrandingStore(keys, 1), Flag(true))
  {
    assert Live(map[], 0) == map[];
    ReserveFirst(map[], 0, keys, 0, "a");
  }

  lemma StrandingSecond(keys: seq<string>)
    requires Distinct(keys)
    ensures StepOn(StrandingStore(keys, 1), StrandingTrace(keys)[1]) == Outcome(StrandingStore(keys, 2), Flag(true))
  {
    var a := Reserved("a", 0, 60_000);
    assert map[] + a == a == Live(a, 1);
    LiveCounters(a, keys, 0, 60_000, 1);
    ReserveNext(a, 0, 60_000, 1, keys, 5, "b");
  }

  lemma StrandingThird(keys: seq<string>)
    requires Distinct(keys)
    ensures StepOn(StrandingStore(keys, 2), StrandingTrace(keys)[2]) == Outcome(StrandingStore(keys, 3), Released)
  {
    var a, b := Reserved("a", 0, 60_000), Reserved("b", 5, 60_001);
    assert Live(a + b, 2) == a + b;
    LiveCounters(a + b, keys, 5, 60_000, 2);
    ReleaseAll(a + b, 5, 60_000, keys, "b");
    assert a + b - {Reservation("b")} == a;
  }

  lemma StrandingFourth(keys: seq<string>)
    requires keys != [] && Distinct(keys)
    ensures StepOn(StrandingStore(keys, 3), StrandingTrace(keys)[3]) == Outcome(StrandingStore(keys, 4), CountersUnsafe)
  {
    var a := Reserved("a", 0, 60_000);
    assert Live(a, 3) == a;
    ReleaseStuck(a, keys, 0, "a");
  }

  lemma StrandingStep(keys: seq<string>, n: nat)
    requires keys != [] && Distinct(keys) && n < 4
    ensures StepOn(StrandingStore(keys, n), StrandingTrace(keys)[n]) ==
            Outcome(StrandingStore(keys, n + 1),
                    if n < 2 then Flag(true) else if n == 2 then Released else CountersUnsafe)
  {
    if n == 0 {
      StrandingFirst(keys);
    } else if n == 1 {
      StrandingSecond(keys);
    } else if n == 2 {
      StrandingThird(keys);
    } else {
      StrandingFourth(keys);
    }
  }

  lemma {:induction false} StrandingFinal(keys: seq<string>, n: nat)
    requires keys != [] && Distinct(keys) && n <= 4
    ensures AllWellFormed(StrandingTrace(keys))
    ensures Final(map[], StrandingTrace(keys)[..n]) == StrandingStore(keys, n)
  {
    if n > 0 {
      StrandingFinal(keys, n - 1);
      StrandingStep(keys, n - 1);
      assert StrandingTrace(keys)[..n][..n - 1] == StrandingTrace(keys)[..n - 1];
    }
  }

  /** With nothing expired, a matching release of a zero amount can still be refused, and the reservation stays. */
  lemma ZeroReservationStranded(keys: seq<string>)
    requires keys != [] && Distinct(keys)
    ensures AllWellFormed(StrandingTrace(keys))
    ensures AnswerAt(map[], StrandingTrace(keys), 3) == CountersUnsafe
    ensures Reservation("a") in Final(map[], StrandingTrace(keys))
  {
    StrandingFinal(keys, 3);
    StrandingFinal(keys, 4);
    StrandingStep(keys, 3);
    assert StrandingTrace(keys)[..4] == StrandingTrace(keys);
  }

  // ---------------------------------------------------------------- bounds under expiry

  type LimitOf = string -> int

  /** One window length for all reservations, one limit per key. */
  ghost predicate Fixed(trace: Trace, keysOf: KeysOf, limitOf: LimitOf, windowSeconds: int) {
    && KeysFixed(trace, keysOf)
    && forall i | 0 <= i < |trace| :: FixedFor(trace[i].op, limitOf, windowSeconds)
  }

  ghost predicate FixedFor(op: Operation, limitOf: LimitOf, windowSeconds: int) {
    op.Reserve? ==>
      && op.windowSeconds == windowSeconds
      && |op.limits| == |op.keys|
      && forall i | 0 <= i < |op.keys| :: op.limits[i] == limitOf(op.keys[i])
  }

  /**
    Each counter is within its limit, and within the sum of those reservations that outlive it.
    No counter outlives a reservation made now.
  */
  ghost predicate Bounded(s: Store, keysOf: KeysOf, limitOf: LimitOf, windowSeconds: int, now: int) {
    && (forall key | Sponsor(key) in s ::
          && s[Sponsor(key)].content.Count?
          && s[Sponsor(key)].expires <= now + windowSeconds * 1000
          && 0 <= Number(s, Sponsor(key)) <= limitOf(key)
          && Number(s, Sponsor(key)) <= SumOf(Naming(s, keysOf, key, Some(s[Sponsor(key)].expires))))
    && (forall id | Reservation(id) in s :: Number(s, Reservation(id)) >= 0)
  }

  lemma NamingNonNegative(s: Store, keysOf: KeysOf, key: string, since: int)
    requires forall id | Reservation(id) in s :: Number(s, Reservation(id)) >= 0
    ensures 0 <= SumOf(Naming(s, keysOf, key, Some(since))) <= SumOf(Naming(s, keysOf, key, None))
  {
    NamingEntries(s, keysOf, key, Some(since));
    NamingEntries(s, keysOf, key, None);
    forall id | Names(s, keysOf, key, Some(since), id) ensures Names(s, keysOf, key, None, id) {
    }
    SumMonotone(Naming(s, keysOf, key, Some(since)), Naming(s, keysOf, key, None));
  }

  lemma BoundedReserve(s: Store, now: int, op: Operation, keysOf: KeysOf, limitOf: LimitOf, windowSeconds: int)
    requires Bounded(s, keysOf, limitOf, windowSeconds, now)
    requires op.Reserve? && KeysFixedFor(op, keysOf) && FixedFor(op, limitOf, windowSeconds)
    ensures Bounded(Apply(s, now, op).store, keysOf, limitOf, windowSeconds, now)
  {
    var t := Apply(s, now, op).store;
    if Reservation(op.id) !in s && Apply(s, now, op).answer == Flag(true) {
      forall id | Reservation(id) in t ensures Number(t, Reservation(id)) >= 0 {
        ReserveEffect(s, now, op.keys, op.amount, op.limits, op.windowSeconds, op.id, id);
      }
      forall key | Sponsor(key) in t
        ensures t[Sponsor(key)].content.Count? && t[Sponsor(key)].expires <= now + windowSeconds * 1000
        ensures 0 <= Number(t, Sponsor(key)) <= limitOf(key)
        ensures Number(t, Sponsor(key)) <= SumOf(Naming(t, keysOf, key, Some(t[Sponsor(key)].expires)))
      {
        var since := t[Sponsor(key)].expires;
        ReserveEffect(s, now, op.keys, op.amount, op.limits, op.windowSeconds, op.id, key);
        NamingInsert(s, t, keysOf, key, Some(since), op.id);
        NamingNonNegative(s, keysOf, key, since);
        if key in op.keys {
          var i :| 0 <= i < |op.keys| && op.keys[i] == key;
          assert !(Number(s, Sponsor(op.keys[i])) + op.amount > op.limits[i]);
        }
      }
    }
  }

  lemma BoundedRelease(s: Store, now: int, op: Operation, keysOf: KeysOf, limitOf: LimitOf, windowSeconds: int)
    requires Bounded(s, keysOf, limitOf, windowSeconds, now)
    requires op.Release? && KeysFixedFor(op, keysOf)
    ensures Bounded(Apply(s, now, op).store, keysOf, limitOf, windowSeconds, now)
  {
    var t := Apply(s, now, op).store;
    if Apply(s, now, op).answer == Released {
      forall id | Reservation(id) in t ensures Number(t, Reservation(id)) >= 0 {
        ReleaseEffect(s, op.keys, op.amount, op.id, id);
      }
      forall key | Sponsor(key) in t
        ensures t[Sponsor(key)].content.Count? && t[Sponsor(key)].expires <= now + windowSeconds * 1000
        ensures 0 <= Number(t, Sponsor(key)) <= limitOf(key)
        ensures Number(t, Sponsor(key)) <= SumOf(Naming(t, keysOf, key, Some(t[Sponsor(key)].expires)))
      {
        ReleaseEffect(s, op.keys, op.amount, op.id, key);
        NamingInsert(t, s, keysOf, key, Some(t[Sponsor(key)].expires), op.id);
      }
    }
  }

  /** A reservation counted in a counter outlives it, so expiry never takes cover away from a live counter. */
  lemma BoundedLive(s: Store, keysOf: KeysOf, limitOf: LimitOf, windowSeconds: int, before: int, now: int)
    requires Bounded(s, keysOf, limitOf, windowSeconds, before) && before <= now
    ensures Bounded(Live(s, now), keysOf, limitOf, windowSeconds, now)
  {
    var t := Live(s, now);
    IdsOf(s);
    IdsOf(t);
    forall key | Sponsor(key) in t
      ensures Naming(t, keysOf, key, Some(t[Sponsor(key)].expires))
          == Naming(s, keysOf, key, Some(s[Sponsor(key)].expires))
    {
      SameNaming(s, t, keysOf, key, Some(s[Sponsor(key)].expires));
    }
  }

  lemma BoundedOther(s: Store, now: int, op: Operation, keysOf: KeysOf, limitOf: LimitOf, windowSeconds: int)
    requires Bounded(s, keysOf, limitOf, windowSeconds, now)
    requires WellFormed(op) && !TouchesExposure(op)
    ensures Bounded(Apply(s, now, op).store, keysOf, limitOf, windowSeconds, now)
  {
    var t := Apply(s, now, op).store;
    SameLedger(s, now, op);
    IdsOf(s);
    IdsOf(t);
    forall key | Sponsor(key) in t
      ensures Naming(t, keysOf, key, Some(t[Sponsor(key)].expires))
          == Naming(s, keysOf, key, Some(s[Sponsor(key)].expires))
    {
      SameNaming(s, t, keysOf, key, Some(s[Sponsor(key)].expires));
    }
  }

  lemma {:induction false} BoundedOverRuns(trace: Trace, keysOf: KeysOf, limitOf: LimitOf, windowSeconds: int)
    requires Fixed(trace, keysOf, limitOf, windowSeconds) && Monotone(trace)
    ensures trace != [] ==> Bounded(Final(map[], trace), keysOf, limitOf, windowSeconds, trace[|trace| - 1].now)
  {
    if trace != [] {
      var last := |trace| - 1;
      var t := trace[last];
      BoundedOverRuns(trace[..last], keysOf, limitOf, windowSeconds);
      var s := Final(map[], trace[..last]);
      if last > 0 {
        assert trace[..last][last - 1] == trace[last - 1];
        BoundedLive(s, keysOf, limitOf, windowSeconds, trace[last - 1].now, t.now);
      }
      var live := Live(s, t.now);
      assert KeysFixedFor(t.op, keysOf) && FixedFor(t.op, limitOf, windowSeconds);
      if t.op.Reserve? {
        BoundedReserve(live, t.now, t.op, keysOf, limitOf, windowSeconds);
      } else if t.op.Release? {
        BoundedRelease(live, t.now, t.op, keysOf, limitOf, windowSeconds);
      } else {
        BoundedOther(live, t.now, t.op, keysOf, limitOf, windowSeconds);
      }
    }
  }

  /**
    Over every run under a non-decreasing clock, with one window and fixed limits, at every later time: a live
    counter is between zero and its limit, and never exceeds the sum of the live unreleased reservations naming it.
  */
  lemma ExposureBoundedOverRuns(trace: Trace, keysOf: KeysOf, limitOf: LimitOf, windowSeconds: int, now: int,
                                key: string)
    requires Fixed(trace, keysOf, limitOf, windowSeconds) && Monotone(trace)
    requires trace != [] && trace[|trace| - 1].now <= now
    ensures var s := Live(Final(map[], trace), now);
            Sponsor(key) in s ==>
              && 0 <= Number(s, Sponsor(key)) <= limitOf(key)
              && Number(s, Sponsor(key)) <= SumOf(Naming(s, keysOf, key, None))
  {
    BoundedOverRuns(trace, keysOf, limitOf, windowSeconds);
    var s := Final(map[], trace);
    BoundedLive(s, keysOf, limitOf, windowSeconds, trace[|trace| - 1].now, now);
    var live := Live(s, now);
    if Sponsor(key) in live {
      NamingNonNegative(live, keysOf, key, live[Sponsor(key)].expires);
    }
  }
}
