/**
  What the temporary store promises (server/storage/temporary.ts), told once for both of its
  implementations: replay locks, fixed-window rate limits, and the sponsorship-exposure ledger.
  A store maps namespaced keys to entries with a deadline; an entry is gone once its deadline is reached.
*/
module Ledger {
  import opened Sequences

  /** The key namespaces `gasless:replay:`, `:rate:`, `:sponsor:` and `:sponsor-reservation:`. */
  datatype StoreKey = Replay(name: string) | Rate(name: string) | Sponsor(name: string) | Reservation(name: string)

  datatype Content = Owner(id: string) | Count(n: int)

  datatype Entry = Entry(content: Content, expires: int)

  type Store = map<StoreKey, Entry>

  function Live(s: Store, now: int): Store {
    map k | k in s && s[k].expires > now :: s[k]
  }

  datatype Operation =
    | AcquireReplayLock(lock: string, owner: string, ttlSeconds: int)
    | HasReplayLock(lock: string)
    | ReleaseReplayLockIfSafe(lock: string, owner: string)
    | ConsumeRateLimit(key: string, limit: int, windowSeconds: int)
    | Reserve(keys: seq<string>, amount: int, limits: seq<int>, windowSeconds: int, id: string)
    | Release(keys: seq<string>, amount: int, id: string)
    | GetExposure(key: string)

  datatype Answer =
    | Flag(yes: bool) | Done | Released | AlreadyReleased | AmountMismatch | CountersUnsafe | Exposure(n: int)

  datatype Outcome = Outcome(store: Store, answer: Answer)

  /** What callers respect: positive lifetimes, one limit per key, distinct keys, no negative amount. */
  ghost predicate WellFormed(op: Operation) {
    match op
    case AcquireReplayLock(_, _, ttl) => ttl > 0
    case ConsumeRateLimit(_, _, window) => window > 0
    case Reserve(keys, amount, limits, window, _) => Distinct(keys) && |keys| == |limits| && amount >= 0 && window > 0
    case Release(keys, amount, _) => Distinct(keys) && amount >= 0
    case _ => true
  }

  function Number(s: Store, k: StoreKey): int {
    if k in s && s[k].content.Count? then s[k].content.n else 0
  }

  function SponsorKeys(keys: seq<string>): set<StoreKey> {
    set i | 0 <= i < |keys| :: Sponsor(keys[i])
  }

  function Deadline(s: Store, k: StoreKey, otherwise: int): int {
    if k in s then s[k].expires else otherwise
  }

  function AddToCounters(s: Store, keys: seq<string>, amount: int, expires: int): Store {
    map k | k in s.Keys + SponsorKeys(keys) ::
      if k in SponsorKeys(keys) then Entry(Count(Number(s, k) + amount), Deadline(s, k, expires)) else s[k]
  }

  function SubtractFromCounters(s: Store, keys: seq<string>, amount: int): Store {
    map k | k in s && !(k in SponsorKeys(keys) && Number(s, k) == amount) ::
      if k in SponsorKeys(keys) then Entry(Count(Number(s, k) - amount), s[k].expires) else s[k]
  }

  function ReserveExposure(s: Store, now: int, keys: seq<string>, amount: int, limits: seq<int>, windowSeconds: int,
                           id: string): Outcome
    requires |keys| == |limits|
  {
    var expires := now + windowSeconds * 1000;
    if Reservation(id) in s then Outcome(s, Flag(true))
    else if exists i | 0 <= i < |keys| :: Number(s, Sponsor(keys[i])) + amount > limits[i] then Outcome(s, Flag(false))
    else Outcome(AddToCounters(s, keys, amount, expires)[Reservation(id) := Entry(Count(amount), expires)], Flag(true))
  }

  function ReleaseExposure(s: Store, keys: seq<string>, amount: int, id: string): Outcome {
    if Reservation(id) !in s then Outcome(s, AlreadyReleased)
    else if Number(s, Reservation(id)) != amount then Outcome(s, AmountMismatch)
    else if exists i | 0 <= i < |keys| ::
        Sponsor(keys[i]) !in s || Number(s, Sponsor(keys[i])) < amount then Outcome(s, CountersUnsafe)
    else Outcome(SubtractFromCounters(s, keys, amount) - {Reservation(id)}, Released)
  }

  /** One operation at time `now` on the live entries. */
  function Apply(s: Store, now: int, op: Operation): Outcome
    requires op.Reserve? ==> |op.keys| == |op.limits|
  {
    match op
    case AcquireReplayLock(lock, owner, ttl) =>
      if Replay(lock) in s then Outcome(s, Flag(false))
      else Outcome(s[Replay(lock) := Entry(Owner(owner), now + ttl * 1000)], Flag(true))
    case HasReplayLock(lock) => Outcome(s, Flag(Replay(lock) in s))
    case ReleaseReplayLockIfSafe(lock, owner) =>
      Outcome(if Replay(lock) in s && s[Replay(lock)].content == Owner(owner) then s - {Replay(lock)} else s, Done)
    case ConsumeRateLimit(key, limit, window) =>
      var count := Number(s, Rate(key)) + 1;
      Outcome(s[Rate(key) := Entry(Count(count), Deadline(s, Rate(key), now + window * 1000))], Flag(count <= limit))
    case Reserve(keys, amount, limits, window, id) => ReserveExposure(s, now, keys, amount, limits, window, id)
    case Release(keys, amount, id) => ReleaseExposure(s, keys, amount, id)
    case GetExposure(key) => Outcome(s, Exposure(Number(s, Sponsor(key))))
  }

  // ---------------------------------------------------------------- runs

  datatype Timed = Timed(now: int, op: Operation)

  type Trace = seq<Timed>

  ghost predicate Monotone(trace: Trace) {
    forall i, j | 0 <= i <= j < |trace| :: trace[i].now <= trace[j].now
  }

  ghost predicate AllWellFormed(trace: Trace) {
    forall i | 0 <= i < |trace| :: WellFormed(trace[i].op)
  }

  function StepOn(s: Store, t: Timed): Outcome
    requires t.op.Reserve? ==> |t.op.keys| == |t.op.limits|
  {
    Apply(Live(s, t.now), t.now, t.op)
  }

  ghost function Final(s: Store, trace: Trace): Store
    requires AllWellFormed(trace)
  {
    if trace == [] then s
    else
      var last := |trace| - 1;
      StepOn(Final(s, trace[..last]), trace[last]).store
  }

  /** The answer to the operation at position `i` of a run. */
  ghost function AnswerAt(s: Store, trace: Trace, i: nat): Answer
    requires AllWellFormed(trace) && i < |trace|
  {
    StepOn(Final(s, trace[..i]), trace[i]).answer
  }

  lemma LiveTwice(s: Store, earlier: int, later: int)
    requires earlier <= later
    ensures Live(Live(s, earlier), later) == Live(s, later)
  {
  }

  // ---------------------------------------------------------------- one counter at a time

  lemma PrefixKeys(keys: seq<string>, i: nat)
    requires i < |keys|
    ensures SponsorKeys(keys[..i + 1]) == SponsorKeys(keys[..i]) + {Sponsor(keys[i])}
    ensures Distinct(keys) ==> Sponsor(keys[i]) !in SponsorKeys(keys[..i])
  {
    var shorter, longer := keys[..i], keys[..i + 1];
    assert longer[i] == keys[i];
    assert forall j | 0 <= j < i :: longer[j] == shorter[j] == keys[j];
  }

  /** One counter raised, keeping its deadline if it has one. */
  function Raised(s: Store, k: StoreKey, amount: int, expires: int): Store {
    s[k := Entry(Count(Number(s, k) + amount), Deadline(s, k, expires))]
  }

  lemma AddNone(s: Store, keys: seq<string>, amount: int, expires: int)
    ensures AddToCounters(s, keys[..0], amount, expires) == s
  {
    assert SponsorKeys(keys[..0]) == {};
  }

  lemma AddOne(s: Store, keys: seq<string>, i: nat, amount: int, expires: int)
    requires Distinct(keys) && i < |keys|
    ensures var part := AddToCounters(s, keys[..i], amount, expires);
            var k := Sponsor(keys[i]);
            AddToCounters(s, keys[..i + 1], amount, expires) == Raised(part, k, amount, expires)
  {
    PrefixKeys(keys, i);
  }

  lemma SubtractNone(s: Store, keys: seq<string>, amount: int)
    ensures SubtractFromCounters(s, keys[..0], amount) == s
  {
    assert SponsorKeys(keys[..0]) == {};
  }

  lemma SubtractOne(s: Store, keys: seq<string>, i: nat, amount: int)
    requires Distinct(keys) && i < |keys| && Sponsor(keys[i]) in s
    ensures var part := SubtractFromCounters(s, keys[..i], amount);
            var k := Sponsor(keys[i]);
            && k in part && part[k] == s[k]
            && SubtractFromCounters(s, keys[..i + 1], amount)
               == if Number(s, k) == amount then part - {k}
                  else part[k := Entry(Count(Number(s, k) - amount), s[k].expires)]
  {
    PrefixKeys(keys, i);
  }
}
