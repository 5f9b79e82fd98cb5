/**
  The requests server/risk/operational.ts makes of the exposure ledger: three counters for
  each sponsored transaction, with the configured caps.
*/
module OperationalRisk {
  import opened Wrappers
  import opened Sequences
  import opened Ledger
  import opened ExposureRuns
  import opened ExposureExcess
  import opened Numbers
  import opened Sums

  datatype Config = Config(perTransactionCap: int, globalCap: int, walletCap: int, windowSeconds: int)

  /** Who a sponsored transaction is for. */
  datatype Subject = Subject(network: string, wallet: string, action: string)

  datatype RiskError = CostUndetermined | SponsorLimitExceeded

  function ExposureKeys(s: Subject): seq<string> {
    ["global:" + s.network, "wallet:" + s.network + ":" + s.wallet,
     "action:" + s.network + ":" + s.action + ":" + s.wallet]
  }

  function ReserveRequest(config: Config, s: Subject, transactionId: string,
                          amount: int): Result<Operation, RiskError>
  {
    if !(0 <= amount <= MAX_SAFE_INTEGER) then Err(CostUndetermined)
    else if amount > config.perTransactionCap then Err(SponsorLimitExceeded)
    else Ok(Reserve(ExposureKeys(s), amount, [config.globalCap, config.walletCap, config.walletCap],
                    config.windowSeconds, transactionId))
  }

  function ReleaseRequest(s: Subject, transactionId: string, amount: int): Operation {
    Release(ExposureKeys(s), amount, transactionId)
  }

  /** The cap behind a counter is readable from its key. */
  function CapOf(config: Config, key: string): int {
    if "global:" <= key then config.globalCap else config.walletCap
  }

  function KeysOfSubject(subjectOf: string -> Subject): KeysOf {
    id => ExposureKeys(subjectOf(id))
  }

  /**
    Every request the risk service makes keeps the ledger's discipline: distinct keys fixed by the
    transaction, one cap for each key, one window.
  */
  lemma RequestsAreDisciplined(config: Config, subjectOf: string -> Subject, transactionId: string, amount: int)
    requires config.windowSeconds > 0
    ensures Distinct(ExposureKeys(subjectOf(transactionId)))
    ensures var request := ReserveRequest(config, subjectOf(transactionId), transactionId, amount);
            request.Ok? ==>
              && KeysFixedFor(request.value, KeysOfSubject(subjectOf))
              && FixedFor(request.value, key => CapOf(config, key), config.windowSeconds)
    ensures amount >= 0 ==>
        KeysFixedFor(ReleaseRequest(subjectOf(transactionId), transactionId, amount), KeysOfSubject(subjectOf))
  {
    var keys := ExposureKeys(subjectOf(transactionId));
    assert keys[0][0] == 'g' && keys[1][0] == 'w' && keys[2][0] == 'a';
    assert "global:"[0] == 'g';
    assert "global:" <= keys[0] && !("global:" <= keys[1]) && !("global:" <= keys[2]);
    assert Distinct(keys);
  }

  /** A cost that is negative or not exact is refused as undetermined, and one above the cap for one transaction. */
  lemma RequestRefusedExactly(config: Config, s: Subject, transactionId: string, amount: int)
    ensures var request := ReserveRequest(config, s, transactionId, amount);
            && (request == Err(CostUndetermined) <==> amount < 0 || amount > 9_007_199_254_740_991)
            && (request == Err(SponsorLimitExceeded) <==>
                  0 <= amount <= 9_007_199_254_740_991 && amount > config.perTransactionCap)
  {
  }

  lemma PrefixCancels(a: string, x: string, y: string)
    ensures a + x == a + y <==> x == y
  {
    assert (a + x)[|a|..] == x && (a + y)[|a|..] == y;
  }

  lemma ColonPosition(a: string, x: string, b: string, y: string)
    ensures a + ":" + x == b + ":" + y && |a| < |b| ==> ':' in b
  {
    if a + ":" + x == b + ":" + y && |a| < |b| {
      assert b[|a|] == (b + ":" + y)[|a|] == (a + ":" + x)[|a|] == ':';
    }
  }

  /** Up to the first colon two texts agree part by part. */
  lemma PartsSeparate(a: string, x: string, b: string, y: string)
    requires ':' !in a && ':' !in b
    ensures a + ":" + x == b + ":" + y <==> a == b && x == y
  {
    ColonPosition(a, x, b, y);
    ColonPosition(b, y, a, x);
    if a + ":" + x == b + ":" + y {
      assert a == (a + ":" + x)[..|a|] && b == (b + ":" + y)[..|b|];
      assert x == (a + ":" + x)[|a| + 1..] && y == (b + ":" + y)[|b| + 1..];
    }
  }

  /**
    Whose transactions share a counter: with no colon in a network or an action, the global counter is shared by
    one network, the wallet's by one wallet on it, and the action's by one action of that wallet.
  */
  lemma CountersAreShared(s: Subject, t: Subject)
    requires ':' !in s.network && ':' !in t.network && ':' !in s.action && ':' !in t.action
    ensures var a, b := ExposureKeys(s), ExposureKeys(t);
            && |a| == |b| == 3
            && (a[0] == b[0] <==> s.network == t.network)
            && (a[1] == b[1] <==> s.network == t.network && s.wallet == t.wallet)
            && (a[2] == b[2] <==> s == t)
            && forall i, j | 0 <= i < 3 && 0 <= j < 3 && i != j :: a[i] != b[j]
  {
    var a, b := ExposureKeys(s), ExposureKeys(t);
    PrefixCancels("global:", s.network, t.network);
    WalletCounters(s, t);
    ActionCounters(s, t);
    assert a[0][0] == b[0][0] == 'g' && a[1][0] == b[1][0] == 'w' && a[2][0] == b[2][0] == 'a';
  }

  lemma WalletCounters(s: Subject, t: Subject)
    requires ':' !in s.network && ':' !in t.network
    ensures ExposureKeys(s)[1] == ExposureKeys(t)[1] <==> s.network == t.network && s.wallet == t.wallet
  {
    var x, y := s.network + ":" + s.wallet, t.network + ":" + t.wallet;
    assert ExposureKeys(s)[1] == "wallet:" + x && ExposureKeys(t)[1] == "wallet:" + y;
    PrefixCancels("wallet:", x, y);
    PartsSeparate(s.network, s.wallet, t.network, t.wallet);
  }

  lemma ActionCounters(s: Subject, t: Subject)
    requires ':' !in s.network && ':' !in t.network && ':' !in s.action && ':' !in t.action
    ensures ExposureKeys(s)[2] == ExposureKeys(t)[2] <==> s == t
  {
    var x, y := s.action + ":" + s.wallet, t.action + ":" + t.wallet;
    assert ExposureKeys(s)[2] == "action:" + (s.network + ":" + x);
    assert ExposureKeys(t)[2] == "action:" + (t.network + ":" + y);
    PrefixCancels("action:", s.network + ":" + x, t.network + ":" + y);
    PartsSeparate(s.network, x, t.network, y);
    PartsSeparate(s.action, s.wallet, t.action, t.wallet);
  }

  /** A request of the service: a reservation it admits, or a release at a recorded cost, which is never negative. */
  ghost predicate Requested(config: Config, subjectOf: string -> Subject, op: Operation) {
    || (op.Reserve? && ReserveRequest(config, subjectOf(op.id), op.id, op.amount) == Ok(op))
    || (op.Release? && op.amount >= 0 && op == ReleaseRequest(subjectOf(op.id), op.id, op.amount))
    || (!TouchesExposure(op) && WellFormed(op))
  }

  /** A run of the service's own requests, whatever locks and rate limits are used in between, keeps the discipline. */
  lemma ServiceRunsAreDisciplined(config: Config, subjectOf: string -> Subject, trace: Trace)
    requires config.windowSeconds > 0
    requires forall i | 0 <= i < |trace| :: Requested(config, subjectOf, trace[i].op)
    ensures Fixed(trace, KeysOfSubject(subjectOf), key => CapOf(config, key), config.windowSeconds)
  {
    forall i | 0 <= i < |trace|
      ensures KeysFixedFor(trace[i].op, KeysOfSubject(subjectOf))
      ensures FixedFor(trace[i].op, key => CapOf(config, key), config.windowSeconds)
    {
      var op := trace[i].op;
      if TouchesExposure(op) {
        RequestsAreDisciplined(config, subjectOf, op.id, op.amount);
      }
    }
  }

  /**
    So for every run of the service, each live counter is within its configured cap and within the reservations behind
    it.
  */
  lemma ServiceExposureBounded(config: Config, subjectOf: string -> Subject, trace: Trace, now: int, key: string)
    requires config.windowSeconds > 0 && Monotone(trace) && trace != [] && trace[|trace| - 1].now <= now
    requires forall i | 0 <= i < |trace| :: Requested(config, subjectOf, trace[i].op)
    ensures AllWellFormed(trace)
    ensures var s := Live(Final(map[], trace), now);
            Sponsor(key) in s ==>
              && 0 <= Number(s, Sponsor(key)) <= CapOf(config, key)
              && Number(s, Sponsor(key)) <= SumOf(Naming(s, KeysOfSubject(subjectOf), key, None))
  {
    ServiceRunsAreDisciplined(config, subjectOf, trace);
    ExposureBoundedOverRuns(trace, KeysOfSubject(subjectOf), key => CapOf(config, key), config.windowSeconds, now, key);
  }

  /** And while nothing expires its counters are exactly the unreleased reservations. */
  lemma ServiceExposureConserved(config: Config, subjectOf: string -> Subject, trace: Trace, horizon: int)
    requires config.windowSeconds > 0 && NoExpiry(trace, horizon)
    requires forall i | 0 <= i < |trace| :: Requested(config, subjectOf, trace[i].op)
    ensures AllWellFormed(trace) && Conserved(Final(map[], trace), KeysOfSubject(subjectOf))
  {
    ServiceRunsAreDisciplined(config, subjectOf, trace);
    ConservationOverRuns(trace, KeysOfSubject(subjectOf), horizon);
  }

  // ---------------------------------------------------------------- what the caps mean for the service

  /** The summed live reservations of the service that name a key. */
  ghost function LiveExposure(subjectOf: string -> Subject, s: Store, key: string): int {
    ExposureExcess.Exposure(s, KeysOfSubject(subjectOf), key)
  }

  /** The greatest amount the service can still be granted for a subject. */
  function Room(config: Config, s: Store, subject: Subject): int {
    var keys := ExposureKeys(subject);
    Min(Min(config.perTransactionCap, MAX_SAFE_INTEGER),
        Min(config.globalCap - Number(s, Sponsor(keys[0])),
            Min(config.walletCap - Number(s, Sponsor(keys[1])), config.walletCap - Number(s, Sponsor(keys[2])))))
  }

  /** The service is granted a reservation of this amount under a new id. */
  predicate Grants(config: Config, s: Store, now: int, subject: Subject, id: string, amount: int) {
    var request := ReserveRequest(config, subject, id, amount);
    request.Ok? && Apply(s, now, request.value).answer == Flag(true)
  }

  /** An amount is granted exactly up to the room. */
  lemma GrantsUpToRoom(config: Config, s: Store, now: int, subject: Subject, id: string, amount: int)
    requires Reservation(id) !in s
    ensures Grants(config, s, now, subject, id, amount) <==> 0 <= amount <= Room(config, s, subject)
  {
    var keys, limits := ExposureKeys(subject), [config.globalCap, config.walletCap, config.walletCap];
    assert (exists i | 0 <= i < 3 :: Number(s, Sponsor(keys[i])) + amount > limits[i]) <==>
           || Number(s, Sponsor(keys[0])) + amount > limits[0]
           || Number(s, Sponsor(keys[1])) + amount > limits[1]
           || Number(s, Sponsor(keys[2])) + amount > limits[2];
  }

  ghost predicate GrantsStayWithinCap(config: Config, subjectOf: string -> Subject, s: Store, now: int, key: string,
                                      id: string)
  {
    forall amount | Grants(config, s, now, subjectOf(id), id, amount) ::
      var op := ReserveRequest(config, subjectOf(id), id, amount).value;
      LiveExposure(subjectOf, Apply(s, now, op).store, key) <= CapOf(config, key)
  }

  /**
    The caps bound the exposure of the service's own reservations exactly while the exposure and the room that
    the counters still leave are within the cap together: then whatever is granted next leaves it within the cap.
  */
  lemma ServiceStaysWithinCapExactly(config: Config, subjectOf: string -> Subject, s: Store, now: int, key: string,
                                     id: string)
    requires config.windowSeconds > 0
    requires Reservation(id) !in Live(s, now) && key in ExposureKeys(subjectOf(id))
    requires Room(config, Live(s, now), subjectOf(id)) >= 0
    ensures var live := Live(s, now);
            GrantsStayWithinCap(config, subjectOf, live, now, key, id) <==>
            LiveExposure(subjectOf, live, key) + Room(config, live, subjectOf(id)) <= CapOf(config, key)
  {
    var live, subject, keysOf := Live(s, now), subjectOf(id), KeysOfSubject(subjectOf);
    var room := Room(config, live, subject);
    forall amount
      ensures Grants(config, live, now, subject, id, amount) <==> 0 <= amount <= room
      ensures Grants(config, live, now, subject, id, amount) ==>
          LiveExposure(subjectOf, Apply(live, now, ReserveRequest(config, subject, id, amount).value).store, key)
            == LiveExposure(subjectOf, live, key) + amount
    {
      GrantsUpToRoom(config, live, now, subject, id, amount);
      if Grants(config, live, now, subject, id, amount) {
        RequestsAreDisciplined(config, subjectOf, id, amount);
        GrantAdds(live, now, ReserveRequest(config, subject, id, amount).value, keysOf, key);
      }
    }
    assert Grants(config, live, now, subject, id, room);
  }

  /** Both caps 10, in a window of 60 seconds. */
  function TenCaps(perTransactionCap: int): Config {
    Config(perTransactionCap, 10, 10, 60)
  }

  /** A reservation with limits of 10 on the keys of the subject is what the service asks for. */
  lemma TensAreRequested(subject: Subject, perTransactionCap: int, amount: int, id: string)
    requires 0 <= amount <= perTransactionCap && amount <= 10
    ensures var keys := ExposureKeys(subject);
            ReserveRequest(TenCaps(perTransactionCap), subject, id, amount)
            == Ok(Reserve(keys, amount, Tens(keys), 60, id))
  {
    assert Tens(ExposureKeys(subject)) == [10, 10, 10];
  }

  /** Three requests of the service for one subject exceed both caps: 19 lamports are reserved at once. */
  lemma ServiceExceedsCap(subject: Subject, perTransactionCap: int, key: string)
    requires perTransactionCap >= 10 && key in ExposureKeys(subject)
    ensures var config, trace := TenCaps(perTransactionCap), ExceedingTrace(ExposureKeys(subject));
            && (forall i | 0 <= i < 3 :: Requested(config, _ => subject, trace[i].op))
            && AllWellFormed(trace)
            && (forall i | 0 <= i < 3 :: AnswerAt(map[], trace, i) == Flag(true))
            && LiveExposure(_ => subject, Final(map[], trace), key) == 19 > CapOf(config, key)
  {
    TensAreRequested(subject, perTransactionCap, 1, "a");
    TensAreRequested(subject, perTransactionCap, 9, "b");
    TensAreRequested(subject, perTransactionCap, 10, "c");
    RequestsAreDisciplined(TenCaps(perTransactionCap), _ => subject, "a", 0);
    ExposureExceedsLimit(KeysOfSubject(_ => subject), ExposureKeys(subject), key);
  }

  /** And a free transaction, whose cost is zero, can be reserved and then never released. */
  lemma ServiceStrandsZero(subject: Subject, perTransactionCap: int)
    requires perTransactionCap >= 5
    ensures var config, trace := TenCaps(perTransactionCap), StrandingTrace(ExposureKeys(subject));
            && (forall i | 0 <= i < 4 :: Requested(config, _ => subject, trace[i].op))
            && AllWellFormed(trace)
            && AnswerAt(map[], trace, 3) == CountersUnsafe
            && Reservation("a") in Final(map[], trace)
  {
    TensAreRequested(subject, perTransactionCap, 0, "a");
    TensAreRequested(subject, perTransactionCap, 5, "b");
    RequestsAreDisciplined(TenCaps(perTransactionCap), _ => subject, "a", 0);
    ZeroReservationStranded(ExposureKeys(subject));
  }
}
