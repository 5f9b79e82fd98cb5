/** Claim quotes: batching the closable accounts and allocating one proportional fee over the batches. */
module ClaimAllocation {
  import opened Numbers
  import opened TextOrder
  import opened Wrappers

  datatype Account = Account(address: string, recoverableLamports: nat)

  datatype ClaimError =
    | NothingToClaim       // TOKEN_UNSUPPORTED claim_quote
    | PolicyInvalid        // CONFIGURATION_ERROR claim_configuration
    | BatchMaximumInvalid  // claim batch maximum must be positive
    | FeePolicyInvalid     // CONFIGURATION_ERROR claim_economics
    | PayoutTooSmall       // TOKEN_UNSUPPORTED claim_economics

  // ---------------------------------------------------------------- batches

  /** A stable sort by address, as the runtime's `sort` is. */
  function Sorted(accounts: seq<Account>): (r: seq<Account>)
    ensures |r| == |accounts|
  {
    if accounts == [] then [] else Insert(accounts[0], Sorted(accounts[1..]))
  }

  function Insert(x: Account, s: seq<Account>): (r: seq<Account>)
    ensures |r| == |s| + 1
  {
    if s == [] || !Before(s[0].address, x.address) then [x] + s else [s[0]] + Insert(x, s[1..])
  }

  ghost predicate InOrder(s: seq<Account>) {
    forall i, j | 0 <= i < j < |s| :: !Before(s[j].address, s[i].address)
  }

  /** The accounts at one address, in their order. */
  function At(s: seq<Account>, address: string): seq<Account> {
    if s == [] then [] else (if s[0].address == address then [s[0]] else []) + At(s[1..], address)
  }

  lemma {:induction false} InsertPermutes(x: Account, s: seq<Account>)
    ensures multiset(Insert(x, s)) == multiset{x} + multiset(s)
  {
    if s != [] && Before(s[0].address, x.address) {
      InsertPermutes(x, s[1..]);
      assert s == [s[0]] + s[1..];
    }
  }

  lemma {:induction false} InsertKeepsOrder(x: Account, s: seq<Account>)
    requires InOrder(s)
    ensures InOrder(Insert(x, s))
  {
    var r := Insert(x, s);
    if s == [] {
    } else if Before(s[0].address, x.address) {
      InsertKeepsOrder(x, s[1..]);
      InsertPermutes(x, s[1..]);
      BeforeTrichotomy(x.address, s[0].address);
      forall j | 0 < j < |r| ensures !Before(r[j].address, s[0].address) {
        assert r[j] == Insert(x, s[1..])[j - 1];
        assert r[j] in multiset(Insert(x, s[1..]));
        assert r[j] == x || r[j] in s[1..];
      }
    } else {
      forall j | 0 < j < |r| ensures !Before(r[j].address, x.address) {
        if j > 1 {
          BeforeTransitive(x.address, s[0].address, r[j].address);
        }
      }
    }
  }

  lemma {:induction false} InsertIsStable(x: Account, s: seq<Account>, address: string)
    ensures At(Insert(x, s), address) == At([x] + s, address)
  {
    assert ([x] + s)[1..] == s;
    if s != [] && Before(s[0].address, x.address) {
      InsertIsStable(x, s[1..], address);
      BeforeTrichotomy(x.address, s[0].address);
      assert ([x] + s[1..])[1..] == s[1..];
    }
  }

  /** The sort is an ordered permutation, and keeps the order of accounts with one address. */
  lemma {:induction false} SortedFacts(accounts: seq<Account>, address: string)
    ensures multiset(Sorted(accounts)) == multiset(accounts)
    ensures InOrder(Sorted(accounts))
    ensures At(Sorted(accounts), address) == At(accounts, address)
  {
    if accounts != [] {
      var rest := Sorted(accounts[1..]);
      SortedFacts(accounts[1..], address);
      InsertPermutes(accounts[0], rest);
      InsertKeepsOrder(accounts[0], rest);
      InsertIsStable(accounts[0], rest, address);
      assert accounts == [accounts[0]] + accounts[1..];
      assert ([accounts[0]] + rest)[1..] == rest;
    }
  }

  function BatchClaimAccounts(accounts: seq<Account>, maximum: int): Result<seq<seq<Account>>, ClaimError> {
    if maximum < 1 then Err(BatchMaximumInvalid)
    else
      var ordered := Sorted(accounts);
      Ok(seq((|ordered| + maximum - 1) / maximum, index requires index >= 0 => Batch(ordered, maximum, index)))
  }

  function Batch(ordered: seq<Account>, maximum: nat, index: nat): seq<Account>
    requires maximum > 0
  {
    Ascending(index, maximum);
    Slice(ordered, index * maximum, (index + 1) * maximum)
  }

  lemma Ascending(index: nat, maximum: nat)
    ensures 0 <= index * maximum
    ensures (index + 1) * maximum == index * maximum + maximum
  {
  }

  function Flatten<T>(s: seq<seq<T>>): seq<T> {
    if s == [] then [] else Flatten(s[..|s| - 1]) + s[|s| - 1]
  }

  /** What batching promises. */
  ghost predicate Batches(batches: seq<seq<Account>>, accounts: seq<Account>, maximum: nat) {
    && Flatten(batches) == Sorted(accounts)
    && forall i | 0 <= i < |batches| :: 1 <= |batches[i]| <= maximum && (i < |batches| - 1 ==> |batches[i]| == maximum)
  }

  lemma BatchIs(ordered: seq<Account>, maximum: nat, index: nat)
    requires maximum > 0
    ensures 0 <= Min(index * maximum, |ordered|) <= Min((index + 1) * maximum, |ordered|) <= |ordered|
    ensures Batch(ordered, maximum, index)
        == ordered[Min(index * maximum, |ordered|)..Min((index + 1) * maximum, |ordered|)]
  {
    Ascending(index, maximum);
  }

  lemma {:induction false} FlattenBatches(ordered: seq<Account>, maximum: nat, batches: seq<seq<Account>>)
    requires maximum > 0
    requires forall i | 0 <= i < |batches| :: batches[i] == Batch(ordered, maximum, i)
    ensures 0 <= |batches| * maximum
    ensures Flatten(batches) == ordered[..Min(|batches| * maximum, |ordered|)]
    decreases |batches|
  {
    if batches != [] {
      var n := |batches| - 1;
      FlattenBatches(ordered, maximum, batches[..n]);
      BatchIs(ordered, maximum, n);
      PrefixThenSlice(ordered, Min(n * maximum, |ordered|), Min(|batches| * maximum, |ordered|));
    }
  }

  lemma PrefixThenSlice(s: seq<Account>, from: nat, to: nat)
    requires from <= to <= |s|
    ensures s[..from] + s[from..to] == s[..to]
  {
  }

  lemma CountBounds(length: nat, maximum: nat, count: nat)
    requires maximum > 0 && count == (length + maximum - 1) / maximum
    ensures count * maximum - maximum < length <= count * maximum || (length == 0 && count == 0)
  {
    var m := length + maximum - 1;
    assert m == maximum * (m / maximum) + m % maximum;
    assert maximum * count == count * maximum;
    if length == 0 {
      assert count == 0 by {
        assert m < maximum;
        assert count * maximum <= m;
        assert count >= 1 ==> count * maximum >= maximum;
      }
    }
  }

  /** Batches concatenate to the sorted accounts; none is empty or too long, and only the last may be short. */
  lemma BatchingCovers(accounts: seq<Account>, maximum: int)
    ensures BatchClaimAccounts(accounts, maximum).Err? <==> maximum < 1
    ensures maximum >= 1 ==> Batches(BatchClaimAccounts(accounts, maximum).value, accounts, maximum)
  {
    if maximum >= 1 {
      var ordered := Sorted(accounts);
      var batches := BatchClaimAccounts(accounts, maximum).value;
      CountBounds(|ordered|, maximum, |batches|);
      FlattenBatches(ordered, maximum, batches);
      assert ordered[..|ordered|] == ordered;
      forall i | 0 <= i < |batches|
        ensures 1 <= |batches[i]| <= maximum && (i < |batches| - 1 ==> |batches[i]| == maximum)
      {
        BatchLength(ordered, maximum, |batches|, i);
      }
    }
  }

  lemma BatchLength(ordered: seq<Account>, maximum: nat, count: nat, i: nat)
    requires maximum > 0 && i < count && count * maximum - maximum < |ordered|
    ensures 1 <= |Batch(ordered, maximum, i)| <= maximum
    ensures i < count - 1 ==> |Batch(ordered, maximum, i)| == maximum
  {
    BatchIs(ordered, maximum, i);
    BatchSize(|ordered|, maximum, count, i);
  }

  lemma BatchSize(length: nat, maximum: nat, count: nat, i: nat)
    requires i < count && count * maximum - maximum < length
    ensures 0 <= i * maximum < length
    ensures i < count - 1 ==> (i + 1) * maximum <= length
    ensures (i + 1) * maximum == i * maximum + maximum
  {
    Ascending(i, maximum);
    assert i * maximum <= (count - 1) * maximum;
    if i < count - 1 {
      assert (i + 1) * maximum <= (count - 1) * maximum;
    }
  }

  // ---------------------------------------------------------------- fees

  /** `calculateClaimFee` on the nonnegative totals it is called with. */
  function CalculateClaimFee(gross: nat, feeBps: int): Result<int, ClaimError> {
    if !(0 <= feeBps <= 10_000) then Err(FeePolicyInvalid) else Ok(FeeOn(gross, feeBps))
  }

  function FeeOn(gross: nat, feeBps: nat): nat {
    gross * feeBps / 10_000
  }

  /** The fee is the rate on the total in hundredths of a percent, rounded down. */
  lemma ClaimFeeIsRate(gross: nat, feeBps: int, fee: int)
    ensures CalculateClaimFee(gross, feeBps) == Ok(fee) <==>
            0 <= feeBps <= 10_000 && fee * 10_000 <= gross * feeBps < fee * 10_000 + 10_000
  {
    if 0 <= feeBps <= 10_000 {
      var scaled := gross * feeBps;
      assert scaled == 10_000 * (scaled / 10_000) + scaled % 10_000;
    }
  }

  function CalculateClaimNet(gross: int, serviceFee: int, sponsoredCost: int, minimum: int): Result<int, ClaimError> {
    var net := gross - serviceFee - sponsoredCost;
    if net < minimum then Err(PayoutTooSmall) else Ok(net)
  }

  function Gross(accounts: seq<Account>): nat {
    if accounts == [] then 0 else Gross(accounts[..|accounts| - 1]) + accounts[|accounts| - 1].recoverableLamports
  }

  /** The summed lamports of a list of batches. */
  function GrossOfBatches(batches: seq<seq<Account>>): nat {
    if batches == [] then 0 else GrossOfBatches(batches[..|batches| - 1]) + Gross(batches[|batches| - 1])
  }

  datatype ClaimBatch = ClaimBatch(accounts: seq<Account>, gross: int, fee: int, sponsoredCost: int, net: int)

  function Fees(batches: seq<ClaimBatch>): int {
    if batches == [] then 0 else Fees(batches[..|batches| - 1]) + batches[|batches| - 1].fee
  }

  function Nets(batches: seq<ClaimBatch>): int {
    if batches == [] then 0 else Nets(batches[..|batches| - 1]) + batches[|batches| - 1].net
  }

  /** The fee of a batch is its own proportional share, rounded down or up. */
  ghost predicate FairShare(b: ClaimBatch, feeBps: int) {
    b.gross * feeBps - 10_000 < b.fee * 10_000 < b.gross * feeBps + 10_000
  }

  /** One batch of a quote: its own lamports, its fair share of the fee, and enough left over. */
  ghost predicate Fits(b: ClaimBatch, accounts: seq<Account>, feeBps: nat, networkFee: int, minimum: int) {
    && b.accounts == accounts
    && b.gross == Gross(accounts)
    && b.sponsoredCost == networkFee
    && b.net == b.gross - b.fee - networkFee >= minimum
    && 0 <= b.fee
    && FairShare(b, feeBps)
  }

  ghost predicate Allocated(grouped: seq<seq<Account>>, feeBps: nat, networkFee: int, minimum: int,
                            batches: seq<ClaimBatch>)
  {
    && |batches| == |grouped|
    && Fees(batches) == FeeOn(GrossOfBatches(grouped), feeBps)
    && Nets(batches) == GrossOfBatches(grouped) - Fees(batches) - |batches| * networkFee
    && forall i | 0 <= i < |batches| :: Fits(batches[i], grouped[i], feeBps, networkFee, minimum)
  }

  /** What the batch at an index would be left with. */
  function NetAt(grouped: seq<seq<Account>>, feeBps: nat, networkFee: int, i: nat): int
    requires i < |grouped|
  {
    Gross(grouped[i]) - (FeeOn(GrossOfBatches(grouped[..i + 1]), feeBps) - FeeOn(GrossOfBatches(grouped[..i]), feeBps))
        - networkFee
  }

  lemma ShareOfDifference(before: nat, gross: nat, feeBps: nat)
    ensures var fee := FeeOn(before + gross, feeBps) - FeeOn(before, feeBps);
      && gross * feeBps - 10_000 < fee * 10_000 < gross * feeBps + 10_000
      && fee >= 0
  {
    assert (before + gross) * feeBps == before * feeBps + gross * feeBps;
    assert gross * feeBps >= 0;
  }

  lemma NextFits(b: ClaimBatch, accounts: seq<Account>, before: nat, feeBps: nat, networkFee: int, minimum: int)
    requires b.accounts == accounts && b.gross == Gross(accounts) && b.sponsoredCost == networkFee
    requires b.net == b.gross - b.fee - networkFee >= minimum
    requires b.fee == FeeOn(before + Gross(accounts), feeBps) - FeeOn(before, feeBps)
    ensures Fits(b, accounts, feeBps, networkFee, minimum)
  {
    ShareOfDifference(before, Gross(accounts), feeBps);
  }

  lemma SumsExtend(batches: seq<ClaimBatch>, b: ClaimBatch, gross: int, networkFee: int)
    requires Nets(batches) == gross - Fees(batches) - |batches| * networkFee
    requires b.net == b.gross - b.fee - networkFee
    ensures Fees(batches + [b]) == Fees(batches) + b.fee
    ensures Nets(batches + [b]) == gross + b.gross - Fees(batches + [b]) - |batches + [b]| * networkFee
  {
    assert (batches + [b])[..|batches|] == batches;
    assert (|batches| + 1) * networkFee == |batches| * networkFee + networkFee;
  }

  lemma AllocatedExtends(grouped: seq<seq<Account>>, feeBps: nat, networkFee: int, minimum: int,
                         batches: seq<ClaimBatch>, i: nat, b: ClaimBatch, taken: int)
    requires i < |grouped| && Allocated(grouped[..i], feeBps, networkFee, minimum, batches)
    requires Fits(b, grouped[i], feeBps, networkFee, minimum)
    requires b.fee == taken - FeeOn(GrossOfBatches(grouped[..i]), feeBps)
    requires taken == FeeOn(GrossOfBatches(grouped[..i + 1]), feeBps)
    ensures Allocated(grouped[..i + 1], feeBps, networkFee, minimum, batches + [b])
  {
    assert grouped[..i + 1][..i] == grouped[..i];
    SumsExtend(batches, b, GrossOfBatches(grouped[..i]), networkFee);
  }

  /**
    The loop of `createQuote`: fees are differences of the fee on the running total, so they add up to the fee
    on everything while each stays within one lamport of its own share. It fails exactly when the policy is
    invalid or some batch would be left with less than the minimum.
  */
  method AllocateFees(grouped: seq<seq<Account>>, feeBps: int, networkFee: int, minimum: int)
      returns (r: Result<seq<ClaimBatch>, ClaimError>)
    ensures !(0 <= feeBps <= 10_000) && grouped != [] ==> r == Err(FeePolicyInvalid)
    ensures 0 <= feeBps <= 10_000 ==>
      if forall i | 0 <= i < |grouped| :: NetAt(grouped, feeBps, networkFee, i) >= minimum
      then r.Ok? && Allocated(grouped, feeBps, networkFee, minimum, r.value)
      else r == Err(PayoutTooSmall)
  {
    var batches: seq<ClaimBatch> := [];
    var cumulativeGross: nat, allocatedFee := 0, 0;
    var i := 0;
    while i < |grouped|
      invariant 0 <= i <= |grouped| && |batches| == i
      invariant i > 0 ==> 0 <= feeBps <= 10_000
      invariant cumulativeGross == GrossOfBatches(grouped[..i])
      invariant 0 <= feeBps <= 10_000 ==>
        && allocatedFee == FeeOn(cumulativeGross, feeBps)
        && Allocated(grouped[..i], feeBps, networkFee, minimum, batches)
        && forall k | 0 <= k < i :: NetAt(grouped, feeBps, networkFee, k) >= minimum
    {
      assert grouped[..i + 1][..i] == grouped[..i];
      var batchGross := Gross(grouped[i]);
      cumulativeGross := cumulativeGross + batchGross;
      var cumulativeFee := CalculateClaimFee(cumulativeGross, feeBps);
      if cumulativeFee.Err? {
        return Err(cumulativeFee.error);
      }
      var batchFee := cumulativeFee.value - allocatedFee;
      allocatedFee := cumulativeFee.value;
      var batchNet := CalculateClaimNet(batchGross, batchFee, networkFee, minimum);
      assert NetAt(grouped, feeBps, networkFee, i) == batchGross - batchFee - networkFee;
      if batchNet.Err? {
        return Err(batchNet.error);
      }
      var b := ClaimBatch(grouped[i], batchGross, batchFee, networkFee, batchNet.value);
      NextFits(b, grouped[i], GrossOfBatches(grouped[..i]), feeBps, networkFee, minimum);
      AllocatedExtends(grouped, feeBps, networkFee, minimum, batches, i, b, allocatedFee);
      batches := batches + [b];
      i := i + 1;
    }
    assert grouped[..i] == grouped;
    return Ok(batches);
  }

  // ---------------------------------------------------------------- the quote

  datatype ClaimPolicy = ClaimPolicy(feeDestination: string, feeBps: int, maximumAccountsPerBatch: int,
                                     maximumNetworkFee: int, minimumPayout: int)
  {
    /** The numeric part of `assertPolicy`, and the check that the fee does not go to the claiming wallet. */
    predicate Accepts(wallet: string) {
      && maximumAccountsPerBatch >= 1
      && maximumNetworkFee >= 1
      && minimumPayout >= 1
      && wallet != feeDestination
    }
  }

  datatype ClaimQuote = ClaimQuote(gross: int, fee: int, net: int, batches: seq<ClaimBatch>)

  lemma {:induction false} GrossConcat(a: seq<Account>, b: seq<Account>)
    ensures Gross(a + b) == Gross(a) + Gross(b)
    decreases |b|
  {
    if b == [] {
      assert a + b == a;
    } else {
      assert (a + b)[..|a + b| - 1] == a + b[..|b| - 1];
      GrossConcat(a, b[..|b| - 1]);
    }
  }

  lemma GrossOfFirst(x: Account, s: seq<Account>)
    ensures Gross([x] + s) == x.recoverableLamports + Gross(s)
  {
    GrossConcat([x], s);
    assert [x][..0] == [];
  }

  lemma {:induction false} GrossOfInsert(x: Account, s: seq<Account>)
    ensures Gross(Insert(x, s)) == x.recoverableLamports + Gross(s)
  {
    if s == [] || !Before(s[0].address, x.address) {
      GrossOfFirst(x, s);
    } else {
      GrossOfInsert(x, s[1..]);
      GrossOfFirst(s[0], Insert(x, s[1..]));
      GrossOfFirst(s[0], s[1..]);
      assert s == [s[0]] + s[1..];
    }
  }

  lemma {:induction false} GrossOfSorted(accounts: seq<Account>)
    ensures Gross(Sorted(accounts)) == Gross(accounts)
  {
    if accounts != [] {
      GrossOfSorted(accounts[1..]);
      GrossOfInsert(accounts[0], Sorted(accounts[1..]));
      GrossOfFirst(accounts[0], accounts[1..]);
      assert accounts == [accounts[0]] + accounts[1..];
    }
  }

  lemma {:induction false} GrossFlattened(batches: seq<seq<Account>>)
    ensures GrossOfBatches(batches) == Gross(Flatten(batches))
    decreases |batches|
  {
    if batches != [] {
      GrossFlattened(batches[..|batches| - 1]);
      GrossConcat(Flatten(batches[..|batches| - 1]), batches[|batches| - 1]);
    }
  }

  /** Batching loses and adds no lamport. */
  lemma BatchedGross(accounts: seq<Account>, maximum: nat)
    requires maximum >= 1
    ensures GrossOfBatches(BatchClaimAccounts(accounts, maximum).value) == Gross(accounts)
  {
    BatchingCovers(accounts, maximum);
    GrossFlattened(BatchClaimAccounts(accounts, maximum).value);
    GrossOfSorted(accounts);
  }

  /**
    The economics of a Claim quote. The selection is cut to one batch before it is grouped, so a quote has one
    batch, whose fee is the fee on everything selected.
  */
  method CreateQuote(wallet: string, eligible: seq<Account>, policy: ClaimPolicy)
    returns (r: Result<ClaimQuote, ClaimError>)
    ensures eligible == [] ==> r == Err(NothingToClaim)
    ensures eligible != [] ==>
      (r == Err(PolicyInvalid) <==>
        policy.maximumAccountsPerBatch < 1 || policy.maximumNetworkFee < 1 || policy.minimumPayout < 1
        || wallet == policy.feeDestination)
    ensures r.Ok? ==>
      && policy.maximumAccountsPerBatch >= 1 &&
      var selected := Slice(eligible, 0, policy.maximumAccountsPerBatch);
      && 0 <= policy.feeBps <= 10_000
      && |r.value.batches| == 1
      && r.value.batches[0].accounts == Sorted(selected)
      && r.value.gross == Gross(selected)
      && r.value.fee * 10_000 <= r.value.gross * policy.feeBps < r.value.fee * 10_000 + 10_000
      && r.value.fee == FeeOn(r.value.gross, policy.feeBps) == r.value.batches[0].fee
      && r.value.net == r.value.gross - r.value.fee - policy.maximumNetworkFee >= policy.minimumPayout
    ensures eligible != [] && policy.Accepts(wallet) && 0 <= policy.feeBps <= 10_000 ==>
      var gross := Gross(Slice(eligible, 0, policy.maximumAccountsPerBatch));
      r.Err? <==> gross - FeeOn(gross, policy.feeBps) - policy.maximumNetworkFee < policy.minimumPayout
  {
    if eligible == [] {
      return Err(NothingToClaim);
    }
    if !policy.Accepts(wallet) {
      return Err(PolicyInvalid);
    }
    var selected := Slice(eligible, 0, policy.maximumAccountsPerBatch);
    var grouped := BatchClaimAccounts(selected, policy.maximumAccountsPerBatch).value;
    OneBatch(selected, policy.maximumAccountsPerBatch);
    var gross := Gross(selected);
    var totalFee := CalculateClaimFee(gross, policy.feeBps);
    if totalFee.Err? {
      return Err(totalFee.error);
    }
    var batches := AllocateFees(grouped, policy.feeBps, policy.maximumNetworkFee, policy.minimumPayout);
    BatchedGross(selected, policy.maximumAccountsPerBatch);
    assert grouped[..1] == grouped && grouped[..0] == [];
    assert NetAt(grouped, policy.feeBps, policy.maximumNetworkFee, 0)
        == gross - totalFee.value - policy.maximumNetworkFee;
    if batches.Err? {
      return Err(batches.error);
    }
    assert batches.value[..0] == [];
    assert Fees(batches.value) == batches.value[0].fee;
    ClaimFeeIsRate(gross, policy.feeBps, totalFee.value);
    return Ok(ClaimQuote(gross, totalFee.value, Nets(batches.value), batches.value));
  }

  lemma OneBatch(selected: seq<Account>, maximum: nat)
    requires 1 <= |selected| <= maximum
    ensures BatchClaimAccounts(selected, maximum).value == [Sorted(selected)]
  {
    BatchCount(selected, maximum);
    WholeBatch(Sorted(selected), maximum);
  }

  lemma BatchCount(selected: seq<Account>, maximum: nat)
    requires 1 <= |selected| <= maximum
    ensures
      var r := BatchClaimAccounts(selected, maximum);
      r.Ok? && |r.value| == 1 && r.value[0] == Batch(Sorted(selected), maximum, 0)
  {
    OneQuotient(|selected|, maximum);
  }

  lemma WholeBatch(ordered: seq<Account>, maximum: nat)
    requires 1 <= |ordered| <= maximum
    ensures Batch(ordered, maximum, 0) == ordered
  {
  }

  lemma OneQuotient(length: nat, maximum: nat)
    requires 1 <= length <= maximum
    ensures (length + maximum - 1) / maximum == 1
  {
    CountBounds(length, maximum, (length + maximum - 1) / maximum);
    var count := (length + maximum - 1) / maximum;
    assert count >= 2 ==> count * maximum >= 2 * maximum;
  }
}
