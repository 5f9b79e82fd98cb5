/**
  The swap quote's stabilisation loop: the reimbursement is taken out of the input that is routed, the routed
  input decides the network fee, and the network fee decides the reimbursement.
*/
module SwapQuote {
  import opened Wrappers
  import opened SendEconomics

  const MAX_STABILIZATION_ATTEMPTS := 6
  const ASSUMED_NETWORK_FEE := 10_000

  datatype QuoteError =
    | ServiceFeePolicyInvalid
    | ReimbursementInvalid(error: EconomicsError)
    | InputTooSmall
    | RouteFailed
    | SponsorshipLimitExceeded
    | DidNotStabilize

  datatype SwapRequest = SwapRequest(totalInput: int, serviceFeeBps: int, ataRent: int, decimals: int,
                                     solUsdPriceMicros: int, tokenUsdPriceMicros: int, bufferBps: int,
                                     maximumSponsoredCost: int)

  datatype SwapTerms = SwapTerms(totalInput: int, routedInput: int, serviceFee: int, reimbursement: int,
                                 networkFee: int, sponsoredCost: int)

  /** What the route and fee services answer on an attempt with a routed input and reimbursement: the fee, if any. */
  type Estimate = (nat, int, int) -> Option<int>

  function CalculateSwapServiceFee(totalInput: int, feeBps: int): Result<int, QuoteError> {
    if totalInput < 0 || !(0 <= feeBps <= 10_000) then Err(ServiceFeePolicyInvalid)
    else Ok(totalInput * feeBps / 10_000)
  }

  /** The fee is the rate on the whole input in hundredths of a percent, rounded down. */
  lemma SwapFeeIsRate(totalInput: int, feeBps: int, fee: int)
    ensures CalculateSwapServiceFee(totalInput, feeBps) == Ok(fee) <==>
            && totalInput >= 0 && 0 <= feeBps <= 10_000
            && fee * 10_000 <= totalInput * feeBps < fee * 10_000 + 10_000
  {
    if totalInput >= 0 && 0 <= feeBps <= 10_000 {
      QuotientIsLast(totalInput * feeBps, 10_000, fee);
      QuotientIsLast(totalInput * feeBps, 10_000, fee + 1);
    }
  }

  function CalculateRoutedInput(totalInput: int, serviceFee: int, reimbursement: int): Result<int, QuoteError> {
    var routed := totalInput - serviceFee - reimbursement;
    if routed <= 0 then Err(InputTooSmall) else Ok(routed)
  }

  function Reimbursement(q: SwapRequest, sponsored: int): Result<int, EconomicsError> {
    CalculateSponsorReimbursement(sponsored, q.decimals, q.solUsdPriceMicros, q.tokenUsdPriceMicros, q.bufferBps)
  }

  // ---------------------------------------------------------------- what a quote promises

  /** The reimbursement for a cost at the two prices of the request. */
  ghost predicate Reimburses(q: SwapRequest, sponsored: int, reimbursement: int) {
    CalculateSponsorReimbursement(sponsored, q.decimals, q.solUsdPriceMicros, q.tokenUsdPriceMicros, q.bufferBps)
      == Ok(reimbursement)
  }

  /** A quote in balance: the parts add up and the reimbursement is the one its own final cost calls for. */
  ghost predicate Balanced(t: SwapTerms, q: SwapRequest) {
    && t.totalInput == q.totalInput == t.routedInput + t.serviceFee + t.reimbursement
    && t.routedInput > 0
    && CalculateSwapServiceFee(q.totalInput, q.serviceFeeBps) == Ok(t.serviceFee)
    && t.sponsoredCost == t.networkFee + q.ataRent <= q.maximumSponsoredCost
    && Reimburses(q, t.sponsoredCost, t.reimbursement)
  }

  /** The step from one trial reimbursement to the next, when nothing on the way fails. */
  ghost predicate Advances(q: SwapRequest, estimate: Estimate, attempt: nat, reimbursement: int, next: int) {
    && CalculateSwapServiceFee(q.totalInput, q.serviceFeeBps).Ok?
    && var serviceFee := CalculateSwapServiceFee(q.totalInput, q.serviceFeeBps).value;
    && q.totalInput - serviceFee - reimbursement > 0
    && var networkFee := estimate(attempt, q.totalInput - serviceFee - reimbursement, reimbursement);
    && networkFee.Some?
    && networkFee.value + q.ataRent <= q.maximumSponsoredCost
    && Reimburses(q, networkFee.value + q.ataRent, next)
  }

  /** Trial reimbursements from the assumed cost on, each following from the one before and differing from it. */
  ghost predicate Trials(q: SwapRequest, estimate: Estimate, r: seq<int>) {
    && r != []
    && Reimburses(q, q.ataRent + 10_000, r[0])
    && forall k | 0 <= k < |r| - 1 :: Advances(q, estimate, k, r[k], r[k + 1]) && r[k] != r[k + 1]
  }

  /** The trials reach a fixed point on one of the six attempts. */
  ghost predicate Stabilizes(q: SwapRequest, estimate: Estimate, r: seq<int>) {
    && Trials(q, estimate, r)
    && |r| <= 6
    && Advances(q, estimate, |r| - 1, r[|r| - 1], r[|r| - 1])
  }

  /** A quote succeeds exactly when the trials reach a fixed point, and then it is in balance. */
  method CreateQuote(q: SwapRequest, estimate: Estimate)
    returns (quote: Result<SwapTerms, QuoteError>, ghost trials: seq<int>)
    ensures quote.Ok? ==>
      && Balanced(quote.value, q)
      && Stabilizes(q, estimate, trials)
      && quote.value.reimbursement == trials[|trials| - 1]
      && estimate(|trials| - 1, quote.value.routedInput, quote.value.reimbursement) == Some(quote.value.networkFee)
    ensures quote.Err? ==> !exists r :: Stabilizes(q, estimate, r)
  {
    trials := [];
    var fee := CalculateSwapServiceFee(q.totalInput, q.serviceFeeBps);
    if fee.Err? {
      return Err(fee.error), trials;
    }
    var serviceFee := fee.value;
    var initial := Reimbursement(q, q.ataRent + ASSUMED_NETWORK_FEE);
    if initial.Err? {
      return Err(ReimbursementInvalid(initial.error)), trials;
    }
    var reimbursement := initial.value;
    trials := [reimbursement];
    var attempt := 0;
    while attempt < MAX_STABILIZATION_ATTEMPTS
      invariant 0 <= attempt < MAX_STABILIZATION_ATTEMPTS
      invariant |trials| == attempt + 1 && trials[attempt] == reimbursement
      invariant Trials(q, estimate, trials)
    {
      var routed := CalculateRoutedInput(q.totalInput, serviceFee, reimbursement);
      if routed.Err? {
        DeadEnd(q, estimate, trials);
        return Err(routed.error), trials;
      }
      var networkFee := estimate(attempt, routed.value, reimbursement);
      if networkFee.None? {
        DeadEnd(q, estimate, trials);
        return Err(RouteFailed), trials;
      }
      var sponsored := networkFee.value + q.ataRent;
      if sponsored > q.maximumSponsoredCost {
        DeadEnd(q, estimate, trials);
        return Err(SponsorshipLimitExceeded), trials;
      }
      var exact := Reimbursement(q, sponsored);
      if exact.Err? {
        DeadEnd(q, estimate, trials);
        return Err(ReimbursementInvalid(exact.error)), trials;
      }
      if exact.value == reimbursement {
        return Ok(SwapTerms(q.totalInput, routed.value, serviceFee, reimbursement, networkFee.value, sponsored)),
               trials;
      }
      reimbursement := exact.value;
      if attempt == MAX_STABILIZATION_ATTEMPTS - 1 {
        DeadEnd(q, estimate, trials);
        return Err(DidNotStabilize), trials;
      }
      trials := trials + [reimbursement];
      attempt := attempt + 1;
    }
    assert false;
  }

  /** The trials are determined by the request and the answers: no run stops before another one advances. */
  lemma {:induction false} Determined(q: SwapRequest, estimate: Estimate, trials: seq<int>, r: seq<int>)
    requires Trials(q, estimate, trials) && Stabilizes(q, estimate, r)
    ensures |trials| <= |r| && r[..|trials|] == trials
    decreases |trials|
  {
    var n := |trials|;
    if n == 1 {
      assert r[..1] == trials;
    } else {
      assert Trials(q, estimate, trials[..n - 1]);
      Determined(q, estimate, trials[..n - 1], r);
      assert trials[..n - 1][n - 2] == trials[n - 2] == r[..n - 1][n - 2] == r[n - 2];
      assert Advances(q, estimate, n - 2, trials[n - 2], trials[n - 1]);
      assert r[..n] == r[..n - 1] + [r[n - 1]];
      assert trials == trials[..n - 1] + [trials[n - 1]];
    }
  }

  /** From this trial the loop only fails: no next one, or one that differs on the last attempt. */
  ghost predicate Stuck(q: SwapRequest, estimate: Estimate, attempt: nat, reimbursement: int) {
    forall next | Advances(q, estimate, attempt, reimbursement, next) ::
      next != reimbursement && attempt == MAX_STABILIZATION_ATTEMPTS - 1
  }

  /** Where some run reaches a fixed point, every other run can go on. */
  lemma NotStuck(q: SwapRequest, estimate: Estimate, trials: seq<int>, r: seq<int>)
    requires Trials(q, estimate, trials) && Stabilizes(q, estimate, r)
    ensures !Stuck(q, estimate, |trials| - 1, trials[|trials| - 1])
  {
    Determined(q, estimate, trials, r);
    var n := |trials|;
    assert trials[n - 1] == r[..n][n - 1] == r[n - 1];
    if |r| > n {
      assert Advances(q, estimate, n - 1, r[n - 1], r[n]);
    }
  }

  lemma DeadEnd(q: SwapRequest, estimate: Estimate, trials: seq<int>)
    requires Trials(q, estimate, trials)
    requires Stuck(q, estimate, |trials| - 1, trials[|trials| - 1])
    ensures !exists r :: Stabilizes(q, estimate, r)
  {
    forall r | Stabilizes(q, estimate, r) ensures false {
      NotStuck(q, estimate, trials, r);
    }
  }

  /** The services answer one fee whatever the attempt and the amount, and no step of the loop fails. */
  ghost predicate SteadyRoute(q: SwapRequest, estimate: Estimate, networkFee: int) {
    && (forall k: nat, routed, r :: estimate(k, routed, r) == Some(networkFee))
    && networkFee + q.ataRent <= q.maximumSponsoredCost
    && CalculateSwapServiceFee(q.totalInput, q.serviceFeeBps).Ok?
    && Reimbursement(q, networkFee + q.ataRent).Ok?
    && Reimbursement(q, q.ataRent + ASSUMED_NETWORK_FEE).Ok?
    && var fee := CalculateSwapServiceFee(q.totalInput, q.serviceFeeBps).value;
    && fee + Reimbursement(q, networkFee + q.ataRent).value < q.totalInput
    && fee + Reimbursement(q, q.ataRent + ASSUMED_NETWORK_FEE).value < q.totalInput
  }

  /** With a fee that does not move, the second attempt at the latest is the fixed point. */
  lemma SteadyRouteStabilizes(q: SwapRequest, estimate: Estimate, networkFee: int)
    requires SteadyRoute(q, estimate, networkFee)
    ensures exists r :: Stabilizes(q, estimate, r) && |r| <= 2
  {
    var first := Reimbursement(q, q.ataRent + ASSUMED_NETWORK_FEE).value;
    var exact := Reimbursement(q, networkFee + q.ataRent).value;
    assert Advances(q, estimate, 0, first, exact);
    assert Advances(q, estimate, 1, exact, exact);
    if first == exact {
      assert Stabilizes(q, estimate, [first]);
    } else {
      var r := [first, exact];
      assert Trials(q, estimate, r);
      assert Stabilizes(q, estimate, r);
    }
  }
}
