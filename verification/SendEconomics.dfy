/**
  Send economics: the capped percentage fee, the sponsor reimbursement with its nested ceilings, and the
  binary search for the greatest amount a balance can send.
*/
module SendEconomics {
  import opened Wrappers
  import opened Decimal

  const BPS_DENOMINATOR := 10_000
  const LAMPORTS_PER_SOL := 1_000_000_000
  const SEND_COMPUTE_UNIT_LIMIT := 200_000
  const SEND_COMPUTE_UNIT_PRICE_MICROLAMPORTS := 375_000

  datatype EconomicsError =
    | PolicyInvalid          // CONFIGURATION_ERROR send_economics
    | NegativeDecimals       // the RangeError of raising ten to a negative power
    | BalanceBelowCost       // TOKEN_UNSUPPORTED send_balance
    | BalanceTooSmall        // TOKEN_UNSUPPORTED send_balance, nothing positive fits
    | FeeUnavailable         // RPC_ERROR send_fee
    | FeeIncomplete          // RPC_ERROR send_fee, below the priority fee
    | SponsorshipLimit       // RELAYER_POLICY_REJECTED send_sponsor_cost
    | FeeChanged             // RPC_ERROR send_fee, after the exact build

  /** Rounds a quotient of nonnegative numbers up. */
  function CeilDiv(value: nat, divisor: nat): (q: int)
    requires divisor > 0
    ensures q >= 0
  {
    if value == 0 then 0 else (value + divisor - 1) / divisor
  }

  lemma CeilDivBounds(value: nat, divisor: nat)
    requires divisor > 0
    ensures CeilDiv(value, divisor) * divisor - divisor < value <= CeilDiv(value, divisor) * divisor
  {
    QuotientBounds(value + divisor - 1, divisor);
  }

  lemma QuotientBounds(value: nat, divisor: nat)
    requires divisor > 0
    ensures value / divisor * divisor <= value < value / divisor * divisor + divisor
  {
    assert value == divisor * (value / divisor) + value % divisor;
    assert divisor * (value / divisor) == value / divisor * divisor;
  }

  // ---------------------------------------------------------------- the service fee

  datatype FeePolicy = FeePolicy(decimals: int, tokenUsdPriceMicros: int, feeBps: int, capUsdMicros: int) {
    predicate Valid() {
      && 0 <= decimals <= 18
      && 0 <= feeBps <= 10_000
      && tokenUsdPriceMicros > 0
      && capUsdMicros >= 0
    }

    /** The fee on an amount once the guards have passed. */
    function FeeOn(amount: nat): (fee: int)
      requires Valid()
      ensures fee >= 0
    {
      var percentageFee := Percentage(amount);
      var capRaw := CapRaw();
      if percentageFee < capRaw then percentageFee else capRaw
    }

    function Percentage(amount: nat): nat
      requires Valid()
    {
      amount * feeBps / BPS_DENOMINATOR
    }

    function CapRaw(): nat
      requires Valid()
    {
      capUsdMicros * Pow10(decimals) / tokenUsdPriceMicros
    }
  }

  function CalculateSendServiceFee(amount: int, policy: FeePolicy): Result<int, EconomicsError> {
    if amount < 0 || !policy.Valid() then Err(PolicyInvalid) else Ok(policy.FeeOn(amount))
  }

  /** Raw units within the rate on an amount, in hundredths of a percent, and within the dollar cap. */
  predicate WithinFeePolicy(fee: int, amount: int, policy: FeePolicy)
    requires policy.decimals >= 0
  {
    && fee * 10_000 <= amount * policy.feeBps
    && fee * policy.tokenUsdPriceMicros <= policy.capUsdMicros * Pow10(policy.decimals)
  }

  /** A quotient is the last whole number whose product with the divisor stays within the dividend. */
  lemma QuotientIsLast(value: nat, divisor: nat, n: int)
    requires divisor > 0
    ensures n * divisor <= value <==> n <= value / divisor
  {
    QuotientBounds(value, divisor);
    var q := value / divisor;
    if n <= q {
      assert n * divisor <= q * divisor;
    } else {
      assert (q + 1) * divisor <= n * divisor;
    }
  }

  /**
    The fee is the greatest number of raw units that neither exceeds the rate on the amount nor is worth more
    than the dollar cap; it is refused exactly for a negative amount or a policy out of bounds.
  */
  lemma FeeIsGreatest(amount: int, policy: FeePolicy, fee: int)
    ensures CalculateSendServiceFee(amount, policy) == Ok(fee) <==>
            && amount >= 0 && 0 <= policy.decimals <= 18 && 0 <= policy.feeBps <= 10_000
            && policy.tokenUsdPriceMicros > 0 && policy.capUsdMicros >= 0
            && WithinFeePolicy(fee, amount, policy) && !WithinFeePolicy(fee + 1, amount, policy)
  {
    if amount >= 0 && policy.Valid() {
      forall n: int
        ensures WithinFeePolicy(n, amount, policy) <==> n <= policy.FeeOn(amount)
      {
        QuotientIsLast(amount * policy.feeBps, 10_000, n);
        QuotientIsLast(policy.capUsdMicros * Pow10(policy.decimals), policy.tokenUsdPriceMicros, n);
      }
    }
  }

  /** One more unit sent costs at most one more unit of fee, and never less. */
  lemma FeeStep(amount: nat, policy: FeePolicy)
    requires policy.Valid()
    ensures policy.FeeOn(amount) <= policy.FeeOn(amount + 1) <= policy.FeeOn(amount) + 1
  {
    var scaled := amount * policy.feeBps;
    assert (amount + 1) * policy.feeBps == scaled + policy.feeBps;
    assert scaled / 10_000 <= (scaled + policy.feeBps) / 10_000 <= scaled / 10_000 + 1;
  }

  lemma {:induction false} FeeMonotone(less: nat, more: nat, policy: FeePolicy)
    requires policy.Valid() && less <= more
    ensures policy.FeeOn(less) <= policy.FeeOn(more)
    decreases more - less
  {
    if less < more {
      FeeStep(less, policy);
      FeeMonotone(less + 1, more, policy);
    }
  }

  // ---------------------------------------------------------------- the reimbursement

  function CalculateSponsorReimbursement(sponsoredLamports: int, decimals: int, solUsdPriceMicros: int,
                                         tokenUsdPriceMicros: int, bufferBps: int): Result<int, EconomicsError>
  {
    if sponsoredLamports < 0 || solUsdPriceMicros <= 0 || tokenUsdPriceMicros <= 0 || !(0 <= bufferBps <= 10_000) then
      Err(PolicyInvalid)
    else if decimals < 0 then
      Err(NegativeDecimals)
    else
      var raw := CeilDiv(Cost(sponsoredLamports, solUsdPriceMicros, decimals), LAMPORTS_PER_SOL * tokenUsdPriceMicros);
      Ok(CeilDiv(raw * (BPS_DENOMINATOR + bufferBps), BPS_DENOMINATOR))
  }

  /** Sponsored lamports in the unit the reimbursement divides: lamports, price micros and the token's scale. */
  function Cost(sponsoredLamports: nat, solUsdPriceMicros: nat, decimals: nat): nat {
    sponsoredLamports * solUsdPriceMicros * Pow10(decimals)
  }

  /** Scaling a half-open interval. */
  lemma ScaleInterval(low: int, value: int, high: int, factor: nat)
    requires low <= value < high && factor > 0
    ensures low * factor <= value * factor < high * factor
  {
  }

  /** Two rounded-up divisions in a row: never below the exact buffered amount, and less than three units above. */
  lemma NestedCeilings(cost: nat, divisor: nat, factor: nat, raw: nat, result: nat)
    requires divisor > 0 && 10_000 <= factor <= 20_000
    requires cost <= raw * divisor < cost + divisor
    requires raw * factor <= result * 10_000 < raw * factor + 10_000
    ensures cost * factor <= result * divisor * 10_000 < cost * factor + 30_000 * divisor
  {
    ScaleInterval(cost, raw * divisor, cost + divisor, factor);
    ScaleInterval(raw * factor, result * 10_000, raw * factor + 10_000, divisor);
    Regroup(raw, divisor, factor);
    Regroup(result, divisor, 10_000);
    assert (cost + divisor) * factor == cost * factor + factor * divisor;
    assert (raw * factor + 10_000) * divisor == raw * factor * divisor + 10_000 * divisor;
    assert factor * divisor <= 20_000 * divisor;
  }

  lemma Regroup(a: int, b: int, c: int)
    ensures a * b * c == a * c * b
  {
  }

  /**
    At the micro prices the tokens collected cover the buffered cost, and exceed it by less than three raw
    units (both sides are multiplied out, so there is no rounding in the statement).
  */
  lemma ReimbursementBounds(sponsoredLamports: int, decimals: int, sol: int, token: int, bufferBps: int, result: int)
    requires CalculateSponsorReimbursement(sponsoredLamports, decimals, sol, token, bufferBps) == Ok(result)
    ensures result >= 0
    ensures var cost := sponsoredLamports * sol * Pow10(decimals);
            && cost * (10_000 + bufferBps)
               <= result * (1_000_000_000 * token) * 10_000
               <  cost * (10_000 + bufferBps) + 30_000 * (1_000_000_000 * token)
            && cost <= result * (1_000_000_000 * token)
  {
    var cost, divisor := Cost(sponsoredLamports, sol, decimals), LAMPORTS_PER_SOL * token;
    TwoCeilings(cost, divisor, 10_000 + bufferBps);
    BufferOnlyAdds(cost, bufferBps, result * divisor);
  }

  /** The least whole number of divisors that covers the value. */
  predicate IsCeiling(n: int, value: int, divisor: int) {
    n * divisor - divisor < value <= n * divisor
  }

  lemma CeilingIs(value: nat, divisor: nat)
    requires divisor > 0
    ensures IsCeiling(CeilDiv(value, divisor), value, divisor)
  {
    CeilDivBounds(value, divisor);
  }

  lemma OneCeiling(m: int, n: int, value: int, divisor: nat)
    requires divisor > 0 && IsCeiling(m, value, divisor) && IsCeiling(n, value, divisor)
    ensures m == n
  {
    assert m > n ==> m * divisor >= (n + 1) * divisor == n * divisor + divisor;
    assert n > m ==> n * divisor >= (m + 1) * divisor == m * divisor + divisor;
  }

  /** Rounded up to whole divisors, and what that makes rounded up by a factor in ten-thousandths. */
  ghost predicate TwoRoundings(result: int, cost: int, divisor: int, factor: int) {
    exists raw :: IsCeiling(raw, cost, divisor) && IsCeiling(result, raw * factor, 10_000)
  }

  lemma TwoRoundingsExactly(result: int, cost: nat, divisor: nat, factor: nat)
    requires divisor > 0
    ensures TwoRoundings(result, cost, divisor, factor) <==> result == CeilDiv(CeilDiv(cost, divisor) * factor, 10_000)
  {
    var raw := CeilDiv(cost, divisor);
    CeilingIs(cost, divisor);
    CeilingIs(raw * factor, 10_000);
    if TwoRoundings(result, cost, divisor, factor) {
      var other :| IsCeiling(other, cost, divisor) && IsCeiling(result, other * factor, 10_000);
      OneCeiling(raw, other, cost, divisor);
      OneCeiling(result, CeilDiv(raw * factor, 10_000), raw * factor, 10_000);
    }
  }

  /**
    A reimbursement is the cost in dollars rounded up to raw units, and that rounded up again with the buffer. It
    is refused exactly for a negative cost, buffer or number of decimals, a buffer above one or a missing price.
  */
  lemma ReimbursementExactly(sponsoredLamports: int, decimals: int, sol: int, token: int, bufferBps: int, result: int)
    ensures CalculateSponsorReimbursement(sponsoredLamports, decimals, sol, token, bufferBps) == Ok(result) <==>
            && sponsoredLamports >= 0 && decimals >= 0 && sol > 0 && token > 0 && 0 <= bufferBps <= 10_000
            && TwoRoundings(result, sponsoredLamports * sol * Pow10(decimals), 1_000_000_000 * token,
                            10_000 + bufferBps)
  {
    if sponsoredLamports >= 0 && decimals >= 0 && sol > 0 && token > 0 && 0 <= bufferBps <= 10_000 {
      TwoRoundingsExactly(result, Cost(sponsoredLamports, sol, decimals), 1_000_000_000 * token, 10_000 + bufferBps);
    }
  }

  lemma TwoCeilings(cost: nat, divisor: nat, factor: nat)
    requires divisor > 0 && 10_000 <= factor <= 20_000
    ensures var result := CeilDiv(CeilDiv(cost, divisor) * factor, 10_000);
      result >= 0 && cost * factor <= result * divisor * 10_000 < cost * factor + 30_000 * divisor
  {
    var raw := CeilDiv(cost, divisor);
    CeilDivBounds(cost, divisor);
    CeilDivBounds(raw * factor, 10_000);
    NestedCeilings(cost, divisor, factor, raw, CeilDiv(raw * factor, 10_000));
  }

  lemma BufferOnlyAdds(cost: nat, bufferBps: nat, collected: int)
    requires cost * (10_000 + bufferBps) <= collected * 10_000
    ensures cost <= collected
  {
    assert cost * (10_000 + bufferBps) == cost * 10_000 + cost * bufferBps;
  }

  // ---------------------------------------------------------------- the greatest sendable amount

  function Debit(amount: nat, reimbursement: int, policy: FeePolicy): int
    requires policy.Valid()
  {
    amount + reimbursement + policy.FeeOn(amount)
  }

  /** Some positive amount can be sent from the balance. */
  ghost predicate SomethingFits(balance: int, reimbursement: int, policy: FeePolicy)
    requires policy.Valid()
  {
    exists amount: nat :: amount > 0 && Debit(amount, reimbursement, policy) <= balance
  }

  ghost predicate IsGreatest(amount: int, balance: int, reimbursement: int, policy: FeePolicy)
    requires policy.Valid()
  {
    && amount > 0
    && Debit(amount, reimbursement, policy) <= balance
    && forall more: nat :: more > amount ==> Debit(more, reimbursement, policy) > balance
  }

  lemma DebitMonotone(less: nat, more: nat, reimbursement: int, policy: FeePolicy)
    requires policy.Valid() && less < more
    ensures Debit(less, reimbursement, policy) < Debit(more, reimbursement, policy)
  {
    FeeMonotone(less, more, policy);
  }

  method CalculateSendMax(balance: int, reimbursement: int, policy: FeePolicy)
      returns (r: Result<int, EconomicsError>)
    ensures balance <= reimbursement ==> r == Err(BalanceBelowCost)
    ensures balance > reimbursement && !policy.Valid() ==> r == Err(PolicyInvalid)
    ensures balance > reimbursement && policy.Valid() ==>
      if SomethingFits(balance, reimbursement, policy)
      then r.Ok? && IsGreatest(r.value, balance, reimbursement, policy)
      else r == Err(BalanceTooSmall)
  {
    if balance <= reimbursement {
      return Err(BalanceBelowCost);
    }
    var low, high: int := 0, balance - reimbursement;
    while low < high
      invariant 0 <= low <= high
      invariant !policy.Valid() ==> low < high
      invariant policy.Valid() ==> Debit(low, reimbursement, policy) <= balance
      invariant policy.Valid() ==>
        forall more: nat :: more > high ==> Debit(more, reimbursement, policy) > balance
      decreases high - low
    {
      var middle := (low + high + 1) / 2;
      var fee := CalculateSendServiceFee(middle, policy);
      if fee.Err? {
        return Err(fee.error);
      }
      if middle + reimbursement + fee.value <= balance {
        low := middle;
      } else {
        forall more: nat | more > middle - 1 ensures Debit(more, reimbursement, policy) > balance {
          if more > middle {
            DebitMonotone(middle, more, reimbursement, policy);
          }
        }
        high := middle - 1;
      }
    }
    if low <= 0 {
      return Err(BalanceTooSmall);
    }
    return Ok(low);
  }

  /** The greatest amount leaves at most one raw unit unspent, for every fee rate and every cap. */
  lemma DustAtMostOne(amount: int, balance: int, reimbursement: int, policy: FeePolicy)
    requires policy.Valid() && IsGreatest(amount, balance, reimbursement, policy)
    ensures balance - 1 <= Debit(amount, reimbursement, policy) <= balance
  {
    FeeStep(amount, policy);
    assert Debit(amount + 1, reimbursement, policy) > balance;
  }

  /** A balance two units above the reimbursement can always send something. */
  lemma TwoSpareUnitsSuffice(balance: int, reimbursement: int, policy: FeePolicy)
    requires policy.Valid() && balance >= reimbursement + 2
    ensures SomethingFits(balance, reimbursement, policy)
  {
    FeeStep(0, policy);
    assert policy.FeeOn(0) == 0;
    assert Debit(1, reimbursement, policy) <= balance;
  }

  // ---------------------------------------------------------------- the prepared economics

  datatype SendRequest = SendRequest(balance: int, max: bool, recipientAmount: int)
  datatype SendRates = SendRates(fee: FeePolicy, solUsdPriceMicros: int, bufferBps: int, maximumSponsoredCost: int)
  datatype SendTerms = SendTerms(recipientAmount: int, reimbursement: int, serviceFee: int, total: int, sponsored: int)

  /** 200,000 units at 375,000 micro-lamports each: 75,000 lamports. */
  function SendPriorityFeeLamports(): (fee: int)
    ensures fee == 75_000
  {
    CeilDiv(SEND_COMPUTE_UNIT_LIMIT * SEND_COMPUTE_UNIT_PRICE_MICROLAMPORTS, 1_000_000)
  }

  /** What a caller may rely on: the cost is within the limit, the parts add up, and the balance covers them. */
  ghost predicate TermsHonour(t: SendTerms, request: SendRequest, rates: SendRates, networkFee: int, ataRent: int) {
    && rates.fee.Valid()
    && t.sponsored == networkFee + ataRent && 0 <= t.sponsored <= rates.maximumSponsoredCost
    && CalculateSponsorReimbursement(t.sponsored, rates.fee.decimals, rates.solUsdPriceMicros,
                                     rates.fee.tokenUsdPriceMicros, rates.bufferBps) == Ok(t.reimbursement)
    && t.recipientAmount > 0
    && t.serviceFee == rates.fee.FeeOn(t.recipientAmount)
    && t.total == t.recipientAmount + t.reimbursement + t.serviceFee <= request.balance
    && (request.max ==>
        IsGreatest(t.recipientAmount, request.balance, t.reimbursement, rates.fee) && request.balance - 1 <= t.total)
    && (!request.max ==> t.recipientAmount == request.recipientAmount)
  }

  /** The economic part of `prepareSendTransaction`; `fee` and `exactFee` are the two answers of the RPC node. */
  method PrepareSendEconomics(request: SendRequest, rates: SendRates, ataRent: int,
                              fee: Option<int>, exactFee: Option<int>)
      returns (r: Result<SendTerms, EconomicsError>)
    ensures r.Ok? ==> fee.Some? && exactFee == fee && fee.value >= 75_000
    ensures r.Ok? ==> TermsHonour(r.value, request, rates, fee.value, ataRent)
    ensures r.Err? && fee.Some? && exactFee == fee && fee.value >= 75_000 ==>
      !exists t :: TermsHonour(t, request, rates, fee.value, ataRent)
  {
    if fee.None? {
      return Err(FeeUnavailable);
    }
    if fee.value < SendPriorityFeeLamports() {
      return Err(FeeIncomplete);
    }
    var sponsored := fee.value + ataRent;
    if sponsored > rates.maximumSponsoredCost {
      return Err(SponsorshipLimit);
    }
    var reimbursement := CalculateSponsorReimbursement(sponsored, rates.fee.decimals, rates.solUsdPriceMicros,
                                                       rates.fee.tokenUsdPriceMicros, rates.bufferBps);
    if reimbursement.Err? {
      return Err(reimbursement.error);
    }
    var recipientAmount := request.recipientAmount;
    if request.max {
      var greatest := CalculateSendMax(request.balance, reimbursement.value, rates.fee);
      if greatest.Err? {
        return Err(greatest.error);
      }
      recipientAmount := greatest.value;
    }
    var serviceFee := CalculateSendServiceFee(recipientAmount, rates.fee);
    if serviceFee.Err? {
      return Err(serviceFee.error);
    }
    var total := recipientAmount + reimbursement.value + serviceFee.value;
    if recipientAmount <= 0 || total > request.balance {
      return Err(BalanceBelowCost);
    }
    if exactFee != fee {
      return Err(FeeChanged);
    }
    if request.max {
      DustAtMostOne(recipientAmount, request.balance, reimbursement.value, rates.fee);
    }
    return Ok(SendTerms(recipientAmount, reimbursement.value, serviceFee.value, total, sponsored));
  }
}
