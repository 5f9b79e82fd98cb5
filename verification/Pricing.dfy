/**
  Directed rounding of prices: a SOL price is rounded up to whole micro-dollars and a token price down, so
  that the reimbursement worked out from them never undercharges at the prices as quoted.
*/
module Pricing {
  import opened Wrappers
  import opened Decimal
  import opened DecimalText
  import opened Numbers
  import opened SendEconomics

  datatype PriceError = MalformedPrice | OutsideSafeRange | InvalidScaledPrice | ScaledPriceTooSmall

  /** The six digits after the point that make whole micro-dollars, padded with zeros. */
  function SixDigits(fraction: string): (s: string)
    requires AllDigits(fraction)
    ensures |s| == 6 && AllDigits(s)
  {
    (fraction + Zeros(6))[..6]
  }

  /** What is left of the fraction below a micro-dollar. */
  function BelowMicro(fraction: string): (s: string)
    requires AllDigits(fraction)
    ensures AllDigits(s)
  {
    if |fraction| <= 6 then [] else fraction[6..]
  }

  /** Removes every zero: what is left is non-empty exactly when some digit is not zero. */
  function WithoutZeros(s: string): (r: string)
    ensures r != [] <==> s != Zeros(|s|)
  {
    if s == [] then []
    else if s[0] == '0' then
      assert s[1..] == Zeros(|s| - 1) ==> s == ['0'] + Zeros(|s| - 1);
      assert s == Zeros(|s|) ==> s[1..] == Zeros(|s| - 1);
      WithoutZeros(s[1..])
    else [s[0]] + WithoutZeros(s[1..])
  }

  /** The number of whole micro-dollars next to a price: at or above it, or at or below it. */
  ghost predicate RoundsTo(price: real, roundUp: bool, micros: int) {
    if roundUp then micros as real - 1.0 < price * 1_000_000.0 <= micros as real
    else micros as real <= price * 1_000_000.0 < micros as real + 1.0
  }

  method UsdMicros(text: string, roundUp: bool) returns (r: Result<int, PriceError>)
    ensures r == Err(MalformedPrice) <==> !IsDecimal(text)
    ensures r.Ok? ==> IsDecimal(text) && RoundsTo(Number(text), roundUp, r.value) && 0 < r.value <= MAX_SAFE_INTEGER
    ensures r.Err? && IsDecimal(text) ==>
        !exists micros :: RoundsTo(Number(text), roundUp, micros) && 0 < micros <= MAX_SAFE_INTEGER
  {
    if !IsDecimal(text) {
      return Err(MalformedPrice);
    }
    var whole, fraction := Whole(text), Fraction(text);
    var micros := Value(whole) * 1_000_000 + Value(SixDigits(fraction));
    if roundUp && WithoutZeros(BelowMicro(fraction)) != [] {
      micros := micros + 1;
    }
    DigitsRound(text);
    assert RoundsTo(Number(text), roundUp, micros);
    if micros <= 0 || micros > MAX_SAFE_INTEGER {
      return Err(OutsideSafeRange);
    }
    return Ok(micros);
  }

  /** The first digit of six more, in micro-dollars. */
  lemma {:induction false} SixPlaces(s: string, rest: string)
    requires |s| == 6 && AllDigits(s) && AllDigits(rest)
    ensures PlaceValue(s + rest) * 1_000_000.0 == Value(s) as real + PlaceValue(rest)
  {
    FirstTwoPlaces(s, rest);
    TakeTwoPlaces(s, rest, 2);
    LastTwoPlaces(s, rest);
    SixAtOnce(PlaceValue(s + rest), PlaceValue(s[2..] + rest), PlaceValue(s[4..] + rest), PlaceValue(rest),
              Value(s[..2]), Value(s[..4]), Value(s));
  }

  lemma FirstTwoPlaces(s: string, rest: string)
    requires |s| == 6 && AllDigits(s) && AllDigits(rest)
    ensures PlaceValue(s + rest) * 100.0 == Value(s[..2]) as real + PlaceValue(s[2..] + rest)
  {
    TakeTwoPlaces(s, rest, 0);
    assert s[0..] + rest == s + rest && s[..0] == [];
  }

  lemma LastTwoPlaces(s: string, rest: string)
    requires |s| == 6 && AllDigits(s) && AllDigits(rest)
    ensures PlaceValue(s[4..] + rest) * 100.0 == (Value(s) - 100 * Value(s[..4])) as real + PlaceValue(rest)
  {
    TakeTwoPlaces(s, rest, 4);
    assert s[6..] + rest == rest && s[..6] == s;
  }

  lemma SixAtOnce(all: real, afterTwo: real, afterFour: real, afterSix: real, two: int, four: int, six: int)
    requires all * 100.0 == two as real + afterTwo
    requires afterTwo * 100.0 == (four - 100 * two) as real + afterFour
    requires afterFour * 100.0 == (six - 100 * four) as real + afterSix
    ensures all * 1_000_000.0 == six as real + afterSix
  {
  }

  lemma TakeTwoPlaces(s: string, rest: string, i: nat)
    requires i + 2 <= |s| && AllDigits(s) && AllDigits(rest)
    ensures PlaceValue(s[i..] + rest) * 100.0
         == (Value(s[..i + 2]) - 100 * Value(s[..i])) as real + PlaceValue(s[i + 2..] + rest)
  {
    TakePlace(s, rest, i);
    TakePlace(s, rest, i + 1);
  }

  /** One place further left, seen from both readings of the digits. */
  lemma TakePlace(s: string, rest: string, i: nat)
    requires i < |s| && AllDigits(s) && AllDigits(rest)
    ensures PlaceValue(s[i..] + rest) == (DigitValue(s[i]) as real + PlaceValue(s[i + 1..] + rest)) / 10.0
    ensures Value(s[..i + 1]) == 10 * Value(s[..i]) + DigitValue(s[i])
  {
    assert (s[i..] + rest)[1..] == s[i + 1..] + rest;
    assert s[..i + 1][..i] == s[..i];
  }

  /** Keeping six digits of the fraction leaves the place value of what is cut. */
  lemma SixDigitsKept(fraction: string)
    requires AllDigits(fraction)
    ensures PlaceValue(fraction) * 1_000_000.0 == Value(SixDigits(fraction)) as real + PlaceValue(BelowMicro(fraction))
  {
    if |fraction| <= 6 {
      assert SixDigits(fraction) == fraction + Zeros(6 - |fraction|);
      PlaceValuePadded(fraction, 6 - |fraction|);
      assert SixDigits(fraction) + [] == SixDigits(fraction);
    } else {
      assert SixDigits(fraction) == fraction[..6];
      assert fraction == fraction[..6] + fraction[6..];
    }
    SixPlaces(SixDigits(fraction), BelowMicro(fraction));
  }

  /**
    The six kept digits give the price rounded down, and one more is the price rounded up, unless only zeros were cut.
  */
  lemma DigitsRound(text: string)
    requires IsDecimal(text)
    ensures
      var micros := Value(Whole(text)) * 1_000_000 + Value(SixDigits(Fraction(text)));
      && RoundsTo(Number(text), false, micros)
      && RoundsTo(Number(text), true, if WithoutZeros(BelowMicro(Fraction(text))) != [] then micros + 1 else micros)
  {
    SixDigitsKept(Fraction(text));
    PlaceValueZero(BelowMicro(Fraction(text)));
  }

  /** `effectiveRawTokenUsdPriceMicros`, with the multiplier a real number rounded down to nanos. */
  function EffectiveRawTokenUsdPriceMicros(uiPriceMicros: int, multiplier: real): Result<int, PriceError> {
    if uiPriceMicros <= 0 || multiplier <= 0.0 then Err(InvalidScaledPrice)
    else
      var multiplierNanos := (multiplier * 1_000_000_000.0).Floor;
      var price := uiPriceMicros * multiplierNanos / 1_000_000_000;
      if price <= 0 then Err(ScaledPriceTooSmall) else Ok(price)
  }

  /** A raw-unit price is at most the quoted price times the multiplier. */
  lemma EffectiveAtMost(uiPriceMicros: int, multiplier: real, price: int)
    requires EffectiveRawTokenUsdPriceMicros(uiPriceMicros, multiplier) == Ok(price)
    ensures 0.0 < price as real <= uiPriceMicros as real * multiplier
  {
    var nanos := (multiplier * 1_000_000_000.0).Floor;
    QuotientBounds(uiPriceMicros * nanos, 1_000_000_000);
    assert price * 1_000_000_000 <= uiPriceMicros * nanos;
    RealProduct(uiPriceMicros, nanos, multiplier * 1_000_000_000.0);
    assert price as real * 1_000_000_000.0 <= (uiPriceMicros * nanos) as real;
  }

  predicate IsFloor(n: int, x: real) {
    n as real <= x < n as real + 1.0
  }

  /** A raw-unit price is two roundings down: of the multiplier to nanos, and of its product with the price. */
  lemma EffectiveExactly(uiPriceMicros: int, multiplier: real, price: int)
    ensures EffectiveRawTokenUsdPriceMicros(uiPriceMicros, multiplier) == Ok(price) <==>
            && uiPriceMicros > 0 && multiplier > 0.0 && price > 0
            && exists nanos :: IsFloor(nanos, multiplier * 1_000_000_000.0)
                && price * 1_000_000_000 <= uiPriceMicros * nanos < price * 1_000_000_000 + 1_000_000_000
  {
    var scaled := multiplier * 1_000_000_000.0;
    var nanos := scaled.Floor;
    assert IsFloor(nanos, scaled) && forall other | IsFloor(other, scaled) :: other == nanos;
    if uiPriceMicros > 0 && multiplier > 0.0 {
      QuotientIsLast(uiPriceMicros * nanos, 1_000_000_000, price);
      QuotientIsLast(uiPriceMicros * nanos, 1_000_000_000, price + 1);
    }
  }

  lemma RealProduct(a: int, b: int, c: real)
    requires a >= 0 && b as real <= c
    ensures (a * b) as real <= a as real * c
  {
    assert (a * b) as real == a as real * b as real;
  }

  /**
    So many raw units of a token are worth at least so many lamports, in dollars at the two prices. A lamport is
    10^-9 SOL and a raw unit 10^-decimals tokens; both sides are multiplied out.
  */
  ghost predicate WorthAtLeast(raw: nat, tokenPrice: real, decimals: nat, lamports: nat, solPrice: real) {
    raw as real * tokenPrice * 1_000_000_000.0 >= lamports as real * solPrice * Pow10(decimals) as real
  }

  /** The same in micro-dollars and whole numbers. */
  ghost predicate MicrosCover(raw: nat, token: nat, decimals: nat, lamports: nat, sol: nat) {
    lamports * sol * Pow10(decimals) <= raw * (1_000_000_000 * token)
  }

  /**
    The collected tokens are worth at least the sponsored lamports at the prices as quoted: with the SOL
    price rounded up, the token price rounded down twice and both divisions rounded up, no error is in the
    user's favour.
  */
  lemma ReimbursementNeverUndercharges(solPrice: real, tokenPrice: real, multiplier: real, lamports: nat, decimals: nat,
                                       bufferBps: int, sol: int, ui: int, token: int, raw: nat)
    requires RoundsTo(solPrice, true, sol) && RoundsTo(tokenPrice, false, ui)
    requires EffectiveRawTokenUsdPriceMicros(ui, multiplier) == Ok(token)
    requires CalculateSponsorReimbursement(lamports, decimals, sol, token, bufferBps) == Ok(raw)
    ensures WorthAtLeast(raw, tokenPrice * multiplier, decimals, lamports, solPrice)
  {
    EffectiveAtMost(ui, multiplier, token);
    CostCovered(lamports, decimals, sol, token, bufferBps, raw);
    Worth(raw, token, ui, multiplier, tokenPrice, lamports, sol, decimals, solPrice);
  }

  lemma CostCovered(lamports: nat, decimals: nat, sol: int, token: int, bufferBps: int, raw: nat)
    requires CalculateSponsorReimbursement(lamports, decimals, sol, token, bufferBps) == Ok(raw)
    ensures sol > 0 && token > 0
    ensures MicrosCover(raw, token, decimals, lamports, sol)
  {
    ReimbursementBounds(lamports, decimals, sol, token, bufferBps, raw);
  }

  lemma Worth(raw: nat, token: nat, ui: int, multiplier: real, tokenPrice: real,
              lamports: nat, sol: nat, decimals: nat, solPrice: real)
    requires multiplier > 0.0
    requires token as real <= ui as real * multiplier && ui as real <= tokenPrice * 1_000_000.0
    requires solPrice * 1_000_000.0 <= sol as real
    requires MicrosCover(raw, token, decimals, lamports, sol)
    ensures WorthAtLeast(raw, tokenPrice * multiplier, decimals, lamports, solPrice)
  {
    CostPart(lamports, sol, decimals, solPrice);
    TakenPart(raw, token, ui, multiplier, tokenPrice);
    Chain(lamports as real * solPrice * Pow10(decimals) as real, lamports * sol * Pow10(decimals),
          raw * (1_000_000_000 * token), raw as real * (tokenPrice * multiplier));
  }

  lemma CostPart(lamports: nat, sol: nat, decimals: nat, solPrice: real)
    requires solPrice * 1_000_000.0 <= sol as real
    ensures lamports as real * solPrice * Pow10(decimals) as real * 1_000_000.0
         <= (lamports * sol * Pow10(decimals)) as real
  {
    CostIsWorth(lamports, sol, Pow10(decimals), solPrice);
    Rescale(lamports as real * solPrice, Pow10(decimals) as real);
  }

  lemma TakenPart(raw: nat, token: nat, ui: int, multiplier: real, tokenPrice: real)
    requires multiplier > 0.0
    requires token as real <= ui as real * multiplier && ui as real <= tokenPrice * 1_000_000.0
    ensures (raw * (1_000_000_000 * token)) as real
         <= raw as real * (tokenPrice * multiplier) * 1_000_000.0 * 1_000_000_000.0
  {
    CollectedIsWorth(raw as real, token as real, ui as real, multiplier, tokenPrice);
    TripleProduct(raw, token);
  }

  /** The cost in micro-dollars is covered by the tokens taken, and these by what was collected. */
  lemma Chain(cost: real, micros: int, taken: int, collected: real)
    requires cost * 1_000_000.0 <= micros as real && micros <= taken
    requires taken as real <= collected * 1_000_000.0 * 1_000_000_000.0
    ensures collected * 1_000_000_000.0 >= cost
  {
  }

  lemma TripleProduct(raw: int, token: int)
    ensures (raw * (1_000_000_000 * token)) as real == raw as real * token as real * 1_000_000_000.0
  {
    assert (raw * token) as real == raw as real * token as real;
    assert raw * (1_000_000_000 * token) == raw * token * 1_000_000_000;
  }

  lemma CollectedIsWorth(raw: real, token: real, ui: real, multiplier: real, number: real)
    requires raw >= 0.0 && multiplier > 0.0 && token <= ui * multiplier && ui <= number * 1_000_000.0
    ensures raw * token <= raw * (number * multiplier) * 1_000_000.0
  {
    assert ui * multiplier <= number * 1_000_000.0 * multiplier;
    assert token <= number * multiplier * 1_000_000.0;
  }

  lemma CostIsWorth(lamports: nat, sol: nat, scale: nat, number: real)
    requires number * 1_000_000.0 <= sol as real
    ensures lamports as real * number * 1_000_000.0 * scale as real <= (lamports * sol * scale) as real
  {
    RealProductBelow(lamports, sol, number * 1_000_000.0);
    assert (lamports * sol * scale) as real == (lamports * sol) as real * scale as real;
  }

  lemma RealProductBelow(a: int, b: int, c: real)
    requires a >= 0 && c <= b as real
    ensures a as real * c <= (a * b) as real
  {
    assert (a * b) as real == a as real * b as real;
  }

  lemma Rescale(cost: real, scale: real)
    ensures cost * 1_000_000.0 * scale == cost * scale * 1_000_000.0
  {
  }

  /**
    Wrapped SOL is priced like SOL, rounded up, so the lemma above does not apply to it. Paid in wrapped SOL, the
    reimbursement is at least the sponsored lamports themselves, one raw unit being one lamport.
  */
  lemma WrappedSolNeverUndercharges(lamports: nat, bufferBps: int, sol: int, token: int, raw: nat)
    requires EffectiveRawTokenUsdPriceMicros(sol, 1.0) == Ok(token)
    requires CalculateSponsorReimbursement(lamports, 9, sol, token, bufferBps) == Ok(raw)
    ensures token == sol && raw >= lamports
  {
    assert (1.0 * 1_000_000_000.0).Floor == 1_000_000_000;
    assert token == sol by {
      assert sol * 1_000_000_000 / 1_000_000_000 == sol;
    }
    CostCovered(lamports, 9, sol, token, bufferBps, raw);
    Billion();
    SamePrice(raw, lamports, sol);
  }

  lemma Billion()
    ensures Pow10(9) == 1_000_000_000
  {
    assert Pow10(3) == 1_000;
    PowSum(3, 3);
    PowSum(3, 6);
  }

  lemma SamePrice(raw: nat, lamports: nat, price: nat)
    requires price > 0 && lamports * price * 1_000_000_000 <= raw * (1_000_000_000 * price)
    ensures raw >= lamports
  {
    assert raw * (1_000_000_000 * price) == raw * price * 1_000_000_000;
    assert lamports > raw ==> lamports * price >= (raw + 1) * price == raw * price + price;
  }
}
