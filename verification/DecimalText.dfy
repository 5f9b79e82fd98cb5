/**
  The decimal texts every parser of the repository accepts: the pattern `^(?:0|[1-9]\d*)(?:\.\d+)?$`,
  its two parts, and the number such a text denotes.
*/
module DecimalText {
  import opened Decimal

  /** `text.indexOf(c)`. */
  function IndexOf(text: string, c: char): (i: int)
    ensures -1 <= i < |text|
    ensures i < 0 ==> c !in text
    ensures i >= 0 ==> text[i] == c && c !in text[..i]
  {
    if text == [] then -1
    else if text[0] == c then 0
    else
      var rest := IndexOf(text[1..], c);
      if rest < 0 then -1 else
        assert text[..rest + 1] == [text[0]] + text[1..][..rest];
        rest + 1
  }

  function Whole(text: string): string {
    var dot := IndexOf(text, '.');
    if dot < 0 then text else text[..dot]
  }

  /** The second part of `text.split('.')`, empty when there is none. */
  function Fraction(text: string): string {
    var dot := IndexOf(text, '.');
    if dot < 0 then [] else text[dot + 1..]
  }

  predicate IsDecimal(text: string) {
    && Canonical(Whole(text))
    && AllDigits(Fraction(text))
    && ('.' in text ==> Fraction(text) != [])
  }

  /** The text with the given parts. */
  function Join(whole: string, fraction: string): string {
    if fraction == [] then whole else whole + ['.'] + fraction
  }

  lemma SplitOfJoin(whole: string, fraction: string)
    requires AllDigits(whole) && AllDigits(fraction)
    ensures Whole(Join(whole, fraction)) == whole && Fraction(Join(whole, fraction)) == fraction
    ensures Canonical(whole) ==> IsDecimal(Join(whole, fraction))
  {
    assert '.' !in whole && '.' !in fraction;
    if fraction != [] {
      var text := whole + ['.'] + fraction;
      assert text[|whole|] == '.';
      var dot := IndexOf(text, '.');
      assert forall k | 0 <= k < |whole| :: text[k] == whole[k];
      assert forall k | 0 <= k < dot :: text[k] == text[..dot][k];
      assert dot == |whole|;
    }
  }

  /** The texts of the pattern: zero or a number without leading zero, then perhaps a point and at least one digit. */
  lemma DecimalExactly(text: string)
    ensures IsDecimal(text) <==>
            exists whole: string, fraction: string ::
              && whole != [] && AllDigits(whole) && (whole[0] == '0' ==> |whole| == 1)
              && AllDigits(fraction) && text == Join(whole, fraction)
  {
    if IsDecimal(text) {
      assert text == Join(Whole(text), Fraction(text));
    }
    forall whole: string, fraction: string
      | && whole != [] && AllDigits(whole) && (whole[0] == '0' ==> |whole| == 1)
        && AllDigits(fraction) && text == Join(whole, fraction)
      ensures IsDecimal(text)
    {
      SplitOfJoin(whole, fraction);
    }
  }

  /** All the digits read as one number: the denoted number times ten to the length of the fraction. */
  function Scaled(text: string): nat
    requires IsDecimal(text)
  {
    Value(Whole(text)) * Pow10(|Fraction(text)|) + Value(Fraction(text))
  }

  /** The place values behind the point: tenths, hundredths and so on. */
  ghost function PlaceValue(fraction: string): (v: real)
    requires AllDigits(fraction)
    ensures 0.0 <= v < 1.0
  {
    if fraction == [] then 0.0 else (DigitValue(fraction[0]) as real + PlaceValue(fraction[1..])) / 10.0
  }

  /** The number a decimal text denotes. */
  ghost function Number(text: string): real
    requires IsDecimal(text)
  {
    Value(Whole(text)) as real + PlaceValue(Fraction(text))
  }

  lemma {:induction false} PlaceValueZero(fraction: string)
    requires AllDigits(fraction)
    ensures PlaceValue(fraction) == 0.0 <==> fraction == Zeros(|fraction|)
  {
    if fraction == [] {
      assert fraction == Zeros(0);
    } else {
      PlaceValueZero(fraction[1..]);
      assert fraction == [fraction[0]] + fraction[1..];
      assert DigitValue(fraction[0]) == 0 <==> fraction[0] == '0';
      assert fraction == Zeros(|fraction|) <==> fraction[0] == '0' && fraction[1..] == Zeros(|fraction| - 1) by {
        assert Zeros(|fraction|) == ['0'] + Zeros(|fraction| - 1);
      }
    }
  }

  lemma {:induction false} PlaceValuePadded(fraction: string, n: nat)
    requires AllDigits(fraction)
    ensures PlaceValue(fraction + Zeros(n)) == PlaceValue(fraction)
  {
    if fraction == [] {
      assert fraction + Zeros(n) == Zeros(n);
      PlaceValueZero(Zeros(n));
    } else {
      assert (fraction + Zeros(n))[1..] == fraction[1..] + Zeros(n);
      PlaceValuePadded(fraction[1..], n);
    }
  }

  ghost predicate Times(x: real, scale: nat, n: nat) {
    x * scale as real == n as real
  }

  /** The digits read as one number are the denoted number times ten to the length of the fraction. */
  lemma ScaledIsNumber(text: string)
    requires IsDecimal(text)
    ensures Times(Number(text), Pow10(|Fraction(text)|), Scaled(text))
  {
    PlaceValueScaled(Fraction(text));
    AddWhole(Value(Whole(text)), PlaceValue(Fraction(text)), Pow10(|Fraction(text)|), Value(Fraction(text)));
  }

  lemma {:induction false} PlaceValueScaled(fraction: string)
    requires AllDigits(fraction)
    ensures Times(PlaceValue(fraction), Pow10(|fraction|), Value(fraction))
  {
    if fraction != [] {
      var rest := fraction[1..];
      PlaceValueScaled(rest);
      FirstDigit(fraction);
      Tenfold(DigitValue(fraction[0]), PlaceValue(rest), Pow10(|rest|), Value(rest));
    }
  }

  lemma FirstDigit(s: string)
    requires AllDigits(s) && s != []
    ensures Value(s) == DigitValue(s[0]) * Pow10(|s| - 1) + Value(s[1..])
  {
    assert s == [s[0]] + s[1..];
    ValueOfConcat([s[0]], s[1..]);
    OneDigit(s[0]);
  }

  lemma OneDigit(c: char)
    requires IsDigit(c)
    ensures Value([c]) == DigitValue(c)
  {
    assert [c][..0] == [];
  }

  lemma AddWhole(whole: nat, x: real, scale: nat, n: nat)
    requires Times(x, scale, n)
    ensures Times(whole as real + x, scale, whole * scale + n)
  {
    assert (whole * scale) as real == whole as real * scale as real;
  }

  lemma Tenfold(digit: nat, x: real, scale: nat, n: nat)
    requires Times(x, scale, n)
    ensures Times((digit as real + x) / 10.0, 10 * scale, digit * scale + n)
  {
    AddWhole(digit, x, scale, n);
    assert (10 * scale) as real == 10.0 * scale as real;
  }
}
