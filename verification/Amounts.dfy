/**
  Amount texts: the three parsers (cross-chain, Swap, Send) at multiplier one, and the formatter that turns a
  raw amount back into text.
*/
module Amounts {
  import opened Wrappers
  import opened Decimal
  import opened DecimalText
  import opened Numbers

  datatype AmountError = Malformed | TooPrecise | NotPositive

  // ---------------------------------------------------------------- string operations

  function PadStart(s: string, length: int): string {
    if |s| >= length then s else Zeros(length - |s|) + s
  }

  function PadEnd(s: string, length: int): string {
    if |s| >= length then s else s + Zeros(length - |s|)
  }

  /** `s.replace(/0+$/, '')`. */
  function TrimZeros(s: string): (r: string)
    ensures AllDigits(s) ==> AllDigits(r)
  {
    if s != [] && s[|s| - 1] == '0' then TrimZeros(s[..|s| - 1]) else s
  }

  /** `s.replace('.', '')`: the first point only. */
  function WithoutPoint(s: string): string {
    var dot := IndexOf(s, '.');
    if dot < 0 then s else s[..dot] + s[dot + 1..]
  }

  // ---------------------------------------------------------------- the parsers

  function Positive(raw: nat): Result<nat, AmountError> {
    if raw <= 0 then Err(NotPositive) else Ok(raw)
  }

  /** `(fraction + '0'.repeat(decimals)).slice(0, decimals) || '0'`. */
  function PaddedFraction(fraction: string, decimals: nat): (s: string)
    requires AllDigits(fraction)
    ensures AllDigits(s)
  {
    var s := Slice(fraction + Zeros(decimals), 0, decimals);
    if s == [] then "0" else s
  }

  function ParseCrossChainAmount(text: string, decimals: nat): Result<string, AmountError> {
    if !IsDecimal(text) then Err(Malformed)
    else if |Fraction(text)| > decimals then Err(TooPrecise)
    else
      var raw := Positive(Value(Whole(text)) * Pow10(decimals) + Value(PaddedFraction(Fraction(text), decimals)));
      if raw.Err? then Err(raw.error) else Ok(Text(raw.value))
  }

  function ParseTokenAmount(text: string, decimals: int): Result<nat, AmountError> {
    if decimals < 0 || decimals > 18 || !IsDecimal(text) then Err(Malformed)
    else if |Fraction(text)| > decimals then Err(TooPrecise)
    else Positive(Value(Whole(text)) * Pow10(decimals) + Value(PaddedFraction(Fraction(text), decimals)))
  }

  function ParseSendAmount(text: string, decimals: nat): Result<nat, AmountError> {
    if !IsDecimal(text) then Err(Malformed)
    else if |Fraction(text)| > decimals then Err(TooPrecise)
    else
      DigitsOf(text, decimals);
      Positive(Value(PaddedText(text, decimals)))
  }

  /** `text.replace('.', '').padEnd(...)`: the digits of the text, filled up with zeros to the decimals. */
  function PaddedText(text: string, decimals: nat): string {
    var dot := IndexOf(text, '.');
    PadEnd(WithoutPoint(text), if dot < 0 then |text| + decimals else dot + decimals)
  }

  /** What an amount text means: the denoted number times ten to the decimals, when that is a positive integer. */
  function Meaning(text: string, decimals: nat): Result<nat, AmountError> {
    if !IsDecimal(text) then Err(Malformed)
    else if |Fraction(text)| > decimals then Err(TooPrecise)
    else
      var raw := Scaled(text) * Pow10(decimals - |Fraction(text)|);
      if raw == 0 then Err(NotPositive) else Ok(raw)
  }

  /** The whole part and the fraction filled up with zeros: the digits of the raw amount. */
  function RawDigits(text: string, decimals: nat): (s: string)
    requires IsDecimal(text) && |Fraction(text)| <= decimals
    ensures AllDigits(s) && |s| == |Whole(text)| + decimals
  {
    Whole(text) + (Fraction(text) + Zeros(decimals - |Fraction(text)|))
  }

  lemma PointRemoved(text: string)
    ensures WithoutPoint(text) == Whole(text) + Fraction(text)
    ensures |Whole(text)| == if IndexOf(text, '.') < 0 then |text| else IndexOf(text, '.')
    ensures IndexOf(text, '.') < 0 ==> Fraction(text) == []
  {
  }

  lemma DigitsOf(text: string, decimals: nat)
    requires IsDecimal(text) && |Fraction(text)| <= decimals
    ensures PaddedText(text, decimals) == RawDigits(text, decimals)
  {
    PointRemoved(text);
    FillsUp(Whole(text), Fraction(text), decimals);
  }

  lemma FillsUp(whole: string, fraction: string, decimals: nat)
    requires |fraction| <= decimals
    ensures PadEnd(whole + fraction, |whole| + decimals) == whole + (fraction + Zeros(decimals - |fraction|))
  {
    if |fraction| == decimals {
      assert Zeros(0) == [];
    }
  }

  lemma RawDigitsValue(text: string, decimals: nat)
    requires IsDecimal(text) && |Fraction(text)| <= decimals
    ensures Value(RawDigits(text, decimals)) == Scaled(text) * Pow10(decimals - |Fraction(text)|)
    ensures Value(RawDigits(text, decimals))
         == Value(Whole(text)) * Pow10(decimals) + Value(Fraction(text) + Zeros(decimals - |Fraction(text)|))
  {
    var whole, fraction, rest := Whole(text), Fraction(text), decimals - |Fraction(text)|;
    assert RawDigits(text, decimals) == (whole + fraction) + Zeros(rest);
    ValueOfConcat(whole, fraction);
    ValueOfConcat(whole + fraction, Zeros(rest));
    ValueOfZeros(rest);
    ValueOfConcat(whole, fraction + Zeros(rest));
  }

  lemma PaddedFractionValue(fraction: string, decimals: nat)
    requires AllDigits(fraction) && |fraction| <= decimals
    ensures Value(PaddedFraction(fraction, decimals)) == Value(fraction + Zeros(decimals - |fraction|))
  {
    PaddedFractionIs(fraction, decimals);
    ZeroDigit();
  }

  lemma PaddedFractionIs(fraction: string, decimals: nat)
    requires AllDigits(fraction) && |fraction| <= decimals
    ensures
      if decimals == 0 then PaddedFraction(fraction, decimals) == "0" && fraction + Zeros(decimals - |fraction|) == []
      else PaddedFraction(fraction, decimals) == fraction + Zeros(decimals - |fraction|)
  {
    assert (fraction + Zeros(decimals))[..decimals] == fraction + Zeros(decimals - |fraction|);
  }

  lemma ZeroDigit()
    ensures Value("0") == 0
  {
    assert "0"[..0] == [];
  }

  /** Whole part and padded fraction, worked out separately, make the raw amount. */
  lemma SeparatePartsMean(text: string, decimals: nat)
    requires IsDecimal(text) && |Fraction(text)| <= decimals
    ensures Value(Whole(text)) * Pow10(decimals) + Value(PaddedFraction(Fraction(text), decimals))
         == Scaled(text) * Pow10(decimals - |Fraction(text)|)
  {
    RawDigitsValue(text, decimals);
    PaddedFractionValue(Fraction(text), decimals);
  }

  /** The Swap parser computes the meaning from zero to eighteen decimals, and takes no other number of them. */
  lemma SwapParserMeans(text: string, decimals: int)
    ensures ParseTokenAmount(text, decimals) == if 0 <= decimals <= 18 then Meaning(text, decimals) else Err(Malformed)
  {
    if 0 <= decimals <= 18 && IsDecimal(text) && |Fraction(text)| <= decimals {
      SeparatePartsMean(text, decimals);
    }
  }

  lemma PaddedTextMeans(text: string, decimals: nat)
    requires IsDecimal(text) && |Fraction(text)| <= decimals
    ensures AllDigits(PaddedText(text, decimals))
    ensures Value(PaddedText(text, decimals)) == Scaled(text) * Pow10(decimals - |Fraction(text)|)
  {
    DigitsOf(text, decimals);
    RawDigitsValue(text, decimals);
  }

  /** The Send parser, which pads the text itself, computes the meaning too. */
  lemma SendParserMeans(text: string, decimals: nat)
    ensures ParseSendAmount(text, decimals) == Meaning(text, decimals)
  {
    if IsDecimal(text) && |Fraction(text)| <= decimals {
      PaddedTextMeans(text, decimals);
    }
  }

  /** And so does the cross-chain parser, which answers with the number as text. */
  lemma CrossChainParserMeans(text: string, decimals: nat)
    ensures ParseCrossChainAmount(text, decimals)
         == match Meaning(text, decimals) { case Ok(raw) => Ok(Text(raw)) case Err(e) => Err(e) }
  {
    if IsDecimal(text) && |Fraction(text)| <= decimals {
      SeparatePartsMean(text, decimals);
    }
  }

  /**
    From zero to eighteen decimals the parsers accept the same texts, refuse the rest alike, and agree on the number.
  */
  lemma ParsersAgree(text: string, decimals: nat)
    requires decimals <= 18
    ensures ParseSendAmount(text, decimals) == ParseTokenAmount(text, decimals)
    ensures ParseCrossChainAmount(text, decimals).Ok? <==> ParseTokenAmount(text, decimals).Ok?
    ensures ParseCrossChainAmount(text, decimals).Ok? ==>
      && AllDigits(ParseCrossChainAmount(text, decimals).value)
      && Value(ParseCrossChainAmount(text, decimals).value) == ParseTokenAmount(text, decimals).value
    ensures ParseCrossChainAmount(text, decimals).Err? ==>
      ParseCrossChainAmount(text, decimals).error == ParseTokenAmount(text, decimals).error
  {
    SwapParserMeans(text, decimals);
    SendParserMeans(text, decimals);
    CrossChainParserMeans(text, decimals);
    if Meaning(text, decimals).Ok? {
      ValueOfText(Meaning(text, decimals).value);
    }
  }

  // ---------------------------------------------------------------- the formatter

  function FormatRaw(raw: string, decimals: nat): Option<string> {
    if raw == [] then None
    else
      var padded := PadStart(raw, decimals + 1);
      var whole := Slice(padded, 0, 0 - decimals);
      var fraction := TrimZeros(Slice(padded, 0 - decimals, |padded|));
      Some(whole + (if fraction != [] then "." + fraction else ""))
  }

  lemma {:induction false} TrimmedZeros(s: string)
    requires AllDigits(s)
    ensures |TrimZeros(s)| <= |s|
    ensures s == TrimZeros(s) + Zeros(|s| - |TrimZeros(s)|)
  {
    if s != [] && s[|s| - 1] == '0' {
      TrimmedZeros(s[..|s| - 1]);
      assert s == s[..|s| - 1] + ['0'];
    } else {
      assert Zeros(0) == [];
    }
  }

  lemma {:induction false} TrimPadded(s: string, n: nat)
    ensures TrimZeros(s + Zeros(n)) == TrimZeros(s)
  {
    if n == 0 {
      assert s + Zeros(0) == s;
    } else {
      assert (s + Zeros(n))[..|s| + n - 1] == s + Zeros(n - 1);
      TrimPadded(s, n - 1);
    }
  }

  lemma PadKeepsValue(s: string, length: int)
    requires AllDigits(s)
    ensures AllDigits(PadStart(s, length)) && Value(PadStart(s, length)) == Value(s)
  {
    if |s| < length {
      ValueOfConcat(Zeros(length - |s|), s);
      ValueOfZeros(length - |s|);
    }
  }

  /** With at least one decimal, formatting splits the padded digits so many places from the end. */
  lemma FormatSplits(raw: string, decimals: nat) returns (whole: string, digits: string)
    requires raw != [] && decimals >= 1
    ensures PadStart(raw, decimals + 1) == whole + digits
    ensures whole != [] && |digits| == decimals
    ensures FormatRaw(raw, decimals) == Some(Join(whole, TrimZeros(digits)))
  {
    var padded := PadStart(raw, decimals + 1);
    var cut := |padded| - decimals;
    whole, digits := padded[..cut], padded[cut..];
    assert Slice(padded, 0, 0 - decimals) == whole;
    assert Slice(padded, 0 - decimals, |padded|) == digits;
    var fraction := TrimZeros(digits);
    assert whole + ("." + fraction) == whole + ['.'] + fraction;
    assert whole + "" == whole;
  }

  /** The digits before the cut have no leading zero unless they are the single zero. */
  lemma WholeIsCanonical(n: nat, decimals: nat, whole: string, digits: string)
    requires n > 0 && PadStart(Text(n), decimals + 1) == whole + digits
    requires whole != [] && |digits| == decimals
    ensures Canonical(whole) && AllDigits(digits) && Value(whole + digits) == n
  {
    TextIsCanonical(n);
    PadKeepsValue(Text(n), decimals + 1);
    ValueOfText(n);
    assert forall i | 0 <= i < |whole| :: whole[i] == (whole + digits)[i];
    assert forall i | 0 <= i < |digits| :: digits[i] == (whole + digits)[|whole| + i];
  }

  /** A canonical whole part and digits after it mean the number they spell, with or without trailing zeros. */
  lemma JoinMeans(whole: string, digits: string)
    requires Canonical(whole) && AllDigits(digits) && Value(whole + digits) > 0
    ensures Meaning(Join(whole, TrimZeros(digits)), |digits|) == Ok(Value(whole + digits))
  {
    var fraction := TrimZeros(digits);
    SplitOfJoin(whole, fraction);
    TrimmedZeros(digits);
    var text := Join(whole, fraction);
    RawDigitsValue(text, |digits|);
    assert RawDigits(text, |digits|) == whole + digits;
  }

  /** Formatting a positive amount and parsing the text gives the amount back, for every decimals of one or more. */
  lemma ParseOfFormat(n: nat, decimals: nat)
    requires n > 0 && decimals >= 1
    ensures FormatRaw(Text(n), decimals).Some?
    ensures ParseCrossChainAmount(FormatRaw(Text(n), decimals).value, decimals) == Ok(Text(n))
  {
    var whole, digits := FormatSplits(Text(n), decimals);
    WholeIsCanonical(n, decimals, whole, digits);
    JoinMeans(whole, digits);
    CrossChainParserMeans(Join(whole, TrimZeros(digits)), decimals);
  }

  /** With no decimals the formatter moves every digit behind the point, so no amount comes back. */
  lemma WholeTokensAreLost(n: nat)
    requires n > 0
    ensures FormatRaw(Text(n), 0).Some?
    ensures ParseCrossChainAmount(FormatRaw(Text(n), 0).value, 0) == Err(Malformed)
  {
    var raw := Text(n);
    assert PadStart(raw, 1) == raw;
    assert Slice(raw, 0, 0) == [] && Slice(raw, 0, |raw|) == raw;
    var fraction := TrimZeros(raw);
    var text := FormatRaw(raw, 0).value;
    assert text == if fraction != [] then "." + fraction else "";
    assert Whole(text) == [] by {
      if fraction != [] {
        assert text[0] == '.';
        assert IndexOf(text, '.') == 0;
      }
    }
  }

  /** The exact condition for the round trip of positive amounts. */
  lemma RoundTripExactly(decimals: nat)
    ensures (forall n: nat | n > 0 ::
               && FormatRaw(Text(n), decimals).Some?
               && ParseCrossChainAmount(FormatRaw(Text(n), decimals).value, decimals) == Ok(Text(n)))
       <==> decimals >= 1
  {
    if decimals >= 1 {
      forall n: nat | n > 0
        ensures FormatRaw(Text(n), decimals).Some?
        ensures ParseCrossChainAmount(FormatRaw(Text(n), decimals).value, decimals) == Ok(Text(n))
      {
        ParseOfFormat(n, decimals);
      }
    } else {
      WholeTokensAreLost(1);
    }
  }

  lemma {:induction false} TextIsShortest(s: string)
    requires AllDigits(s) && s != []
    ensures |Text(Value(s))| <= |s|
  {
    if |s| > 1 {
      TextIsShortest(s[..|s| - 1]);
    } else {
      assert s[..0] == [];
    }
  }

  /** Padding the shortest digits of a number restores any longer form of them with one digit before the cut. */
  lemma PaddingRestores(s: string, decimals: nat)
    requires AllDigits(s) && |s| > decimals
    requires s[0] != '0' || |s| == decimals + 1
    ensures PadStart(Text(Value(s)), decimals + 1) == s
  {
    if s[0] != '0' {
      TextOfValue(s);
    } else {
      TextIsShortest(s);
      PadKeepsValue(Text(Value(s)), decimals + 1);
      ValueOfText(Value(s));
      ValueInjective(PadStart(Text(Value(s)), decimals + 1), s);
    }
  }

  lemma SameSplit(a: string, b: string, c: string, d: string)
    requires a + b == c + d && |b| == |d|
    ensures a == c && b == d
  {
    assert |a| + |b| == |a + b| == |c + d| == |c| + |d|;
    assert a == (a + b)[..|a|] && c == (c + d)[..|a|];
    assert b == (a + b)[|a|..] && d == (c + d)[|a|..];
  }

  /** Formatting a parsed amount gives the canonical form of the text: itself without trailing zeros of the fraction. */
  lemma FormatOfParse(text: string, decimals: nat)
    requires decimals >= 1 && ParseCrossChainAmount(text, decimals).Ok?
    ensures FormatRaw(ParseCrossChainAmount(text, decimals).value, decimals)
         == Some(Join(Whole(text), TrimZeros(Fraction(text))))
  {
    CrossChainParserMeans(text, decimals);
    RawDigitsValue(text, decimals);
    FormatOfRawDigits(text, decimals);
  }

  /** The digits of a parsed text, formatted again. */
  lemma FormatOfRawDigits(text: string, decimals: nat)
    requires decimals >= 1 && IsDecimal(text) && |Fraction(text)| <= decimals
    ensures FormatRaw(Text(Value(RawDigits(text, decimals))), decimals)
         == Some(Join(Whole(text), TrimZeros(Fraction(text))))
  {
    var s := RawDigits(text, decimals);
    assert s[0] == Whole(text)[0];
    PaddingRestores(s, decimals);
    var whole, digits := FormatSplits(Text(Value(s)), decimals);
    var rest := decimals - |Fraction(text)|;
    SameSplit(whole, digits, Whole(text), Fraction(text) + Zeros(rest));
    TrimPadded(Fraction(text), rest);
  }
}
