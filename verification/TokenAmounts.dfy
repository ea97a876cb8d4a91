/** Printing and parsing of token amounts (src/balances.ts, src/payments.ts, src/policy-types.ts,
    contrib/try-parse-token-amount.ts). */
module TokenAmounts {
  import opened Prelude
  import opened Decimal

  datatype AmountError =
    | BadDecimals              // RangeError
    | Empty | Negative         // only told apart by `tryParseTokenAmount`
    | NotANumber
    | TooManyDecimals
    | Zero

  /** `formatTokenAmount`. */
  function Format(amount: int, decimals: int): Result<string, AmountError> {
    if decimals < 0 then Failure(BadDecimals) else Success(Print(amount, decimals))
  }

  function Print(amount: int, decimals: nat): string {
    if amount < 0 then "-" + PrintUnsigned(-amount, decimals) else PrintUnsigned(amount, decimals)
  }

  function PrintUnsigned(abs: nat, decimals: nat): string {
    var base := Pow10(decimals);
    Division(abs, base);
    Assemble(ToDecimal(abs / base), FractionText(abs % base, decimals))
  }

  function FractionText(r: nat, decimals: nat): string {
    StripTrailingZeros(PadStart(ToDecimal(r), decimals))
  }

  function Assemble(whole: string, fraction: string): string {
    if fraction == "" then whole else whole + "." + fraction
  }

  /** The white space and line terminators that `trim` removes. */
  predicate IsSpace(c: char) {
    var u := c as int;
    0x9 <= u <= 0xD || u == 0x20 || u == 0xA0 || u == 0x1680 || 0x2000 <= u <= 0x200A
    || u == 0x2028 || u == 0x2029 || u == 0x202F || u == 0x205F || u == 0x3000 || u == 0xFEFF
  }

  lemma SpacesAre(c: char)
    ensures IsSpace(c) <==>
      c as int in
      {9, 10, 11, 12, 13, 32, 160, 5760, 8192, 8193, 8194, 8195, 8196, 8197, 8198, 8199, 8200, 8201, 8202,
       8232, 8233, 8239, 8287, 12288, 65279}
  {
  }

  function Trim(s: string): string {
    if s == [] then s
    else if IsSpace(s[0]) then Trim(s[1..])
    else if IsSpace(s[|s| - 1]) then Trim(s[..|s| - 1])
    else s
  }

  /** White space goes from both ends, and only there. */
  lemma {:induction false} TrimMeans(s: string) returns (i: nat, j: nat)
    ensures i <= j <= |s| && Trim(s) == s[i..j] && OnlySpaceAround(s, i, j)
    ensures i < j ==> !IsSpace(s[i]) && !IsSpace(s[j - 1])
    decreases |s|
  {
    if s != "" && IsSpace(s[0]) {
      i, j := TrimMeans(s[1..]);
      assert s[1..][i..j] == s[i + 1..j + 1];
      assert forall k :: 1 <= k < |s| ==> s[k] == s[1..][k - 1];
      i, j := i + 1, j + 1;
    } else if s != "" && IsSpace(s[|s| - 1]) {
      var front := s[..|s| - 1];
      i, j := TrimMeans(front);
      assert front[i..j] == s[i..j];
      assert forall k :: 0 <= k < |front| ==> s[k] == front[k];
    } else {
      i, j := 0, |s|;
      assert s[0..|s|] == s;
    }
  }

  lemma TrimIsEmptyIff(s: string)
    ensures Trim(s) == "" <==> forall c <- s :: IsSpace(c)
  {
    var i, j := TrimMeans(s);
    if i < j {
      assert s[i] in s;
    } else {
      forall c <- s ensures IsSpace(c) {
        var k :| 0 <= k < |s| && s[k] == c;
      }
    }
  }

  ghost predicate OnlySpaceAround(s: string, i: nat, j: nat) {
    forall k :: 0 <= k < |s| && (k < i || k >= j) ==> IsSpace(s[k])
  }

  function Whole(s: string): string { s[..IndexOf(s, '.')] }

  function Fraction(s: string): string { if IndexOf(s, '.') == |s| then "" else s[IndexOf(s, '.') + 1..] }

  /** Matches digits, optionally followed by a dot and more digits. */
  predicate WellFormed(s: string) {
    && Whole(s) != "" && AllDigits(Whole(s)) && AllDigits(Fraction(s))
    && (IndexOf(s, '.') < |s| ==> Fraction(s) != "")
  }

  /** `parseTokenAmount`. */
  function Parse(input: string, decimals: int): Result<nat, AmountError> {
    var s := Trim(input);
    if decimals < 0 then Failure(BadDecimals)
    else if !WellFormed(s) then Failure(NotANumber)
    else if |Fraction(s)| > decimals then Failure(TooManyDecimals)
    else
      var raw := Units(s, decimals);
      if raw == 0 then Failure(Zero) else Success(raw)
  }

  function Units(s: string, decimals: nat): nat
    requires WellFormed(s)
  {
    Value(Whole(s)) * Pow10(decimals) + Value(PadEnd(Fraction(s), decimals))
  }

  /** `tryParseTokenAmount`: the same decision, with finer reasons. */
  function TryParse(input: string, decimals: int): Result<nat, AmountError> {
    var s := Trim(input);
    if decimals < 0 then Failure(BadDecimals)
    else if s == "" then Failure(Empty)
    else if s[0] == '-' then Failure(Negative)
    else if !WellFormed(s) then Failure(NotANumber)
    else if |Fraction(s)| > decimals then Failure(TooManyDecimals)
    else if Units(s, decimals) == 0 then Failure(Zero)
    else Success(Units(s, decimals))
  }

  /** One or more digits, or one or more on both sides of a dot. */
  ghost predicate IsNumeral(s: string, whole: string, fraction: string) {
    && whole != "" && AllDigits(whole) && AllDigits(fraction)
    && s == if fraction == "" then whole else whole + "." + fraction
  }

  lemma WellFormedMeans(s: string)
    ensures WellFormed(s) <==> exists whole, fraction :: IsNumeral(s, whole, fraction)
    ensures WellFormed(s) ==> IsNumeral(s, Whole(s), Fraction(s))
    ensures forall whole, fraction :: IsNumeral(s, whole, fraction) ==> whole == Whole(s) && fraction == Fraction(s)
  {
    forall whole, fraction | IsNumeral(s, whole, fraction)
      ensures whole == Whole(s) && fraction == Fraction(s) && WellFormed(s)
    {
      AssembledParts(whole, fraction);
    }
    if WellFormed(s) {
      var i := IndexOf(s, '.');
      if i == |s| {
        assert s[..i] == s;
      } else {
        assert s == s[..i] + "." + s[i + 1..];
      }
      assert IsNumeral(s, Whole(s), Fraction(s));
    }
  }

  /** The reasons of a refusal, in the order of the checks. */
  lemma RefusalsMean(input: string, decimals: int)
    ensures var s := Trim(input);
      var numeral, fits := exists whole, fraction :: IsNumeral(s, whole, fraction), |Fraction(s)| <= decimals;
      && (Parse(input, decimals) == Failure(BadDecimals) <==> decimals < 0)
      && (Parse(input, decimals) == Failure(NotANumber) <==> decimals >= 0 && !numeral)
      && (Parse(input, decimals) == Failure(TooManyDecimals) <==> decimals >= 0 && numeral && !fits)
      && (Parse(input, decimals) == Failure(Zero) <==> decimals >= 0 && numeral && fits && Units(s, decimals) == 0)
      && (TryParse(input, decimals) == Failure(BadDecimals) <==> decimals < 0)
      && (TryParse(input, decimals) == Failure(Empty) <==> decimals >= 0 && s == "")
      && (TryParse(input, decimals) == Failure(Negative) <==> decimals >= 0 && s != "" && s[0] == '-')
      && (TryParse(input, decimals) == Failure(NotANumber) <==>
            decimals >= 0 && s != "" && s[0] != '-' && !numeral)
      && (TryParse(input, decimals) == Failure(TooManyDecimals) <==> decimals >= 0 && numeral && !fits)
      && (TryParse(input, decimals) == Failure(Zero) <==> decimals >= 0 && numeral && fits && Units(s, decimals) == 0)
  {
    WellFormedMeans(Trim(input));
    assert WellFormed(Trim(input)) ==> Trim(input)[0] == Whole(Trim(input))[0];
  }

  /** An accepted amount without surrounding white space, leading whole zeros and trailing
      fraction zeros. */
  function Canonical(input: string): string {
    var s := Trim(input);
    Assemble(StripLeadingZeros(Whole(s)), StripTrailingZeros(Fraction(s)))
  }

  // ----- Round trips -----

  /** Parsing a formatted amount gives the amount back exactly if it is positive; and what cannot be
      formatted for its decimals cannot be parsed for them either. */
  lemma ParseOfFormat(amount: int, decimals: int)
    ensures match Format(amount, decimals)
      case Success(text) =>
        amount > 0 <==> Parse(text, decimals).Success? && Parse(text, decimals).value == amount
      case Failure(e) => decimals < 0 && forall text :: Parse(text, decimals) == Failure(e)
  {
    if amount > 0 && decimals >= 0 {
      ParseOfPrint(amount, decimals);
    }
  }

  lemma ParseOfPrint(amount: nat, decimals: nat)
    requires amount > 0
    ensures Parse(Print(amount, decimals), decimals) == Success(amount)
  {
    Division(amount, Pow10(decimals));
    ParseOfParts(amount, amount / Pow10(decimals), amount % Pow10(decimals), decimals);
  }

  lemma ParseOfParts(amount: nat, w: nat, r: nat, decimals: nat)
    requires r < Pow10(decimals) && amount == w * Pow10(decimals) + r && amount > 0
    ensures Parse(Assemble(ToDecimal(w), FractionText(r, decimals)), decimals) == Success(amount)
  {
    var whole, fraction := ToDecimal(w), FractionText(r, decimals);
    DecimalRoundTrip(w);
    FractionReadsBack(r, decimals);
    AssembledParts(whole, fraction);
    ParseOfText(Assemble(whole, fraction), whole, fraction, decimals);
  }

  lemma ParseOfText(text: string, whole: string, fraction: string, decimals: nat)
    requires Trim(text) == text && WellFormed(text) && Whole(text) == whole && Fraction(text) == fraction
    requires |fraction| <= decimals
    ensures var raw := Value(whole) * Pow10(decimals) + Value(PadEnd(fraction, decimals));
      Parse(text, decimals) == if raw == 0 then Failure(Zero) else Success(raw)
  {
  }

  /** The fraction printed for `r` reads back as `r`, and fits. */
  lemma FractionReadsBack(r: nat, decimals: nat)
    requires r < Pow10(decimals)
    ensures var fraction := FractionText(r, decimals);
      AllDigits(fraction) && |fraction| <= decimals
      && AllDigits(PadEnd(fraction, decimals)) && Value(PadEnd(fraction, decimals)) == r
  {
    if decimals == 0 {
      assert ToDecimal(r) == "0" && "0"[..0] == "";
    } else {
      DecimalRoundTrip(r);
      DecimalLength(r, decimals);
      PadStartValue(ToDecimal(r), decimals);
      PadBack(PadStart(ToDecimal(r), decimals));
    }
  }

  /** Padding puts back the zeros that were stripped. */
  lemma PadBack(padded: string)
    ensures |StripTrailingZeros(padded)| <= |padded| && PadEnd(StripTrailingZeros(padded), |padded|) == padded
    ensures AllDigits(padded) ==> AllDigits(StripTrailingZeros(padded))
  {
    StripTrailingShape(padded);
    assert StripTrailingZeros(padded) + Zeros(0) == StripTrailingZeros(padded);
  }

  /** Printed text is its own trimming, and splits at its dot. */
  lemma AssembledParts(whole: string, fraction: string)
    requires AllDigits(whole) && whole != "" && AllDigits(fraction)
    ensures var s := Assemble(whole, fraction);
      Trim(s) == s && Whole(s) == whole && Fraction(s) == fraction && WellFormed(s)
  {
    var s := Assemble(whole, fraction);
    assert s[0] == whole[0] && IsDigit(s[|s| - 1]);
    assert s[..|whole|] == whole;
    assert forall k :: 0 <= k < |whole| ==> s[k] == whole[k] && IsDigit(whole[k]);
    if fraction != "" {
      assert s[|whole|] == '.';
      assert s[|whole| + 1..] == fraction;
    }
  }

  /** Printing an accepted amount gives the input in canonical form: nothing is rounded. */
  lemma PrintOfParse(input: string, decimals: nat)
    requires Parse(input, decimals).Success?
    ensures Print(Parse(input, decimals).value, decimals) == Canonical(input)
  {
    var s := Trim(input);
    var padded := PadEnd(Fraction(s), decimals);
    ValueBound(padded);
    DivisionIsUnique(Parse(input, decimals).value, Pow10(decimals), Value(Whole(s)), Value(padded));
    DecimalOfValue(Whole(s));
    FractionPrintsBack(Fraction(s), decimals);
  }

  lemma FractionPrintsBack(fraction: string, decimals: nat)
    requires AllDigits(fraction) && |fraction| <= decimals
    ensures AllDigits(PadEnd(fraction, decimals))
    ensures FractionText(Value(PadEnd(fraction, decimals)), decimals) == StripTrailingZeros(fraction)
  {
    if decimals == 0 {
      assert PadEnd(fraction, 0) == "" && Value("") == 0;
      assert "0"[..0] == "";
      assert StripTrailingZeros("0") == "" && StripTrailingZeros("") == "";
    } else {
      PadEndIsAppend(fraction, decimals);
      PaddedPrintsBack(PadEnd(fraction, decimals));
      StripTrailingOfPadded(fraction, decimals - |fraction|);
    }
  }

  lemma PadEndIsAppend(s: string, width: nat)
    requires |s| <= width
    ensures PadEnd(s, width) == s + Zeros(width - |s|)
  {
  }

  lemma PaddedPrintsBack(padded: string)
    requires AllDigits(padded) && padded != ""
    ensures FractionText(Value(padded), |padded|) == StripTrailingZeros(padded)
  {
    PadStartOfValue(padded);
  }

  /** So printing is injective on the parser's results, and the parser identifies two accepted
      inputs exactly when their canonical forms coincide. */
  lemma SameAmountIffSameCanonical(a: string, b: string, decimals: nat)
    requires Parse(a, decimals).Success? && Parse(b, decimals).Success?
    ensures Parse(a, decimals) == Parse(b, decimals) <==> Canonical(a) == Canonical(b)
  {
    PrintOfParse(a, decimals);
    PrintOfParse(b, decimals);
    ParseOfPrint(Parse(a, decimals).value, decimals);
    ParseOfPrint(Parse(b, decimals).value, decimals);
  }

  /** The two parsers accept the same strings with the same values. */
  lemma ParsersAgree(input: string, decimals: int)
    ensures TryParse(input, decimals).Success? <==> Parse(input, decimals).Success?
    ensures Parse(input, decimals).Success? ==> TryParse(input, decimals) == Parse(input, decimals)
  {
    var s := Trim(input);
    assert WellFormed(s) ==> s[0] == Whole(s)[0];
  }

  // ----- stroopsToXlm -----

  const STROOPS_PER_XLM := 10_000_000

  /** JavaScript's bigint division truncates toward zero, so both the quotient and the remainder of a
      negative amount are negative. */
  function TruncatedQuotient(n: int): int {
    var q: int := (if n < 0 then -n else n) / STROOPS_PER_XLM;
    if n < 0 then -q else q
  }

  function TruncatedRemainder(n: int): int {
    var r: int := (if n < 0 then -n else n) % STROOPS_PER_XLM;
    if n < 0 then -r else r
  }

  /** `stroopsToXlm`, after `BigInt(stroops)`. */
  function StroopsToXlm(n: int): string {
    var whole, remainder := SignedDecimal(TruncatedQuotient(n)), SignedDecimal(TruncatedRemainder(n));
    Assemble(whole, StripTrailingZeros(PadStart(remainder, 7)))
  }

  /** It is the seven-decimals printer exactly on the amounts that are not negative or are whole:
      a negative fraction gets a second minus sign, or a minus sign in the wrong place. */
  lemma StroopsToXlmIsPrint(n: int)
    ensures StroopsToXlm(n) == Print(n, 7) <==> n >= 0 || -n % STROOPS_PER_XLM == 0
  {
    assert Pow10(7) == STROOPS_PER_XLM by {
      assert Pow10(7) == 10 * Pow10(6) && Pow10(6) == 10 * Pow10(5) && Pow10(5) == 10 * Pow10(4);
      assert Pow10(4) == 10 * Pow10(3) && Pow10(3) == 10 * Pow10(2) && Pow10(2) == 10 * Pow10(1)
        && Pow10(1) == 10 * Pow10(0);
    }
    if n < 0 {
      NegativeStroops(n);
    }
  }

  lemma NegativeStroops(n: int)
    requires n < 0 && Pow10(7) == STROOPS_PER_XLM
    ensures StroopsToXlm(n) == Print(n, 7) <==> -n % STROOPS_PER_XLM == 0
  {
    var w, r := -n / STROOPS_PER_XLM, -n % STROOPS_PER_XLM;
    if r > 0 {
      var k := SecondMinus(n, w, r);
      PrintHasOneMinus(n);
    }
  }

  /** The minus sign of the remainder is printed as well. */
  lemma SecondMinus(n: int, w: int, r: int) returns (k: nat)
    requires n < 0 && r > 0 && w == -n / STROOPS_PER_XLM && r == -n % STROOPS_PER_XLM
    ensures 0 < k < |StroopsToXlm(n)| && StroopsToXlm(n)[k] == '-'
  {
    MinusStays(r);
    k := InFraction(SignedDecimal(-w), StripTrailingZeros(PadStart("-" + ToDecimal(r), 7)), '-');
  }

  lemma InFraction(whole: string, fraction: string, c: char) returns (k: nat)
    requires c in fraction
    ensures 0 < k < |Assemble(whole, fraction)| && Assemble(whole, fraction)[k] == c
  {
    var i :| 0 <= i < |fraction| && fraction[i] == c;
    k := |whole| + 1 + i;
  }

  lemma MinusStays(r: nat)
    requires r > 0
    ensures '-' in StripTrailingZeros(PadStart("-" + ToDecimal(r), 7))
  {
    var text := "-" + ToDecimal(r);
    var padded := PadStart(text, 7);
    StripTrailingShape(padded);
    var at := |padded| - |text|;
    assert padded[at] == text[0] == '-';
    assert at < |StripTrailingZeros(padded)|;
    assert StripTrailingZeros(padded)[at] == '-';
  }

  lemma PrintHasOneMinus(n: int)
    requires n < 0
    ensures var p := Print(n, 7); forall i :: 0 < i < |p| ==> p[i] != '-'
  {
    var base := Pow10(7);
    DecimalRoundTrip(-n / base);
    FractionReadsBack(-n % base, 7);
  }
}
