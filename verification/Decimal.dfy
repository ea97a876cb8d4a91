/** Decimal numerals: what `BigInt(s)` and `n.toString()` do on strings of digits. */
module Decimal {
  import opened Prelude

  predicate IsDigit(c: char) { '0' <= c <= '9' }

  predicate AllDigits(s: string) { forall i :: 0 <= i < |s| ==> IsDigit(s[i]) }

  function DigitValue(c: char): nat
    requires IsDigit(c)
  {
    c as int - '0' as int
  }

  function DigitChar(d: nat): char
    requires d < 10
  {
    ('0' as int + d) as char
  }

  function Pow10(n: nat): (p: nat)
    ensures p > 0
  {
    if n == 0 then 1 else 10 * Pow10(n - 1)
  }

  lemma Division(n: nat, base: nat)
    requires base > 0
    ensures n / base >= 0 && 0 <= n % base < base && n == n / base * base + n % base
  {
  }

  lemma DivisionIsUnique(n: nat, base: nat, q: nat, r: nat)
    requires r < base && n == q * base + r
    ensures n / base == q && n % base == r
  {
    Sandwiched(n / base, n % base, q, r, base);
  }

  lemma Sandwiched(q: int, r: nat, q': int, r': nat, base: nat)
    requires r < base && r' < base && q * base + r == q' * base + r'
    ensures q == q' && r == r'
  {
    if q < q' {
      MultiplyMonotone(q + 1, q', base);
    } else if q' < q {
      MultiplyMonotone(q' + 1, q, base);
    }
  }

  /** `BigInt(s)` of a string of digits (0 for the empty string). */
  function Value(s: string): nat
    requires AllDigits(s)
  {
    if s == [] then 0 else Value(s[..|s| - 1]) * 10 + DigitValue(s[|s| - 1])
  }

  /** `n.toString()`. */
  function ToDecimal(n: nat): string {
    if n < 10 then [DigitChar(n)] else ToDecimal(n / 10) + [DigitChar(n % 10)]
  }

  function SignedDecimal(n: int): string {
    if n < 0 then "-" + ToDecimal(-n) else ToDecimal(n)
  }

  function Zeros(n: nat): (s: string)
    ensures |s| == n && AllDigits(s) && forall i :: 0 <= i < n ==> s[i] == '0'
  {
    seq(n, _ => '0')
  }

  function PadStart(s: string, width: nat): string {
    if |s| < width then Zeros(width - |s|) + s else s
  }

  function PadEnd(s: string, width: nat): string {
    if |s| < width then s + Zeros(width - |s|) else s
  }

  /** Leading zeros removed, the last digit kept. */
  function StripLeadingZeros(s: string): string {
    if |s| > 1 && s[0] == '0' then StripLeadingZeros(s[1..]) else s
  }

  /** `s.replace(/0+$/, "")`. */
  function StripTrailingZeros(s: string): string {
    if s != [] && s[|s| - 1] == '0' then StripTrailingZeros(s[..|s| - 1]) else s
  }

  lemma {:induction false} DecimalRoundTrip(n: nat)
    ensures AllDigits(ToDecimal(n)) && ToDecimal(n) != [] && Value(ToDecimal(n)) == n
  {
    var s := ToDecimal(n);
    if n < 10 {
      assert s[..|s| - 1] == [];
    } else {
      DecimalRoundTrip(n / 10);
      assert s[..|s| - 1] == ToDecimal(n / 10);
    }
  }

  lemma {:induction false} ValueBound(s: string)
    requires AllDigits(s)
    ensures Value(s) < Pow10(|s|)
  {
    if s != [] {
      ValueBound(s[..|s| - 1]);
    }
  }

  lemma {:induction false} ValueAppend(s: string, t: string)
    requires AllDigits(s) && AllDigits(t)
    ensures AllDigits(s + t) && Value(s + t) == Value(s) * Pow10(|t|) + Value(t)
  {
    if t == [] {
      assert s + t == s;
    } else {
      var t' := t[..|t| - 1];
      ValueAppend(s, t');
      assert (s + t)[..|s + t| - 1] == s + t';
      assert Pow10(|t|) == 10 * Pow10(|t'|);
      ShiftLeft(Value(s), Pow10(|t'|), Value(t'));
    }
  }

  lemma ShiftLeft(v: int, p: int, w: int)
    ensures (v * p + w) * 10 == v * (10 * p) + w * 10
  {
  }

  lemma {:induction false} ValueZeros(n: nat)
    ensures Value(Zeros(n)) == 0
  {
    if n > 0 {
      ValueZeros(n - 1);
      assert Zeros(n)[..n - 1] == Zeros(n - 1);
    }
  }

  lemma {:induction false} DecimalLength(n: nat, d: nat)
    requires n < Pow10(d) && d > 0
    ensures |ToDecimal(n)| <= d
  {
    if n >= 10 {
      assert d > 1 by { assert Pow10(1) == 10 * Pow10(0); }
      DecimalLength(n / 10, d - 1);
    }
  }

  /** Two numerals of the same length with the same value are the same. */
  lemma {:induction false} ValueInjective(s: string, t: string)
    requires AllDigits(s) && AllDigits(t) && |s| == |t| && Value(s) == Value(t)
    ensures s == t
  {
    if s != [] {
      var s', t' := s[..|s| - 1], t[..|t| - 1];
      assert DigitValue(s[|s| - 1]) == DigitValue(t[|t| - 1]);
      ValueInjective(s', t');
      assert s == s' + [s[|s| - 1]] && t == t' + [t[|t| - 1]];
    }
  }

  lemma PadStartValue(s: string, width: nat)
    requires AllDigits(s)
    ensures AllDigits(PadStart(s, width)) && Value(PadStart(s, width)) == Value(s)
  {
    if |s| < width {
      ValueZeros(width - |s|);
      ValueAppend(Zeros(width - |s|), s);
    }
  }

  lemma NothingPadded(s: string, width: nat)
    requires s != [] && (PadStart(s, width)[0] != '0' || |PadStart(s, width)| == 1)
    ensures PadStart(s, width) == s
  {
  }

  /** Padding back to its width the value of a numeral gives the numeral. */
  lemma PadStartOfValue(s: string)
    requires AllDigits(s) && s != []
    ensures PadStart(ToDecimal(Value(s)), |s|) == s
  {
    ValueBound(s);
    DecimalRoundTrip(Value(s));
    DecimalLength(Value(s), |s|);
    PadStartValue(ToDecimal(Value(s)), |s|);
    ValueInjective(PadStart(ToDecimal(Value(s)), |s|), s);
  }

  lemma LeadingZero(s: string)
    requires AllDigits(s) && s != [] && s[0] == '0'
    ensures AllDigits(s[1..]) && Value(s) == Value(s[1..])
  {
    assert s == "0" + s[1..];
    ValueAppend("0", s[1..]);
    assert Value("0") == 0;
  }

  /** Printing a parsed numeral drops exactly its leading zeros. */
  lemma {:induction false} DecimalOfValue(s: string)
    requires AllDigits(s) && s != []
    ensures ToDecimal(Value(s)) == StripLeadingZeros(s)
  {
    if |s| > 1 && s[0] == '0' {
      LeadingZero(s);
      DecimalOfValue(s[1..]);
    } else {
      PadStartOfValue(s);
      DecimalRoundTrip(Value(s));
      NothingPadded(ToDecimal(Value(s)), |s|);
    }
  }

  lemma {:induction false} StripTrailingShape(s: string)
    ensures |StripTrailingZeros(s)| <= |s|
    ensures s == StripTrailingZeros(s) + Zeros(|s| - |StripTrailingZeros(s)|)
    ensures AllDigits(s) ==> AllDigits(StripTrailingZeros(s))
  {
    if s != [] && s[|s| - 1] == '0' {
      var s' := s[..|s| - 1];
      StripTrailingShape(s');
      assert s == s' + "0";
      var k := |s'| - |StripTrailingZeros(s')|;
      assert Zeros(k) + "0" == Zeros(k + 1);
    }
  }

  lemma {:induction false} StripTrailingOfPadded(s: string, n: nat)
    ensures StripTrailingZeros(s + Zeros(n)) == StripTrailingZeros(s)
  {
    if n == 0 {
      assert s + Zeros(0) == s;
    } else {
      var t := s + Zeros(n);
      assert t[|t| - 1] == '0' && t[..|t| - 1] == s + Zeros(n - 1);
      StripTrailingOfPadded(s, n - 1);
    }
  }
}
