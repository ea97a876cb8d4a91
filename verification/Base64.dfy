/** The dependency-free base64 decoder (contrib/issue-507-510-515/upto-settlement-receipt.ts),
    against the encoding of section 4 of RFC 4648. */
module Base64 {
  import opened Prelude

  type Byte = b: nat | b < 256
  type Bits = seq<bool>

  // ----- Bit strings -----

  function Pow2(n: nat): (p: nat)
    ensures p > 0
  {
    if n == 0 then 1 else 2 * Pow2(n - 1)
  }

  /** `n.toString(2).padStart(width, "0")`, most significant bit first. */
  function ToBits(n: nat, width: nat): (bits: Bits)
    ensures |bits| == width
  {
    if width == 0 then [] else ToBits(n / 2, width - 1) + [n % 2 == 1]
  }

  /** `parseInt(bits, 2)`. */
  function FromBits(bits: Bits): nat {
    if bits == [] then 0
    else 2 * FromBits(bits[..|bits| - 1]) + if bits[|bits| - 1] then 1 else 0
  }

  lemma {:induction false} BitsRoundTrip(n: nat, width: nat)
    requires n < Pow2(width)
    ensures FromBits(ToBits(n, width)) == n
  {
    if width > 0 {
      BitsRoundTrip(n / 2, width - 1);
      assert ToBits(n, width)[..width - 1] == ToBits(n / 2, width - 1);
    }
  }

  lemma {:induction false} BitsSplit(high: nat, low: nat, w: nat, k: nat)
    requires low < Pow2(k)
    ensures ToBits(high * Pow2(k) + low, w + k) == ToBits(high, w) + ToBits(low, k)
  {
    if k > 0 {
      Halves(high, low, Pow2(k - 1));
      BitsSplit(high, low / 2, w, k - 1);
      Associative(ToBits(high, w), ToBits(low / 2, k - 1), [low % 2 == 1]);
    } else {
      assert high * Pow2(0) + low == high && ToBits(low, 0) == [];
    }
  }

  lemma Halves(high: nat, low: nat, p: nat)
    ensures (high * (2 * p) + low) / 2 == high * p + low / 2 && (high * (2 * p) + low) % 2 == low % 2
  {
    assert high * (2 * p) + low == 2 * (high * p) + low;
  }

  lemma Associative(a: Bits, b: Bits, c: Bits)
    ensures a + (b + c) == (a + b) + c
  {
  }

  // ----- The alphabet (table 1 of RFC 4648) -----

  function Sextet(n: nat): char
    requires n < 64
  {
    if n < 26 then ('A' as int + n) as char
    else if n < 52 then ('a' as int + n - 26) as char
    else if n < 62 then ('0' as int + n - 52) as char
    else if n == 62 then '+' else '/'
  }

  predicate InAlphabet(c: char) { exists n: nat :: n < 64 && Sextet(n) == c }

  /** `B64.indexOf(ch)`, -1 when absent. */
  function AlphabetIndex(c: char): (i: int)
    ensures -1 <= i < 64
    ensures i >= 0 ==> Sextet(i) == c
  {
    if 'A' <= c <= 'Z' then c as int - 'A' as int
    else if 'a' <= c <= 'z' then c as int - 'a' as int + 26
    else if '0' <= c <= '9' then c as int - '0' as int + 52
    else if c == '+' then 62
    else if c == '/' then 63
    else -1
  }

  lemma IndexOfSextet(n: nat)
    requires n < 64
    ensures AlphabetIndex(Sextet(n)) == n
  {
  }

  lemma IndexMeansInAlphabet(c: char)
    ensures InAlphabet(c) <==> AlphabetIndex(c) >= 0
  {
    if InAlphabet(c) {
      var n: nat :| n < 64 && Sextet(n) == c;
      IndexOfSextet(n);
    }
  }

  // ----- The encoding of section 4 of RFC 4648 -----

  /** A 24-bit group is cut into four sextets; a last group of one or two bytes is zero-extended
      and gives two or three characters, completed with `=` when `padded`. */
  function Encode(bytes: seq<Byte>, padded: bool): string {
    if |bytes| == 0 then ""
    else if |bytes| == 1 then
      [Sextet(bytes[0] / 4), Sextet(bytes[0] % 4 * 16)] + if padded then "==" else ""
    else if |bytes| == 2 then
      [Sextet(bytes[0] / 4), Sextet(bytes[0] % 4 * 16 + bytes[1] / 16), Sextet(bytes[1] % 16 * 4)]
      + if padded then "=" else ""
    else
      Group(bytes) + Encode(bytes[3..], padded)
  }

  // ----- The decoder -----

  /** `value.replace(/=+$/, "")`. */
  function StripPadding(s: string): string {
    if s != "" && s[|s| - 1] == '=' then StripPadding(s[..|s| - 1]) else s
  }

  /** The bits of the characters, six each; `None` if one is outside the alphabet. */
  function Sextets(s: string): (bits: Option<Bits>)
    ensures bits.Some? ==> |bits.value| == 6 * |s|
  {
    if s == "" then Some([])
    else
      var front, last := Sextets(s[..|s| - 1]), CharBits(s[|s| - 1]);
      if front.None? || last.None? then None else Some(front.value + last.value)
  }

  function CharBits(c: char): (bits: Option<Bits>)
    ensures bits.Some? ==> |bits.value| == 6
  {
    if AlphabetIndex(c) < 0 then None else Some(ToBits(AlphabetIndex(c), 6))
  }

  /** Whole groups of eight bits; left-over bits are dropped. */
  function Octets(bits: Bits): seq<nat> {
    if |bits| < 8 then [] else [FromBits(bits[..8])] + Octets(bits[8..])
  }

  function DecodeSpec(value: string): Option<seq<nat>> {
    var bits := Sextets(StripPadding(value));
    if bits.None? then None else Some(Octets(bits.value))
  }

  /** The fallback in `decodeBase64Utf8` (`None` is its "not base64" error). */
  method Decode(value: string) returns (result: Option<seq<nat>>)
    ensures result == DecodeSpec(value)
    ensures result.None? <==> exists c <- StripPadding(value) :: !InAlphabet(c)
  {
    var bits := CollectBits(StripPadding(value));
    if bits.None? {
      return None;
    }
    var bytes := CutIntoBytes(bits.value);
    return Some(bytes);
  }

  method CollectBits(text: string) returns (result: Option<Bits>)
    ensures result == Sextets(text)
    ensures result.None? <==> exists c <- text :: !InAlphabet(c)
  {
    var bits: Bits := [];
    for k := 0 to |text|
      invariant Sextets(text[..k]) == Some(bits)
      invariant forall c <- text[..k] :: InAlphabet(c)
    {
      var index := AlphabetIndex(text[k]);
      IndexMeansInAlphabet(text[k]);
      if index < 0 {
        BadCharacter(text, k);
        return None;
      }
      assert text[..k + 1][..k] == text[..k];
      bits := bits + ToBits(index, 6);
    }
    assert text[..|text|] == text;
    return Some(bits);
  }

  method CutIntoBytes(bits: Bits) returns (bytes: seq<nat>)
    ensures bytes == Octets(bits)
  {
    bytes := [];
    var i := 0;
    while i + 8 <= |bits|
      invariant 0 <= i <= |bits|
      invariant bytes + Octets(bits[i..]) == Octets(bits)
    {
      var rest := bits[i..];
      assert rest[..8] == bits[i..i + 8] && rest[8..] == bits[i + 8..];
      bytes := bytes + [FromBits(bits[i..i + 8])];
      i := i + 8;
    }
  }

  lemma {:induction false} BadCharacter(s: string, k: nat)
    requires k < |s| && AlphabetIndex(s[k]) < 0
    ensures Sextets(s).None?
  {
    if k < |s| - 1 {
      BadCharacter(s[..|s| - 1], k);
    }
  }

  // ----- Decoding inverts the encoding -----

  lemma {:induction false} SextetsAppend(s: string, t: string)
    requires Sextets(s).Some? && Sextets(t).Some?
    ensures Sextets(s + t) == Some(Sextets(s).value + Sextets(t).value)
  {
    if t == "" {
      assert s + t == s && Sextets(t) == Some([]);
      assert Sextets(s).value + [] == Sextets(s).value;
    } else {
      var front, last := t[..|t| - 1], CharBits(t[|t| - 1]);
      assert (s + t)[..|s + t| - 1] == s + front && (s + t)[|s + t| - 1] == t[|t| - 1];
      SextetsAppend(s, front);
      Associative(Sextets(s).value, Sextets(front).value, last.value);
    }
  }

  lemma SextetsSnoc(s: string, n: nat)
    requires n < 64 && Sextets(s).Some?
    ensures Sextets(s + [Sextet(n)]) == Some(Sextets(s).value + ToBits(n, 6))
  {
    var t := s + [Sextet(n)];
    assert t[..|t| - 1] == s && t[|t| - 1] == Sextet(n);
    IndexOfSextet(n);
  }

  function ByteBits(bytes: seq<Byte>): Bits {
    if bytes == [] then [] else ToBits(bytes[0], 8) + ByteBits(bytes[1..])
  }

  /** The four sextets of a group carry the bits of its three bytes. */
  lemma GroupOfThree(a: Byte, b: Byte, c: Byte)
    ensures Sextets([Sextet(a / 4), Sextet(a % 4 * 16 + b / 16), Sextet(b % 16 * 4 + c / 64), Sextet(c % 64)])
         == Some(ToBits(a, 8) + ToBits(b, 8) + ToBits(c, 8))
  {
    ThreeBytes(a, a / 4, a % 4, b, b / 16, b % 16, c, c / 64, c % 64);
  }

  lemma GroupOfTwo(a: Byte, b: Byte)
    ensures Sextets([Sextet(a / 4), Sextet(a % 4 * 16 + b / 16), Sextet(b % 16 * 4)])
         == Some(ToBits(a, 8) + ToBits(b, 8) + ToBits(0, 2))
  {
    TwoBytes(a, a / 4, a % 4, b, b / 16, b % 16);
  }

  lemma GroupOfOne(a: Byte)
    ensures Sextets([Sextet(a / 4), Sextet(a % 4 * 16)]) == Some(ToBits(a, 8) + ToBits(0, 4))
  {
    OneByte(a, a / 4, a % 4);
  }

  lemma ThreeBytes(a: Byte, a1: nat, a0: nat, b: Byte, b1: nat, b0: nat, c: Byte, c1: nat, c0: nat)
    requires a0 < 4 && b0 < 16 && c0 < 64 && a == a1 * 4 + a0 && b == b1 * 16 + b0 && c == c1 * 64 + c0
    ensures Sextets([Sextet(a1), Sextet(a0 * 16 + b1), Sextet(b0 * 4 + c1), Sextet(c0)])
         == Some(ToBits(a, 8) + ToBits(b, 8) + ToBits(c, 8))
  {
    FourSextets(a1, a0 * 16 + b1, b0 * 4 + c1, c0);
    BitsOfThree(a, a1, a0, b, b1, b0, c, c1, c0);
  }

  lemma BitsOfThree(a: nat, a1: nat, a0: nat, b: nat, b1: nat, b0: nat, c: nat, c1: nat, c0: nat)
    requires a0 < 4 && b1 < 16 && b0 < 16 && c1 < 4 && c0 < 64 && a == a1 * 4 + a0 && b == b1 * 16 + b0
      && c == c1 * 64 + c0
    ensures ToBits(a1, 6) + ToBits(a0 * 16 + b1, 6) + ToBits(b0 * 4 + c1, 6) + ToBits(c0, 6)
         == ToBits(a, 8) + ToBits(b, 8) + ToBits(c, 8)
  {
    FirstTwo(a, a1, a0, b1);
    MiddleTwo(b, b1, b0, c1);
    LastSextet(c, c1, c0);
    Chain(ToBits(a1, 6), ToBits(a0 * 16 + b1, 6), ToBits(b0 * 4 + c1, 6), ToBits(c0, 6),
          ToBits(a, 8), ToBits(b1, 4), ToBits(b, 8), ToBits(c1, 2), ToBits(c, 8));
  }

  lemma TwoBytes(a: Byte, a1: nat, a0: nat, b: Byte, b1: nat, b0: nat)
    requires a0 < 4 && b0 < 16 && a == a1 * 4 + a0 && b == b1 * 16 + b0
    ensures Sextets([Sextet(a1), Sextet(a0 * 16 + b1), Sextet(b0 * 4)])
         == Some(ToBits(a, 8) + ToBits(b, 8) + ToBits(0, 2))
  {
    ThreeSextets(a1, a0 * 16 + b1, b0 * 4);
    FirstTwo(a, a1, a0, b1);
    MiddleTwo(b, b1, b0, 0);
    Chain(ToBits(a1, 6), ToBits(a0 * 16 + b1, 6), ToBits(b0 * 4, 6), [],
          ToBits(a, 8), ToBits(b1, 4), ToBits(b, 8), ToBits(0, 2), ToBits(0, 2) + []);
  }

  lemma OneByte(a: Byte, a1: nat, a0: nat)
    requires a0 < 4 && a == a1 * 4 + a0
    ensures Sextets([Sextet(a1), Sextet(a0 * 16)]) == Some(ToBits(a, 8) + ToBits(0, 4))
  {
    TwoSextets(a1, a0 * 16);
    FirstTwo(a, a1, a0, 0);
  }

  /** A character that takes the low bits of one byte and the high bits of the next. */
  lemma Straddle(high: nat, w: nat, low: nat, k: nat, p: nat, next: nat, m: nat, q: nat)
    requires p == Pow2(k) && q == Pow2(m) && low < p && next < q
    ensures ToBits(high, w) + ToBits(low * q + next, k + m) == ToBits(high * p + low, w + k) + ToBits(next, m)
  {
    BitsSplit(high, low, w, k);
    BitsSplit(low, next, k, m);
    Associative(ToBits(high, w), ToBits(low, k), ToBits(next, m));
  }

  lemma FirstTwo(a: nat, high: nat, low: nat, next: nat)
    requires a == high * 4 + low && low < 4 && next < 16
    ensures ToBits(high, 6) + ToBits(low * 16 + next, 6) == ToBits(a, 8) + ToBits(next, 4)
  {
    PowersOfTwo();
    Straddle(high, 6, low, 2, 4, next, 4, 16);
  }

  lemma MiddleTwo(b: nat, high: nat, low: nat, next: nat)
    requires b == high * 16 + low && low < 16 && next < 4
    ensures ToBits(high, 4) + ToBits(low * 4 + next, 6) == ToBits(b, 8) + ToBits(next, 2)
  {
    PowersOfTwo();
    Straddle(high, 4, low, 4, 16, next, 2, 4);
  }

  lemma LastSextet(c: nat, high: nat, low: nat)
    requires c == high * 64 + low && low < 64
    ensures ToBits(high, 2) + ToBits(low, 6) == ToBits(c, 8)
  {
    PowersOfTwo();
    BitsSplit(high, low, 2, 6);
  }

  lemma Chain(s0: Bits, s1: Bits, s2: Bits, s3: Bits, a: Bits, b0: Bits, b: Bits, c0: Bits, c: Bits)
    requires s0 + s1 == a + b0 && b0 + s2 == b + c0 && c0 + s3 == c
    ensures s0 + s1 + s2 + s3 == a + b + c
    ensures s0 + s1 + s2 == a + b + c0
  {
    Associative(a, b0, s2);
    Associative(a, b, c0);
    Associative(a + b, c0, s3);
  }

  lemma TwoSextets(n0: nat, n1: nat)
    requires n0 < 64 && n1 < 64
    ensures Sextets([Sextet(n0), Sextet(n1)]) == Some(ToBits(n0, 6) + ToBits(n1, 6))
  {
    SextetsSnoc("", n0);
    assert "" + [Sextet(n0)] == [Sextet(n0)] && [] + ToBits(n0, 6) == ToBits(n0, 6);
    SextetsSnoc([Sextet(n0)], n1);
    assert [Sextet(n0)] + [Sextet(n1)] == [Sextet(n0), Sextet(n1)];
  }

  lemma ThreeSextets(n0: nat, n1: nat, n2: nat)
    requires n0 < 64 && n1 < 64 && n2 < 64
    ensures Sextets([Sextet(n0), Sextet(n1), Sextet(n2)]) == Some(ToBits(n0, 6) + ToBits(n1, 6) + ToBits(n2, 6))
  {
    TwoSextets(n0, n1);
    SextetsSnoc([Sextet(n0), Sextet(n1)], n2);
    assert [Sextet(n0), Sextet(n1)] + [Sextet(n2)] == [Sextet(n0), Sextet(n1), Sextet(n2)];
  }

  lemma FourSextets(n0: nat, n1: nat, n2: nat, n3: nat)
    requires n0 < 64 && n1 < 64 && n2 < 64 && n3 < 64
    ensures Sextets([Sextet(n0), Sextet(n1), Sextet(n2), Sextet(n3)])
         == Some(ToBits(n0, 6) + ToBits(n1, 6) + ToBits(n2, 6) + ToBits(n3, 6))
  {
    var three := [Sextet(n0), Sextet(n1), Sextet(n2)];
    ThreeSextets(n0, n1, n2);
    SextetsSnoc(three, n3);
    assert three + [Sextet(n3)] == [Sextet(n0), Sextet(n1), Sextet(n2), Sextet(n3)];
  }

  lemma PowersOfTwo()
    ensures Pow2(2) == 4 && Pow2(4) == 16 && Pow2(6) == 64 && Pow2(8) == 256
  {
    assert Pow2(2) == 2 * Pow2(1) && Pow2(1) == 2 * Pow2(0);
    assert Pow2(4) == 2 * Pow2(3) && Pow2(3) == 2 * Pow2(2);
    assert Pow2(6) == 2 * Pow2(5) && Pow2(5) == 2 * Pow2(4);
    assert Pow2(8) == 2 * Pow2(7) && Pow2(7) == 2 * Pow2(6);
  }

  /** Without padding, the characters carry the bits of the bytes and fewer than eight zero bits. */
  lemma {:induction false} EncodedBits(bytes: seq<Byte>) returns (rest: Bits)
    ensures Sextets(Encode(bytes, false)) == Some(ByteBits(bytes) + rest) && |rest| < 8
  {
    if |bytes| == 0 {
      rest := [];
      assert Sextets("") == Some([]) && ByteBits(bytes) + [] == [];
    } else if |bytes| == 1 {
      GroupOfOne(bytes[0]);
      rest := ToBits(0, 4);
      Encode1(bytes);
    } else if |bytes| == 2 {
      GroupOfTwo(bytes[0], bytes[1]);
      rest := ToBits(0, 2);
      Encode2(bytes);
    } else {
      rest := EncodedBits(bytes[3..]);
      var group, bits := FirstGroup(bytes);
      JoinGroups(group, bits, Encode(bytes[3..], false), ByteBits(bytes[3..]), rest);
    }
  }

  lemma FirstGroup(bytes: seq<Byte>) returns (group: string, bits: Bits)
    requires |bytes| >= 3
    ensures Encode(bytes, false) == group + Encode(bytes[3..], false) && Sextets(group) == Some(bits)
    ensures ByteBits(bytes) == bits + ByteBits(bytes[3..])
  {
    group := Group(bytes);
    bits := ToBits(bytes[0], 8) + ToBits(bytes[1], 8) + ToBits(bytes[2], 8);
    ByteBits3(bytes);
    GroupOfThree(bytes[0], bytes[1], bytes[2]);
  }

  lemma JoinGroups(group: string, bits: Bits, tail: string, tailBits: Bits, rest: Bits)
    requires Sextets(group) == Some(bits) && Sextets(tail) == Some(tailBits + rest)
    ensures Sextets(group + tail) == Some(bits + tailBits + rest)
  {
    SextetsAppend(group, tail);
    Associative(bits, tailBits, rest);
  }

  function Group(bytes: seq<Byte>): string
    requires |bytes| >= 3
  {
    [ Sextet(bytes[0] / 4), Sextet(bytes[0] % 4 * 16 + bytes[1] / 16),
      Sextet(bytes[1] % 16 * 4 + bytes[2] / 64), Sextet(bytes[2] % 64) ]
  }

  lemma Encode1(bytes: seq<Byte>)
    requires |bytes| == 1
    ensures Encode(bytes, false) == [Sextet(bytes[0] / 4), Sextet(bytes[0] % 4 * 16)]
    ensures ByteBits(bytes) == ToBits(bytes[0], 8)
  {
    assert ByteBits(bytes[1..]) == [];
  }

  lemma Encode2(bytes: seq<Byte>)
    requires |bytes| == 2
    ensures Encode(bytes, false)
         == [Sextet(bytes[0] / 4), Sextet(bytes[0] % 4 * 16 + bytes[1] / 16), Sextet(bytes[1] % 16 * 4)]
    ensures ByteBits(bytes) == ToBits(bytes[0], 8) + ToBits(bytes[1], 8)
  {
    assert ByteBits(bytes[1..][1..]) == [];
    assert ByteBits(bytes[1..]) == ToBits(bytes[1], 8) + [];
  }

  lemma ByteBits3(bytes: seq<Byte>)
    requires |bytes| >= 3
    ensures ByteBits(bytes) == ToBits(bytes[0], 8) + ToBits(bytes[1], 8) + ToBits(bytes[2], 8) + ByteBits(bytes[3..])
  {
    assert bytes[1..][1..] == bytes[2..] && bytes[2..][1..] == bytes[3..];
    assert ByteBits(bytes[2..]) == ToBits(bytes[2], 8) + ByteBits(bytes[3..]);
    assert ByteBits(bytes[1..]) == ToBits(bytes[1], 8) + ByteBits(bytes[2..]);
  }

  lemma FirstOctet(first: Bits, more: Bits, rest: Bits)
    requires |first| == 8
    ensures (first + more + rest)[..8] == first && (first + more + rest)[8..] == more + rest
  {
  }

  lemma {:induction false} OctetsOfBytes(bytes: seq<Byte>, rest: Bits)
    requires |rest| < 8
    ensures Octets(ByteBits(bytes) + rest) == bytes
  {
    if bytes == [] {
      assert ByteBits(bytes) + rest == rest;
    } else {
      var bits := ByteBits(bytes) + rest;
      PowersOfTwo();
      BitsRoundTrip(bytes[0], 8);
      FirstOctet(ToBits(bytes[0], 8), ByteBits(bytes[1..]), rest);
      OctetsOfBytes(bytes[1..], rest);
    }
  }

  lemma {:induction false} PaddingStrips(bytes: seq<Byte>, padded: bool)
    ensures StripPadding(Encode(bytes, padded)) == Encode(bytes, false)
  {
    if |bytes| == 1 {
      Encode1(bytes);
      var bare := Encode(bytes, false);
      StripPaddingAppend(bare, if padded then "==" else "");
      assert "=="[..1] == "=" && "="[..0] == "" && bare + "" == bare;
    } else if |bytes| == 2 {
      Encode2(bytes);
      var bare := Encode(bytes, false);
      StripPaddingAppend(bare, if padded then "=" else "");
      assert "="[..0] == "" && bare + "" == bare;
    } else if |bytes| > 2 {
      PaddingStrips(bytes[3..], padded);
      StripPaddingAppend(Group(bytes), Encode(bytes[3..], padded));
    }
  }

  lemma {:induction false} StripPaddingAppend(s: string, t: string)
    requires s != "" && s[|s| - 1] != '='
    ensures StripPadding(s + t) == s + StripPadding(t)
  {
    if t != "" && t[|t| - 1] == '=' {
      assert (s + t)[..|s + t| - 1] == s + t[..|t| - 1];
      StripPaddingAppend(s, t[..|t| - 1]);
    } else if t == "" {
      assert s + t == s;
    }
  }

  /** Every byte string comes back from its encoding, padded or not, whatever its length. */
  lemma DecodeOfEncode(bytes: seq<Byte>, padded: bool)
    ensures DecodeSpec(Encode(bytes, padded)) == Some(bytes)
  {
    PaddingStrips(bytes, padded);
    var rest := EncodedBits(bytes);
    OctetsOfBytes(bytes, rest);
  }
}
