/** Decimal and hexadecimal text, as `strconv` and `encoding/hex` print and read it. */
module Numerals {
  import opened Text

  type Byte = x: int | 0 <= x < 256

  const INT64_MIN := -0x8000_0000_0000_0000
  const INT64_MAX := 0x7fff_ffff_ffff_ffff

  predicate IsInt64(n: int) {
    INT64_MIN <= n <= INT64_MAX
  }

  // ---- Decimal ----

  predicate IsDigit(c: char) {
    '0' <= c <= '9'
  }

  function DigitChar(d: nat): (c: char)
    requires d < 10
    ensures IsDigit(c)
  {
    '0' + d as char
  }

  function DigitValue(c: char): nat
    requires IsDigit(c)
  {
    (c - '0') as nat
  }

  function FormatNat(n: nat): (s: string)
    ensures s != "" && forall i :: 0 <= i < |s| ==> IsDigit(s[i])
  {
    if n < 10 then [DigitChar(n)] else FormatNat(n / 10) + [DigitChar(n % 10)]
  }

  function FormatInt(n: int): string {
    if n < 0 then "-" + FormatNat(-n) else FormatNat(n)
  }

  function ParseNat(s: string): Option<nat> {
    if s == "" then None
    else
      var n := |s| - 1;
      if !IsDigit(s[n]) then None
      else if n == 0 then Some(DigitValue(s[0]))
      else
        match ParseNat(s[..n])
        case Some(m) => Some(10 * m + DigitValue(s[n]))
        case None => None
  }

  /** An optional sign and digits, refused outside the 64-bit range. */
  function ParseInt(s: string): Option<int> {
    var signed := s != "" && (s[0] == '-' || s[0] == '+');
    match ParseNat(if signed then s[1..] else s)
    case None => None
    case Some(m) =>
      var n: int := if signed && s[0] == '-' then 0 - m as int else m as int;
      if IsInt64(n) then Some(n) else None
  }

  lemma {:induction false} NatRoundTrip(n: nat)
    ensures ParseNat(FormatNat(n)) == Some(n)
  {
    if n >= 10 {
      NatRoundTrip(n / 10);
      var s := FormatNat(n / 10) + [DigitChar(n % 10)];
      assert s[..|s| - 1] == FormatNat(n / 10);
    }
  }

  lemma NegativeRoundTrip(n: int)
    requires INT64_MIN <= n < 0
    ensures ParseInt(FormatInt(n)) == Some(n)
  {
    var digits, s := FormatNat(-n), FormatInt(n);
    NatRoundTrip(-n);
    assert s[0] == '-' && s[1..] == digits;
    assert ParseNat(s[1..]) == Some(-n);
  }

  /** Printing and reading a 64-bit integer is the identity. */
  lemma IntRoundTrip(n: int)
    requires IsInt64(n)
    ensures ParseInt(FormatInt(n)) == Some(n)
  {
    if n < 0 {
      NegativeRoundTrip(n);
    } else {
      NatRoundTrip(n);
      assert IsDigit(FormatNat(n)[0]);
    }
  }

  lemma FormatInjective(m: int, n: int)
    requires IsInt64(m) && IsInt64(n) && FormatInt(m) == FormatInt(n)
    ensures m == n
  {
    IntRoundTrip(m);
    IntRoundTrip(n);
  }

  predicate NumeralChar(c: char) {
    IsDigit(c) || c == '-' || c == '+'
  }

  ghost predicate OnlyNumeral(s: string) {
    forall i :: 0 <= i < |s| ==> NumeralChar(s[i])
  }

  lemma FormatIsNumeral(n: int)
    ensures FormatInt(n) != "" && OnlyNumeral(FormatInt(n))
  {
  }

  lemma {:induction false} ParsedNatIsDigits(s: string)
    requires ParseNat(s).Some?
    ensures forall i :: 0 <= i < |s| ==> IsDigit(s[i])
  {
    var n := |s| - 1;
    if n > 0 {
      ParsedNatIsDigits(s[..n]);
      assert s == s[..n] + [s[n]];
    }
  }

  /** Whatever the reader accepts holds no separator. */
  lemma ParsedIsNumeral(s: string)
    requires ParseInt(s).Some?
    ensures OnlyNumeral(s)
  {
    var signed := s[0] == '-' || s[0] == '+';
    ParsedNatIsDigits(if signed then s[1..] else s);
    if signed {
      assert s == [s[0]] + s[1..];
    }
  }

  // ---- Hexadecimal ----

  function HexChar(d: nat): char
    requires d < 16
  {
    if d < 10 then '0' + d as char else 'a' + (d - 10) as char
  }

  function HexValue(c: char): Option<nat> {
    if '0' <= c <= '9' then Some((c - '0') as nat)
    else if 'a' <= c <= 'f' then Some((c - 'a') as nat + 10)
    else if 'A' <= c <= 'F' then Some((c - 'A') as nat + 10)
    else None
  }

  function HexEncode(bytes: seq<Byte>): (s: string)
    ensures |s| == 2 * |bytes| && forall i :: 0 <= i < |s| ==> HexValue(s[i]).Some?
  {
    if bytes == [] then "" else [HexChar(bytes[0] / 16), HexChar(bytes[0] % 16)] + HexEncode(bytes[1..])
  }

  function HexDecode(s: string): Option<seq<Byte>> {
    if s == "" then Some([])
    else if |s| == 1 then None
    else
      match (HexValue(s[0]), HexValue(s[1]), HexDecode(s[2..]))
      case (Some(h), Some(l), Some(rest)) => if 16 * h + l < 256 then Some([16 * h + l] + rest) else None
      case _ => None
  }

  lemma {:induction false} HexRoundTrip(bytes: seq<Byte>)
    ensures HexDecode(HexEncode(bytes)) == Some(bytes)
  {
    if bytes != [] {
      HexRoundTrip(bytes[1..]);
      var s := HexEncode(bytes);
      assert s[2..] == HexEncode(bytes[1..]);
      assert bytes == [bytes[0]] + bytes[1..];
      assert HexValue(s[0]) == Some(bytes[0] / 16) && HexValue(s[1]) == Some(bytes[0] % 16);
    }
  }

  // ---- What the texts mean ----

  function PowerOfTen(k: nat): (p: nat)
    ensures p > 0
  {
    if k == 0 then 1 else 10 * PowerOfTen(k - 1)
  }

  /** The number a string of digits stands for, by the place of each. */
  function Positional(s: string): int {
    if s == "" then 0 else (s[0] as int - '0' as int) * PowerOfTen(|s| - 1) + Positional(s[1..])
  }

  ghost predicate AllDigits(s: string) {
    forall i :: 0 <= i < |s| ==> '0' <= s[i] <= '9'
  }

  lemma {:induction false} OneMorePlace(s: string, c: char)
    ensures Positional(s + [c]) == 10 * Positional(s) + (c as int - '0' as int)
  {
    if s == "" {
      assert (s + [c])[1..] == "" && PowerOfTen(0) == 1;
    } else {
      assert (s + [c])[1..] == s[1..] + [c];
      OneMorePlace(s[1..], c);
      assert PowerOfTen(|s|) == 10 * PowerOfTen(|s| - 1);
    }
  }

  /** A natural number is read from a non-empty string of digits, and is what they stand for. */
  lemma {:induction false} NatReadExactly(s: string)
    ensures ParseNat(s).Some? <==> s != "" && AllDigits(s)
    ensures ParseNat(s).Some? ==> ParseNat(s).value == Positional(s)
  {
    if s != "" {
      var n := |s| - 1;
      assert s == s[..n] + [s[n]];
      NatReadExactly(s[..n]);
      OneMorePlace(s[..n], s[n]);
    }
  }

  /** An integer is read from digits with at most one sign before them, when it fits in 64 bits. */
  lemma IntReadExactly(s: string, n: int)
    ensures ParseInt(s) == Some(n) <==>
              && -0x8000_0000_0000_0000 <= n < 0x8000_0000_0000_0000
              && exists digits: string ::
                   && digits != "" && AllDigits(digits)
                   && (if s == "-" + digits then n == -Positional(digits)
                       else n == Positional(digits) && (s == digits || s == "+" + digits))
  {
    var signed := s != "" && (s[0] == '-' || s[0] == '+');
    var digits := if signed then s[1..] else s;
    NatReadExactly(digits);
    assert signed ==> s == [s[0]] + digits;
    if ParseInt(s) == Some(n) {
      assert digits != "" && AllDigits(digits);
    }
    forall d: string | d != "" && AllDigits(d) && (s == d || s == "+" + d || s == "-" + d) ensures d == digits {
      assert s == d ==> s[0] == d[0];
    }
  }

  /** The digits of a number are those of its decimal expansion, without a leading zero. */
  lemma {:induction false} DigitsExactly(n: nat)
    ensures AllDigits(FormatNat(n)) && Positional(FormatNat(n)) == n
    ensures n > 0 ==> FormatNat(n)[0] != '0'
    ensures n == 0 ==> FormatNat(n) == "0"
  {
    if n >= 10 {
      DigitsExactly(n / 10);
      OneMorePlace(FormatNat(n / 10), DigitChar(n % 10));
    } else {
      assert FormatNat(n)[1..] == "" && PowerOfTen(0) == 1;
    }
  }

  /** An integer is printed as its digits, after a minus sign when it is negative. */
  lemma IntPrintedExactly(n: int)
    ensures exists digits: string ::
              && FormatInt(n) == (if n < 0 then "-" else "") + digits
              && digits != "" && AllDigits(digits) && (digits[0] == '0' ==> digits == "0")
              && n == (if n < 0 then -1 else 1) * Positional(digits)
  {
    var m: nat := if n < 0 then -n else n;
    DigitsExactly(m);
    assert FormatInt(n) == (if n < 0 then "-" else "") + FormatNat(m);
  }

  const HEX := "0123456789abcdef"

  /** Each byte is printed as two lower-case digits. */
  lemma {:induction false} HexPrintedExactly(bytes: seq<Byte>, i: nat)
    requires i < |bytes|
    ensures HexEncode(bytes)[2 * i] == HEX[bytes[i] / 16] && HexEncode(bytes)[2 * i + 1] == HEX[bytes[i] % 16]
  {
    var rest := HexEncode(bytes[1..]);
    if i > 0 {
      HexPrintedExactly(bytes[1..], i - 1);
      assert HexEncode(bytes)[2 * i] == rest[2 * (i - 1)] && HexEncode(bytes)[2 * i + 1] == rest[2 * (i - 1) + 1];
    } else {
      HexDigits(bytes[0] / 16);
      HexDigits(bytes[0] % 16);
    }
  }

  lemma HexDigits(d: nat)
    requires d < 16
    ensures HexChar(d) == HEX[d] && HexValue(HexChar(d)) == Some(d)
  {
  }

  ghost predicate AllHex(s: string) {
    forall i :: 0 <= i < |s| ==> '0' <= s[i] <= '9' || 'a' <= s[i] <= 'f' || 'A' <= s[i] <= 'F'
  }

  lemma HexCharRead(c: char)
    ensures HexValue(c).Some? <==> '0' <= c <= '9' || 'a' <= c <= 'f' || 'A' <= c <= 'F'
    ensures HexValue(c).Some? ==> HexValue(c).value < 16 && HexChar(HexValue(c).value) == LowerChar(c)
  {
  }

  lemma ByteOf(h: nat, l: nat)
    requires h < 16 && l < 16
    ensures (16 * h + l) / 16 == h && (16 * h + l) % 16 == l
  {
  }

  lemma AllHexSplits(s: string)
    requires |s| >= 2
    ensures AllHex(s) <==> HexValue(s[0]).Some? && HexValue(s[1]).Some? && AllHex(s[2..])
    ensures Lower(s) == [LowerChar(s[0]), LowerChar(s[1])] + Lower(s[2..])
  {
    HexCharRead(s[0]);
    HexCharRead(s[1]);
    assert s == [s[0], s[1]] + s[2..];
  }

  /** Bytes are read from pairs of digits in either case, and printing them gives the text back in lower case. */
  lemma {:induction false} HexReadExactly(s: string)
    ensures HexDecode(s).Some? <==> |s| % 2 == 0 && AllHex(s)
    ensures HexDecode(s).Some? ==> HexEncode(HexDecode(s).value) == Lower(s)
  {
    if |s| >= 2 {
      HexReadExactly(s[2..]);
      AllHexSplits(s);
      if HexDecode(s).Some? {
        HexCharRead(s[0]);
        HexCharRead(s[1]);
        ByteOf(HexValue(s[0]).value, HexValue(s[1]).value);
        var bytes := HexDecode(s).value;
        assert bytes[1..] == HexDecode(s[2..]).value;
      }
    }
  }
}
