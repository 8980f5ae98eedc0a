/** Decimal numbers as the C library prints ("%lld") and reads (strtoll) them. */
module Numbers {
  import opened Text

  const INT64_MAX: int := 0x7fff_ffff_ffff_ffff
  const INT64_MIN: int := -0x8000_0000_0000_0000

  predicate IsInt64(n: int) {
    INT64_MIN <= n <= INT64_MAX
  }

  predicate IsDigit(c: char) {
    '0' <= c <= '9'
  }

  /** isspace in the C locale */
  predicate IsBlank(c: char) {
    c == ' ' || '\t' <= c <= '\r'
  }

  function DigitChar(d: int): char
    requires 0 <= d < 10
  {
    ('0' as int + d) as char
  }

  predicate AllDigits(s: string) {
    forall i | 0 <= i < |s| :: IsDigit(s[i])
  }

  function Spelled(n: nat): (s: string)
    ensures s != "" && AllDigits(s)
  {
    if n < 10 then [DigitChar(n)] else Spelled(n / 10) + [DigitChar(n % 10)]
  }

  function Decimal(n: int): (s: string)
    ensures s != "" && (s[0] == '-' || IsDigit(s[0]))
    ensures AllDigits(s[1..])
  {
    if n < 0 then "-" + Spelled(-n) else Spelled(n)
  }

  function DigitValue(c: char): nat
    requires IsDigit(c)
  {
    c as int - '0' as int
  }

  function NatOf(d: string): nat
    requires AllDigits(d)
  {
    if d == "" then 0 else NatOf(d[..|d| - 1]) * 10 + DigitValue(d[|d| - 1])
  }

  /** The number of leading digits. */
  function DigitRun(s: string): (n: nat)
    ensures n <= |s| && AllDigits(s[..n]) && (n < |s| ==> !IsDigit(s[n]))
  {
    if s != "" && IsDigit(s[0]) then 1 + DigitRun(s[1..]) else 0
  }

  function SkipBlanks(s: string): (r: string)
    ensures |r| <= |s| && s[|s| - |r|..] == r
  {
    if s != "" && IsBlank(s[0]) then SkipBlanks(s[1..]) else s
  }

  function Saturate(n: int): int {
    if n > INT64_MAX then INT64_MAX else if n < INT64_MIN then INT64_MIN else n
  }

  lemma SaturateKeeps(n: int)
    requires IsInt64(n)
    ensures Saturate(n) == n
  {}

  function Signed(v: int, negative: bool): int {
    if negative then -v else v
  }

  datatype Number = Number(value: int, rest: string)

  predicate HasSign(s: string) {
    s != "" && (s[0] == '-' || s[0] == '+')
  }

  /** strtoll in base 10, behind the blanks and the sign. */
  function Unsigned(d: string, negative: bool): Option<Number> {
    var n := DigitRun(d);
    if n == 0 then None
    else
      var v := NatOf(d[..n]);
      Some(Number(Saturate(Signed(v, negative)), d[n..]))
  }

  /** strtoll in base 10: None when no digit follows the blanks and the sign. */
  function StrToLL(s: string): Option<Number> {
    var t := SkipBlanks(s);
    if HasSign(t) then Unsigned(t[1..], t[0] == '-') else Unsigned(t, false)
  }

  lemma {:induction false} SpelledValue(n: nat)
    ensures NatOf(Spelled(n)) == n
  {
    if n < 10 {
      assert [DigitChar(n)][..0] == "";
    } else {
      SpelledValue(n / 10);
      assert Spelled(n)[..|Spelled(n)| - 1] == Spelled(n / 10);
    }
  }

  lemma {:induction false} RunOf(d: string, tail: string)
    requires AllDigits(d)
    requires tail == "" || !IsDigit(tail[0])
    ensures DigitRun(d + tail) == |d|
  {
    if d == "" {
      assert d + tail == tail;
    } else {
      assert (d + tail)[1..] == d[1..] + tail;
      RunOf(d[1..], tail);
    }
  }

  lemma ReadSpelled(n: nat, negative: bool, tail: string)
    requires tail == "" || !IsDigit(tail[0])
    ensures Unsigned(Spelled(n) + tail, negative) == Some(Number(Saturate(Signed(n, negative)), tail))
  {
    hide Spelled, NatOf, DigitRun;
    var d := Spelled(n);
    SpelledValue(n);
    RunOf(d, tail);
    assert (d + tail)[..|d|] == d && (d + tail)[|d|..] == tail;
  }

  lemma NoBlank(s: string)
    requires s != "" && !IsBlank(s[0])
    ensures SkipBlanks(s) == s
  {}

  lemma DecimalIs(n: int)
    ensures Decimal(n) == if n < 0 then "-" + Spelled(-n) else Spelled(n)
  {}

  /** A printed 64-bit number is read back, up to the first character that is no digit. */
  lemma DecimalRoundTrip(n: int, tail: string)
    requires IsInt64(n) && (tail == "" || !IsDigit(tail[0]))
    ensures StrToLL(Decimal(n) + tail) == Some(Number(n, tail))
  {
    hide Spelled, Unsigned, Saturate, IsInt64, Decimal, SkipBlanks;
    SaturateKeeps(n);
    var s := Decimal(n) + tail;
    assert s[0] == Decimal(n)[0];
    NoBlank(s);
    DecimalIs(n);
    if n < 0 {
      ReadSpelled(-n, true, tail);
      assert s[1..] == Spelled(-n) + tail;
    } else {
      ReadSpelled(n, false, tail);
      assert IsDigit(Spelled(n)[0]);
    }
  }

  function Pow10(k: nat): nat {
    if k == 0 then 1 else 10 * Pow10(k - 1)
  }

  lemma {:induction false} SpelledLength(n: nat, k: nat)
    requires n < Pow10(k) && k > 0
    ensures |Spelled(n)| <= k
  {
    if n >= 10 {
      assert k > 1 by { assert Pow10(1) == 10 * Pow10(0); }
      SpelledLength(n / 10, k - 1);
    }
  }

  lemma Pow19()
    ensures Pow10(19) == 10_000_000_000_000_000_000
  {
    assert Pow10(4) == 10_000 && Pow10(8) == 100_000_000;
    assert Pow10(12) == 1_000_000_000_000 && Pow10(16) == 10_000_000_000_000_000;
  }

  lemma DecimalLength(n: int)
    requires IsInt64(n)
    ensures |Decimal(n)| <= 20
  {
    Pow19();
    SpelledLength(if n < 0 then -n else n, 19);
  }
}
