/** src/core/auth_rbac.c and src/host/ws_stream.c, the base64 codecs, against sections 4
    and 5 of RFC 4648: six-bit digits of a byte string, and the bytes back. */
module Base64 {
  import opened Text

  type sextet = d: int | 0 <= d < 64

  const DECODE_BUF: nat := 512

  // ----- digits -----------------------------------------------------------------------

  /** Bytes behind the end count as 0. */
  function ByteOr0(b: seq<byte>, i: nat): byte {
    if i < |b| then b[i] else 0
  }

  function DigitCount(n: nat): nat {
    (4 * n + 2) / 3
  }

  // How three bytes x, y, z make four digits, and four digits make three bytes.
  function First(x: int): int { x / 4 }
  function Second(x: int, y: int): int { x % 4 * 16 + y / 16 }
  function Third(y: int, z: int): int { y % 16 * 4 + z / 64 }
  function Fourth(z: int): int { z % 64 }
  function Byte0(d: int, e: int): int { d * 4 + e / 16 }
  function Byte1(e: int, f: int): int { e % 16 * 16 + f / 4 }
  function Byte2(f: int, g: int): int { f % 4 * 64 + g }

  lemma GroupRoundTrip(x: byte, y: byte, z: byte)
    ensures Byte0(First(x), Second(x, y)) == x
    ensures Byte1(Second(x, y), Third(y, z)) == y
    ensures Byte2(Third(y, z), Fourth(z)) == z
  {}

  function DigitAt(b: seq<byte>, j: nat): sextet {
    var g := j / 4 * 3;
    if j % 4 == 0 then First(ByteOr0(b, g))
    else if j % 4 == 1 then Second(ByteOr0(b, g), ByteOr0(b, g + 1))
    else if j % 4 == 2 then Third(ByteOr0(b, g + 1), ByteOr0(b, g + 2))
    else Fourth(ByteOr0(b, g + 2))
  }

  function Digits(b: seq<byte>): (d: seq<sextet>)
    ensures |d| == DigitCount(|b|)
  {
    seq(DigitCount(|b|), j requires 0 <= j < DigitCount(|b|) => DigitAt(b, j))
  }

  function ByteCount(n: nat): nat {
    n * 3 / 4
  }

  function ByteAt(d: seq<sextet>, k: nat): byte
    requires k < ByteCount(|d|)
  {
    var g := k / 3 * 4;
    if k % 3 == 0 then Byte0(d[g], d[g + 1])
    else if k % 3 == 1 then Byte1(d[g + 1], d[g + 2])
    else Byte2(d[g + 2], d[g + 3])
  }

  function Bytes(d: seq<sextet>): (b: seq<byte>)
    ensures |b| == ByteCount(|d|)
  {
    seq(ByteCount(|d|), k requires 0 <= k < ByteCount(|d|) => ByteAt(d, k))
  }

  /** The digits determine the bytes. */
  lemma DigitsRoundTrip(b: seq<byte>)
    ensures Bytes(Digits(b)) == b
  {
    var d := Digits(b);
    assert ByteCount(DigitCount(|b|)) == |b|;
    forall k | 0 <= k < |b| ensures ByteAt(d, k) == b[k] {
      ByteFromDigits(b, k);
    }
  }

  /** The digits of the q-th group. */
  lemma GroupAt(b: seq<byte>, q: nat)
    ensures DigitAt(b, 4 * q) == First(ByteOr0(b, 3 * q))
    ensures DigitAt(b, 4 * q + 1) == Second(ByteOr0(b, 3 * q), ByteOr0(b, 3 * q + 1))
    ensures DigitAt(b, 4 * q + 2) == Third(ByteOr0(b, 3 * q + 1), ByteOr0(b, 3 * q + 2))
    ensures DigitAt(b, 4 * q + 3) == Fourth(ByteOr0(b, 3 * q + 2))
  {
    hide ByteOr0, First, Second, Third, Fourth;
    assert (4 * q) / 4 == q && (4 * q + 1) / 4 == q && (4 * q + 2) / 4 == q && (4 * q + 3) / 4 == q;
    assert (4 * q) % 4 == 0 && (4 * q + 1) % 4 == 1 && (4 * q + 2) % 4 == 2 && (4 * q + 3) % 4 == 3;
  }

  lemma ByteFromDigits(b: seq<byte>, k: nat)
    requires k < |b|
    ensures k < ByteCount(|Digits(b)|) && ByteAt(Digits(b), k) == b[k]
  {
    hide First, Second, Third, Fourth, Byte0, Byte1, Byte2, DigitAt;
    var q, r, d := k / 3, k % 3, Digits(b);
    assert k == 3 * q + r;
    assert 4 * q + r + 1 < DigitCount(|b|);
    GroupAt(b, q);
    GroupRoundTrip(ByteOr0(b, 3 * q), ByteOr0(b, 3 * q + 1), ByteOr0(b, 3 * q + 2));
    assert d[4 * q + r] == DigitAt(b, 4 * q + r) && d[4 * q + r + 1] == DigitAt(b, 4 * q + r + 1);
  }

  // ----- alphabets --------------------------------------------------------------------

  function CharFrom(base: char, d: int): char
    requires 0 <= d < 26
    requires base as int < 128
  {
    (base as int + d) as char
  }

  function AlphaChar(d: sextet): char
    requires d < 62
  {
    if d < 26 then CharFrom('A', d) else if d < 52 then CharFrom('a', d - 26) else CharFrom('0', d - 52)
  }

  /** Table 1 of RFC 4648. */
  function StdChar(d: sextet): char {
    if d < 62 then AlphaChar(d) else if d == 62 then '+' else '/'
  }

  /** Table 2 of RFC 4648, safe in URLs and cookies. */
  function UrlChar(d: sextet): char {
    if d < 62 then AlphaChar(d) else if d == 62 then '-' else '_'
  }

  /** b64_decode_char: either alphabet. */
  function DecodeChar(c: char): Option<sextet> {
    if 'A' <= c <= 'Z' then Some(c as int - 'A' as int)
    else if 'a' <= c <= 'z' then Some(c as int - 'a' as int + 26)
    else if '0' <= c <= '9' then Some(c as int - '0' as int + 52)
    else if c == '+' || c == '-' then Some(62)
    else if c == '/' || c == '_' then Some(63)
    else None
  }

  lemma CharsDecode(d: sextet)
    ensures DecodeChar(StdChar(d)) == Some(d) && DecodeChar(UrlChar(d)) == Some(d)
    ensures StdChar(d) != '=' && UrlChar(d) != '=' && UrlChar(d) != '.' && UrlChar(d) != '\0'
    ensures UrlChar(d) as int < 128
  {}

  lemma UpperAre(d: nat)
    requires d < 26
    ensures CharFrom('A', d) == "ABCDEFGHIJKLMNOPQRSTUVWXYZ"[d] && CharFrom('a', d) == "abcdefghijklmnopqrstuvwxyz"[d]
  {}

  /** The alphabets as the standard prints them. */
  lemma AlphabetIs(d: sextet)
    ensures d < 26 ==> StdChar(d) == UrlChar(d) == "ABCDEFGHIJKLMNOPQRSTUVWXYZ"[d]
    ensures 26 <= d < 52 ==> StdChar(d) == UrlChar(d) == "abcdefghijklmnopqrstuvwxyz"[d - 26]
    ensures 52 <= d < 62 ==> StdChar(d) == UrlChar(d) == "0123456789"[d - 52]
    ensures d == 62 ==> StdChar(d) == '+' && UrlChar(d) == '-'
    ensures d == 63 ==> StdChar(d) == '/' && UrlChar(d) == '_'
  {
    hide CharFrom;
    if d < 26 {
      UpperAre(d);
    } else if d < 52 {
      UpperAre(d - 26);
    } else if d < 62 {
      DecimalsAre(d - 52);
    }
  }

  lemma DecimalsAre(d: nat)
    requires d < 10
    ensures CharFrom('0', d) == "0123456789"[d]
  {}

  function Spell(d: seq<sextet>, url: bool): (s: string)
    ensures |s| == |d|
  {
    seq(|d|, j requires 0 <= j < |d| => if url then UrlChar(d[j]) else StdChar(d[j]))
  }

  function Equals(n: nat): (s: string)
    ensures |s| == n
  {
    seq(n, _ => '=')
  }

  /** Padding to a multiple of four characters. */
  function PadCount(digits: nat): nat {
    (4 - digits % 4) % 4
  }

  /** Section 4 with padding, section 5 without. */
  function EncodeSpec(b: seq<byte>, url: bool): string {
    if url then Spell(Digits(b), true) else Spell(Digits(b), false) + Equals(PadCount(|Digits(b)|))
  }

  /** The leading characters that spell digits, or None if a stray one comes before the
      first '='. */
  function ReadDigits(s: string): (r: Option<seq<sextet>>)
    ensures r.Some? ==> |r.value| <= |s|
  {
    if s == "" || s[0] == '=' then Some([])
    else match DecodeChar(s[0])
         case None => None
         case Some(d) => (match ReadDigits(s[1..])
                          case None => None
                          case Some(ds) => Some([d] + ds))
  }

  /** What the whole text reads as, after its first digits. */
  function After(ds: seq<sextet>, rest: Option<seq<sextet>>): Option<seq<sextet>> {
    if rest.Some? then Some(ds + rest.value) else None
  }

  function Decoded(ds: Option<seq<sextet>>, outSz: nat): Option<seq<byte>> {
    match ds
    case None => None
    case Some(d) => if ByteCount(|d|) > outSz then None else Some(Bytes(d))
  }

  /** Padding is optional; 508 characters are too many for the stack buffer. */
  function DecodeSpec(s: string, outSz: nat): Option<seq<byte>> {
    if |s| >= DECODE_BUF - 4 then None else Decoded(ReadDigits(s), outSz)
  }

  predicate InAlphabets(c: char) {
    'A' <= c <= 'Z' || 'a' <= c <= 'z' || '0' <= c <= '9' || c == '+' || c == '/' || c == '-' || c == '_'
  }

  ghost predicate AllIn(f: string) {
    forall i | 0 <= i < |f| :: InAlphabets(f[i])
  }

  lemma AllInCons(c: char, g: string)
    ensures AllIn([c] + g) <==> InAlphabets(c) && AllIn(g)
  {
    hide InAlphabets;
    assert forall i | 0 <= i < |g| :: ([c] + g)[i + 1] == g[i];
    if AllIn([c] + g) { assert InAlphabets(([c] + g)[0]); }
  }

  lemma {:induction false} ReadsAlphabet(s: string)
    ensures ReadDigits(s).Some? <==> AllIn(FirstPiece(s, '='))
    ensures ReadDigits(s).Some? ==> |ReadDigits(s).value| == |FirstPiece(s, '=')|
  {
    if s != "" && s[0] != '=' {
      hide FirstPiece, FromChar, ReadDigits, AllIn, InAlphabets;
      ReadsAlphabet(s[1..]);
      PieceStep(s, '=');
      ReadStep(s);
      AllInCons(s[0], FirstPiece(s[1..], '='));
    } else {
      assert FirstPiece(s, '=') == "";
    }
  }

  lemma ReadStep(s: string)
    requires s != "" && s[0] != '='
    ensures ReadDigits(s).Some? <==> InAlphabets(s[0]) && ReadDigits(s[1..]).Some?
    ensures ReadDigits(s).Some? ==> |ReadDigits(s).value| == 1 + |ReadDigits(s[1..]).value|
  {}

  /** Decoding succeeds exactly for fewer than 508 characters of the two alphabets up to the
      first equals sign, if the bytes fit. */
  lemma DecodesIff(s: string, outSz: nat)
    ensures DecodeSpec(s, outSz).Some?
       <==> |s| < 508 && (forall i | 0 <= i < |FirstPiece(s, '=')| :: InAlphabets(FirstPiece(s, '=')[i]))
            && |FirstPiece(s, '=')| * 3 / 4 <= outSz
  {
    hide FirstPiece, ReadDigits;
    ReadsAlphabet(s);
  }

  /** Section 4 of RFC 4648: three bytes and the four digits made of them are the same 24-bit
      number, bytes behind the end counting as 0. */
  lemma GroupIsNumber(b: seq<byte>, q: nat)
    ensures DigitAt(b, 4 * q) * 0x4_0000 + DigitAt(b, 4 * q + 1) * 0x1000 + DigitAt(b, 4 * q + 2) * 0x40 + DigitAt(b, 4 * q + 3)
         == ByteOr0(b, 3 * q) * 0x1_0000 + ByteOr0(b, 3 * q + 1) * 0x100 + ByteOr0(b, 3 * q + 2)
  {
    hide DigitAt, ByteOr0;
    GroupAt(b, q);
  }

  /** Padded text comes in fours, with none, two or one equals sign at the end. */
  lemma PaddingIs(b: seq<byte>)
    ensures |EncodeSpec(b, false)| == (|b| + 2) / 3 * 4
    ensures EncodeSpec(b, false)
         == Spell(Digits(b), false) + if |b| % 3 == 0 then "" else if |b| % 3 == 1 then "==" else "="
  {
    var n, q, r := DigitCount(|b|), |b| / 3, |b| % 3;
    assert n == 4 * q + (if r == 0 then 0 else r + 1);
    assert PadCount(n) == if r == 0 then 0 else 3 - r;
  }

  lemma {:induction false} ReadSpelled(d: seq<sextet>, url: bool, pad: nat)
    ensures ReadDigits(Spell(d, url) + Equals(pad)) == Some(d)
  {
    var s := Spell(d, url) + Equals(pad);
    if d == [] {
      assert s == Equals(pad);
    } else {
      CharsDecode(d[0]);
      assert s[0] == if url then UrlChar(d[0]) else StdChar(d[0]);
      assert s[1..] == Spell(d[1..], url) + Equals(pad);
      ReadSpelled(d[1..], url, pad);
      assert d == [d[0]] + d[1..];
    }
  }

  /** Base64url text is read back exactly when the bytes number at most 380 and fit the
      output buffer; it holds no '.', '=' or NUL. */
  lemma UrlRoundTrip(b: seq<byte>, outSz: nat)
    ensures DecodeSpec(EncodeSpec(b, true), outSz) == Some(b) <==> |b| <= 380 && |b| <= outSz
    ensures forall c | c in EncodeSpec(b, true) :: c != '.' && c != '=' && c != '\0' && c as int < 128
  {
    var d := Digits(b);
    assert Spell(d, true) + Equals(0) == Spell(d, true);
    ReadSpelled(d, true, 0);
    DigitsRoundTrip(b);
    forall c | c in Spell(d, true) ensures c != '.' && c != '=' && c != '\0' && c as int < 128 {
      var j :| 0 <= j < |d| && Spell(d, true)[j] == c;
      CharsDecode(d[j]);
    }
  }

  // ----- the encoder --------------------------------------------------------------------

  /** in[i] << 16 | in[i + 1] << 8 | in[i + 2] */
  function Word24(x: int, y: int, z: int): int {
    x * 0x1_0000 + y * 0x100 + z
  }

  /** The digits cut out of the 24-bit number. */
  lemma WordDigits(x: byte, y: byte, z: byte)
    ensures Word24(x, y, z) / 0x4_0000 % 64 == First(x) && Word24(x, y, z) / 0x1000 % 64 == Second(x, y)
    ensures Word24(x, y, z) / 0x40 % 64 == Third(y, z) && Word24(x, y, z) % 64 == Fourth(z)
    ensures Word24(x, y, z) >= 0
  {
    var n := Word24(x, y, z);
    HighDigits(x, y, z, n);
    LowDigits(x, y, z, n);
  }

  lemma HighDigits(x: int, y: int, z: int, n: int)
    requires 0 <= x < 256 && 0 <= y < 256 && 0 <= z < 256 && n == x * 0x1_0000 + y * 0x100 + z
    ensures n / 0x4_0000 % 64 == x / 4 && n / 0x1000 % 64 == x % 4 * 16 + y / 16
  {
    Remainder(n, x / 4, 0x4_0000, x % 4 * 0x1_0000 + y * 0x100 + z);
    Remainder(n, x * 16 + y / 16, 0x1000, y % 16 * 0x100 + z);
    Remainder(x / 4, 0, 64, x / 4);
    Remainder(x * 16 + y / 16, x / 4, 64, x % 4 * 16 + y / 16);
  }

  lemma LowDigits(x: int, y: int, z: int, n: int)
    requires 0 <= x < 256 && 0 <= y < 256 && 0 <= z < 256 && n == x * 0x1_0000 + y * 0x100 + z
    ensures n / 0x40 % 64 == y % 16 * 4 + z / 64 && n % 64 == z % 64
  {
    Remainder(n, x * 0x400 + y * 4 + z / 64, 0x40, z % 64);
    Remainder(x * 0x400 + y * 4 + z / 64, x * 16 + y / 16, 64, y % 16 * 4 + z / 64);
  }

  /** b64[(n >> shift) & 63] */
  function TableChar(n: nat, power: nat): char
    requires power > 0
  {
    StdChar(n / power % 64)
  }

  function Prefix(b: seq<byte>, n: nat): string {
    seq(n, j requires 0 <= j < n => StdChar(DigitAt(b, j)))
  }

  lemma PrefixMore(b: seq<byte>, n: nat)
    ensures Prefix(b, n + 1) == Prefix(b, n) + [StdChar(DigitAt(b, n))]
  {}

  /** The common part of both b64_encode functions. */
  method EncodeStd(input: seq<byte>) returns (out: string)
    ensures out == EncodeSpec(input, false)
  {
    hide StdChar, DigitAt, First, Second, Third, Fourth, Word24;
    var i := 0;
    out := [];
    while i + 2 < |input|
      invariant i % 3 == 0 && i <= |input| && out == Prefix(input, i / 3 * 4)
    {
      out := WholeGroup(input, i, out);
      assert (i + 3) / 3 * 4 == i / 3 * 4 + 4;
      i := i + 3;
    }
    if i < |input| {
      out := LastGroup(input, i, out);
    } else {
      assert out == Spell(Digits(input), false) + Equals(0);
    }
  }

  /** Three bytes make four characters. */
  method WholeGroup(input: seq<byte>, i: nat, start: string) returns (out: string)
    requires i % 3 == 0 && i + 2 < |input| && start == Prefix(input, i / 3 * 4)
    ensures i / 3 * 4 + 4 <= DigitCount(|input|) && out == Prefix(input, i / 3 * 4 + 4)
  {
    hide StdChar, DigitAt, First, Second, Third, Fourth, Word24;
    ghost var j := i / 3 * 4;
    WordDigits(input[i], input[i + 1], input[i + 2]);
    var n: nat := Word24(input[i], input[i + 1], input[i + 2]);
    GroupAt(input, i / 3);
    PrefixMore(input, j);
    PrefixMore(input, j + 1);
    PrefixMore(input, j + 2);
    PrefixMore(input, j + 3);
    out := start + [TableChar(n, 0x4_0000)];
    out := out + [TableChar(n, 0x1000)];
    out := out + [TableChar(n, 0x40)];
    out := out + [TableChar(n, 1)];
  }

  /** The one or two bytes after the whole groups, with padding. */
  method LastGroup(input: seq<byte>, i: nat, start: string) returns (out: string)
    requires i % 3 == 0 && i < |input| <= i + 2 && start == Prefix(input, i / 3 * 4)
    ensures out == EncodeSpec(input, false)
  {
    hide StdChar, DigitAt, Word24, First, Second, Third, Fourth;
    ghost var j := i / 3 * 4;
    GroupAt(input, i / 3);
    PrefixMore(input, j);
    PrefixMore(input, j + 1);
    PrefixMore(input, j + 2);
    WordDigits(input[i], 0, 0);
    var n: nat := Word24(input[i], 0, 0);
    out := start + [TableChar(n, 0x4_0000)];
    if i + 1 < |input| {
      WordDigits(input[i], input[i + 1], 0);
      n := Word24(input[i], input[i + 1], 0);
      out := out + [TableChar(n, 0x1000)];
      out := out + [TableChar(n, 0x40)];
      assert out == Prefix(input, j + 3) == Spell(Digits(input), false);
      out := out + ['='];
      assert ['='] == Equals(1);
    } else {
      out := out + [TableChar(n, 0x1000)];
      assert out == Prefix(input, j + 2) == Spell(Digits(input), false);
      out := out + ['='];
      out := out + ['='];
      assert ['='] + ['='] == Equals(2);
    }
  }

  /** b64_encode: None if the buffer is too small for the padded form and its NUL. */
  method Encode(input: seq<byte>, outSz: nat, url: bool) returns (r: Option<string>)
    ensures r == if outSz < (|input| + 2) / 3 * 4 + 1 then None else Some(EncodeSpec(input, url))
  {
    hide StdChar, DigitAt, UrlChar;
    if outSz < (|input| + 2) / 3 * 4 + 1 { return None; }
    var out := EncodeStd(input);
    if url {
      out := ToUrl(out, Digits(input));
    }
    r := Some(out);
  }

  /** The in-place rewriting for cookies: other characters for 62 and 63, no padding. */
  method ToUrl(s: string, ghost d: seq<sextet>) returns (out: string)
    requires exists pad :: s == Spell(d, false) + Equals(pad)
    ensures out == Spell(d, true)
  {
    ghost var pad :| s == Spell(d, false) + Equals(pad);
    out := s;
    for i := 0 to |out|
      invariant |out| == |s|
      invariant forall j | 0 <= j < |s| :: out[j] == if j < i && j < |d| then UrlChar(d[j]) else s[j]
    {
      if i < |d| { SwapIs(d[i]); }
      if out[i] == '+' {
        out := out[i := '-'];
      } else if out[i] == '/' {
        out := out[i := '_'];
      }
    }
    while |out| > 0 && out[|out| - 1] == '='
      invariant |d| <= |out| <= |s|
      invariant forall j | 0 <= j < |out| :: out[j] == if j < |d| then UrlChar(d[j]) else '='
    {
      forall j | 0 <= j < |d| ensures UrlChar(d[j]) != '=' { CharsDecode(d[j]); }
      out := out[..|out| - 1];
    }
  }

  lemma SwapIs(d: sextet)
    ensures UrlChar(d) == if StdChar(d) == '+' then '-' else if StdChar(d) == '/' then '_' else StdChar(d)
  {}

  // ----- the decoder --------------------------------------------------------------------

  /** val = (val << 6) + c in 32 bits: whatever the shift pushes out is lost. */
  function ShiftIn(val: nat, c: int): nat {
    (val * 64 + c) % 0x1_0000_0000
  }

  /** (val >> valb) & 0xFF */
  function LowByte(val: nat, valb: nat): byte
    requires valb <= 4
  {
    val / (if valb == 0 then 1 else if valb == 2 then 4 else 16) % 256
  }

  /** The lost bits do not matter: only the last two digits are read. */
  lemma ShiftKeeps(val: nat, e: sextet, c: sextet)
    requires val % 64 == e
    ensures ShiftIn(val, c) % 64 == c
    ensures LowByte(ShiftIn(val, c), 4) == Byte0(e, c)
    ensures LowByte(ShiftIn(val, c), 2) == Byte1(e, c)
    ensures LowByte(ShiftIn(val, c), 0) == Byte2(e, c)
  {
    var v, high := ShiftIn(val, c), val / 64;
    assert val * 64 + c == high * 4096 + (e * 64 + c);
    ModTwice(high, e * 64 + c, v);
    LowBits(v / 4096, e, c, v);
  }

  lemma ModTwice(high: nat, low: nat, v: nat)
    requires low < 4096 && v == (high * 4096 + low) % 0x1_0000_0000
    ensures v == v / 4096 * 4096 + low
  {
    var q := (high * 4096 + low) / 0x1_0000_0000;
    assert v == (high - q * 0x10_0000) * 4096 + low;
  }

  lemma LowBits(q: int, e: sextet, c: sextet, v: nat)
    requires v == q * 4096 + (e * 64 + c)
    ensures v % 64 == c && v % 256 == e % 4 * 64 + c
    ensures v / 4 % 256 == e % 16 * 16 + c / 4 && v / 16 % 256 == e * 4 + c / 16
  {
    Remainder(v, q * 64 + e, 64, c);
    Remainder(v, q * 16 + e / 4, 256, e % 4 * 64 + c);
    Remainder(v, q * 1024 + e * 16 + c / 4, 4, c % 4);
    Remainder(v / 4, q * 4 + e / 16, 256, e % 16 * 16 + c / 4);
    Remainder(v, q * 256 + e * 4 + c / 16, 16, c % 16);
    Remainder(v / 16, q, 256, e * 4 + c / 16);
  }

  /** The first |ds| characters spell ds. */
  predicate Spells(s: string, ds: seq<sextet>) {
    |ds| <= |s| && forall j | 0 <= j < |ds| :: s[j] != '=' && DecodeChar(s[j]) == Some(ds[j])
  }

  lemma {:induction false} ReadPrefix(s: string, ds: seq<sextet>)
    requires Spells(s, ds)
    ensures ReadDigits(s) == After(ds, ReadDigits(s[|ds|..]))
  {
    hide DecodeChar;
    if ds == [] {
      assert s[0..] == s;
      var rest := ReadDigits(s);
      if rest.Some? { assert ds + rest.value == rest.value; }
    } else {
      ReadPrefix(s[1..], ds[1..]);
      assert s[1..][|ds| - 1..] == s[|ds|..];
      var rest := ReadDigits(s[|ds|..]);
      if rest.Some? { assert [ds[0]] + (ds[1..] + rest.value) == ds + rest.value; }
    }
  }

  lemma {:induction false} PaddingIsSilent(s: string, n: nat)
    ensures ReadDigits(s + Equals(n)) == ReadDigits(s)
  {
    if s != "" {
      assert (s + Equals(n))[1..] == s[1..] + Equals(n);
      PaddingIsSilent(s[1..], n);
    }
  }

  lemma CountMore(n: nat)
    ensures ByteCount(n) <= ByteCount(n + 1) <= ByteCount(n) + 1
    ensures ByteCount(n + 1) == ByteCount(n) <==> n % 4 == 0
  {
    var q, r := n / 4, n % 4;
    Remainder(n * 3, q * 3 + r * 3 / 4, 4, r * 3 % 4);
    Remainder((n + 1) * 3, q * 3 + (r + 1) * 3 / 4, 4, (r + 1) * 3 % 4);
  }

  lemma SameByte(ds: seq<sextet>, c: sextet, k: nat)
    requires k < ByteCount(|ds|) <= ByteCount(|ds| + 1)
    ensures ByteAt(ds + [c], k) == ByteAt(ds, k)
  {
    hide Byte0, Byte1, Byte2;
  }

  lemma BytesMore(ds: seq<sextet>, c: sextet)
    ensures ByteCount(|ds|) <= ByteCount(|ds| + 1) <= ByteCount(|ds|) + 1
    ensures ByteCount(|ds| + 1) == ByteCount(|ds|) <==> |ds| % 4 == 0
    ensures ByteCount(|ds| + 1) == ByteCount(|ds|) ==> Bytes(ds + [c]) == Bytes(ds)
    ensures ByteCount(|ds| + 1) == ByteCount(|ds|) + 1 ==>
              Bytes(ds + [c]) == Bytes(ds) + [ByteAt(ds + [c], ByteCount(|ds|))]
  {
    CountMore(|ds|);
    forall k | 0 <= k < ByteCount(|ds|) ensures ByteAt(ds + [c], k) == ByteAt(ds, k) {
      SameByte(ds, c, k);
    }
    hide ByteAt, ByteCount;
  }

  /** The byte a digit completes. */
  lemma CompletedByte(ds: seq<sextet>, c: sextet)
    requires |ds| % 4 != 0
    ensures ByteCount(|ds|) < ByteCount(|ds| + 1)
    ensures |ds| % 4 == 1 ==> ByteAt(ds + [c], ByteCount(|ds|)) == Byte0(ds[|ds| - 1], c)
    ensures |ds| % 4 == 2 ==> ByteAt(ds + [c], ByteCount(|ds|)) == Byte1(ds[|ds| - 1], c)
    ensures |ds| % 4 == 3 ==> ByteAt(ds + [c], ByteCount(|ds|)) == Byte2(ds[|ds| - 1], c)
  {
    hide Byte0, Byte1, Byte2, ByteCount;
    var q, r := |ds| / 4, |ds| % 4;
    CountsAt(q, r);
    Remainder(3 * q + r - 1, q, 3, r - 1);
  }

  lemma CountsAt(q: nat, r: nat)
    requires 1 <= r <= 3
    ensures ByteCount(4 * q + r) == 3 * q + r - 1 && ByteCount(4 * q + r + 1) == 3 * q + r
  {}

  /** What valb is after n digits: six more per digit, eight less per byte. */
  function BitsOpen(n: nat): int {
    6 * n - 8 * ByteCount(n) - 8
  }

  lemma PadCountStep(n: nat)
    requires n % 4 != 0
    ensures PadCount(n + 1) + 1 == PadCount(n)
  {
    var q, r := n / 4, n % 4;
    Remainder(n + 1, if r == 3 then q + 1 else q, 4, if r == 3 then 0 else r + 1);
  }

  /** The copy on the stack, filled up to a multiple of four. */
  method PadCopy(input: string) returns (src: string, ghost pad: nat)
    ensures src == input + Equals(pad)
  {
    hide PadCount;
    src, pad := input, 0;
    while |src| % 4 != 0
      invariant src == input + Equals(pad)
      decreases PadCount(|src|)
    {
      PadCountStep(|src|);
      assert Equals(pad + 1) == Equals(pad) + "=";
      src := src + "=";
      pad := pad + 1;
    }
  }

  /** b64_decode: padding is optional, either alphabet is read. */
  method Decode(input: string, outSz: nat) returns (r: Option<seq<byte>>)
    ensures r == DecodeSpec(input, outSz)
  {
    hide Decoded, ReadDigits;
    if |input| % 4 != 0 && |input| + (4 - |input| % 4) >= DECODE_BUF { return None; }
    if |input| >= DECODE_BUF - 4 { return None; }
    var src, pad := PadCopy(input);
    PaddingIsSilent(input, pad);
    var out := DecodeLoop(src, outSz);
    return out;
  }

  /** How valb follows the digit count. */
  lemma BitsStep(n: nat)
    ensures BitsOpen(0) == -8 && (BitsOpen(n) + 6 >= 0 <==> n % 4 != 0)
    ensures n % 4 != 0 ==> BitsOpen(n) + 6 == 6 - 2 * (n % 4) && BitsOpen(n + 1) == BitsOpen(n) - 2
    ensures n % 4 == 0 ==> BitsOpen(n + 1) == BitsOpen(n) + 6
  {
    var q, r := n / 4, n % 4;
    Remainder(n * 3, q * 3 + r * 3 / 4, 4, r * 3 % 4);
    Remainder((n + 1) * 3, q * 3 + (r + 1) * 3 / 4, 4, (r + 1) * 3 % 4);
  }

  /** Every way the text can go on decodes to more bytes than outSz. */
  lemma TooMany(src: string, ds: seq<sextet>, outSz: nat)
    requires Spells(src, ds) && ByteCount(|ds|) > outSz
    ensures ReadDigits(src).Some? ==> ByteCount(|ReadDigits(src).value|) > outSz
  {
    ReadPrefix(src, ds);
  }

  /** One digit more: the byte it completes is what the shifting gives. */
  lemma DigitStep(ds: seq<sextet>, val: nat, c: sextet)
    requires |ds| % 4 != 0 ==> val % 64 == ds[|ds| - 1]
    ensures ShiftIn(val, c) % 64 == c
    ensures Bytes(ds + [c]) == Bytes(ds) + if |ds| % 4 == 0 then [] else [LowByte(ShiftIn(val, c), 6 - 2 * (|ds| % 4))]
  {
    hide ShiftIn, LowByte, Byte0, Byte1, Byte2, ByteAt;
    BytesMore(ds, c);
    ShiftKeeps(val, val % 64, c);
    if |ds| % 4 != 0 { CompletedByte(ds, c); }
  }

  /** The loop over the padded copy. */
  method DecodeLoop(src: string, outSz: nat) returns (r: Option<seq<byte>>)
    ensures r == Decoded(ReadDigits(src), outSz)
  {
    hide DecodeChar, ByteAt, ShiftIn, LowByte, Bytes, BitsOpen;
    var i, val, valb := 0, 0, -8;
    var out: seq<byte> := [];
    ghost var ds: seq<sextet> := [];
    BitsStep(0);
    while i < |src|
      invariant i == |ds| <= |src| && Spells(src, ds)
      invariant out == Bytes(ds) && |out| <= outSz && valb == BitsOpen(i)
      invariant i > 0 ==> val % 64 == ds[i - 1]
    {
      ReadPrefix(src, ds);
      if src[i] == '=' {
        assert ds + [] == ds;
        return Some(out);
      }
      var c := DecodeChar(src[i]);
      if c.None? { return None; }
      DigitStep(ds, val, c.value);
      BitsStep(i);
      ds := ds + [c.value];
      val, valb := ShiftIn(val, c.value), valb + 6;
      if valb >= 0 {
        if |out| >= outSz {
          TooMany(src, ds, outSz);
          return None;
        }
        out := out + [LowByte(val, valb)];
        valb := valb - 8;
      }
      i := i + 1;
    }
    ReadPrefix(src, ds);
    assert ds + [] == ds;
    r := Some(out);
  }
}
