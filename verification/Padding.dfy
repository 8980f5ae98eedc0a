/** The padding of SHA-1 and SHA-256 (section 5.1.1 of FIPS 180-4) and how a streaming
    implementation meets it block by block. */
module Padding {
  import opened Text

  const BLOCK: nat := 64
  const WORD64: nat := 0x1_0000_0000_0000_0000

  type Block = b: seq<byte> | |b| == BLOCK witness seq(BLOCK, _ => 0)

  lemma BlockLess(n: nat)
    requires n % BLOCK == 0
    ensures n == 0 || (n >= BLOCK && (n - BLOCK) % BLOCK == 0)
  {
    if n > 0 { Remainder(n - BLOCK, n / BLOCK - 1, BLOCK, 0); }
  }

  function Zeros(n: nat): (z: seq<byte>)
    ensures |z| == n
  {
    seq(n, _ => 0)
  }

  /** (n >> shift) & 0xff, `unit` being 2^shift. */
  function Octet(n: nat, unit: nat): byte
    requires unit > 0
  {
    n / unit % 256
  }

  function Be64(n: nat): (r: seq<byte>)
    ensures |r| == 8
  {
    [Octet(n, 0x100_0000_0000_0000), Octet(n, 0x1_0000_0000_0000), Octet(n, 0x100_0000_0000), Octet(n, 0x1_0000_0000),
     Octet(n, 0x100_0000), Octet(n, 0x1_0000), Octet(n, 0x100), Octet(n, 1)]
  }

  /** The message length in bits, as a 64-bit word. */
  function BitLength(len: nat): nat {
    8 * len % WORD64
  }

  /** The smallest number of zero bytes that lets the length end a block. */
  function ZeroCount(len: nat): nat {
    (119 - len % BLOCK) % BLOCK
  }

  function Suffix(len: nat): (r: seq<byte>)
    ensures |r| == 9 + ZeroCount(len)
  {
    [0x80] + Zeros(ZeroCount(len)) + Be64(BitLength(len))
  }

  lemma PadsToBlock(len: nat)
    ensures (len + 9 + ZeroCount(len)) % BLOCK == 0
  {
    var q, r := len / BLOCK, len % BLOCK;
    if r < 56 {
      assert ZeroCount(len) == 55 - r;
      assert len + 9 + ZeroCount(len) == (q + 1) * BLOCK;
    } else {
      assert ZeroCount(len) == 119 - r;
      assert len + 9 + ZeroCount(len) == (q + 2) * BLOCK;
    }
  }

  function Padded(m: seq<byte>): (p: seq<byte>)
    ensures |p| % BLOCK == 0
  {
    PadsToBlock(|m|);
    m + Suffix(|m|)
  }

  /** The number a byte string stands for, most significant byte first. */
  function Value(b: seq<byte>): nat {
    if b == [] then 0 else Value(b[..|b| - 1]) * 256 + b[|b| - 1]
  }

  lemma ValueSnoc(b: seq<byte>, x: byte)
    ensures Value(b + [x]) == Value(b) * 256 + x
  {
    assert (b + [x])[..|b|] == b;
  }

  function Byte(n: nat): byte {
    n % 256
  }

  lemma Shift(n: nat, n': nat, b: seq<byte>)
    requires n' == n / 256 && Value(b) == n'
    ensures Value(b + [Byte(n)]) == n
  {
    ValueSnoc(b, Byte(n));
  }

  /** The eight bytes stand for the number. */
  lemma Be64Value(n: nat)
    requires n < WORD64
    ensures Value(Be64(n)) == n
  {
    var n7, n6, n5, n4 := n / 0x100, n / 0x1_0000, n / 0x100_0000, n / 0x1_0000_0000;
    var n3, n2, n1 := n / 0x100_0000_0000, n / 0x1_0000_0000_0000, n / 0x100_0000_0000_0000;
    hide Value, Byte;
    Quotients(n);
    Shift(n1, 0, []) by { assert Value([]) == 0 by { EmptyValue(); } }
    Shift(n2, n1, [] + [Byte(n1)]);
    Shift(n3, n2, [] + [Byte(n1)] + [Byte(n2)]);
    Shift(n4, n3, [] + [Byte(n1)] + [Byte(n2)] + [Byte(n3)]);
    Shift(n5, n4, [] + [Byte(n1)] + [Byte(n2)] + [Byte(n3)] + [Byte(n4)]);
    Shift(n6, n5, [] + [Byte(n1)] + [Byte(n2)] + [Byte(n3)] + [Byte(n4)] + [Byte(n5)]);
    Shift(n7, n6, [] + [Byte(n1)] + [Byte(n2)] + [Byte(n3)] + [Byte(n4)] + [Byte(n5)] + [Byte(n6)]);
    Shift(n, n7, [] + [Byte(n1)] + [Byte(n2)] + [Byte(n3)] + [Byte(n4)] + [Byte(n5)] + [Byte(n6)] + [Byte(n7)]);
    assert [] + [Byte(n1)] + [Byte(n2)] + [Byte(n3)] + [Byte(n4)] + [Byte(n5)] + [Byte(n6)] + [Byte(n7)] + [Byte(n)]
        == [Byte(n1), Byte(n2), Byte(n3), Byte(n4), Byte(n5), Byte(n6), Byte(n7), Byte(n)];
    OctetsAre(n);
  }

  lemma OctetsAre(n: nat)
    ensures Be64(n) == [Byte(n / 0x100_0000_0000_0000), Byte(n / 0x1_0000_0000_0000), Byte(n / 0x100_0000_0000),
                        Byte(n / 0x1_0000_0000), Byte(n / 0x100_0000), Byte(n / 0x1_0000), Byte(n / 0x100), Byte(n)]
  {}

  lemma Twice(n: nat, u: nat)
    requires u > 0
    ensures n / u / 0x100 == n / (u * 0x100)
  {
    var q, r, rest := n / u / 0x100, n / u % 0x100, n % u;
    Spread(q, r, u);
    Remainder(n, q, u * 0x100, r * u + rest) by {
      assert n == (q * 0x100 + r) * u + rest;
    }
  }

  lemma Spread(q: nat, r: nat, u: nat)
    requires r < 0x100
    ensures (q * 0x100 + r) * u == q * (u * 0x100) + r * u && r * u <= u * 0x100 - u
  {
    assert q * 0x100 * u == q * (u * 0x100);
    assert (0xff - r) * u >= 0;
    assert (0xff - r) * u == 0xff * u - r * u;
  }

  lemma Quotients(n: nat)
    requires n < WORD64
    ensures n / 0x100_0000_0000_0000 / 0x100 == 0
    ensures n / 0x1_0000_0000_0000 / 0x100 == n / 0x100_0000_0000_0000
    ensures n / 0x100_0000_0000 / 0x100 == n / 0x1_0000_0000_0000
    ensures n / 0x1_0000_0000 / 0x100 == n / 0x100_0000_0000
    ensures n / 0x100_0000 / 0x100 == n / 0x1_0000_0000
    ensures n / 0x1_0000 / 0x100 == n / 0x100_0000
    ensures n / 0x100 / 0x100 == n / 0x1_0000
  {
    Twice(n, 0x100_0000_0000_0000);
    Twice(n, 0x1_0000_0000_0000);
    Twice(n, 0x100_0000_0000);
    Twice(n, 0x1_0000_0000);
    Twice(n, 0x100_0000);
    Twice(n, 0x1_0000);
    Twice(n, 0x100);
  }

  lemma EmptyValue()
    ensures Value([]) == 0
  {}

  /** Two messages of fewer than 2^61 bytes with the same padded form are the same. */
  lemma PaddingInjective(m: seq<byte>, m': seq<byte>)
    requires |m| < 0x2000_0000_0000_0000 && |m'| < 0x2000_0000_0000_0000
    requires Padded(m) == Padded(m')
    ensures m == m'
  {
    hide Be64, Value, ZeroCount;
    var p, p' := Padded(m), Padded(m');
    assert p[|p| - 8..] == Be64(BitLength(|m|));
    assert p'[|p'| - 8..] == Be64(BitLength(|m'|));
    Be64Value(BitLength(|m|));
    Be64Value(BitLength(|m'|));
    assert m == p[..|m|] && m' == p'[..|m'|];
  }

  /** The whole blocks of a message and what is left over. */
  function Whole(m: seq<byte>): (r: seq<byte>)
    ensures |r| % BLOCK == 0 && |r| == |m| - |m| % BLOCK && r <= m
  {
    m[..|m| - |m| % BLOCK]
  }

  function Rest(m: seq<byte>): (r: seq<byte>)
    ensures |r| == |m| % BLOCK && Whole(m) + r == m
  {
    m[|m| - |m| % BLOCK..]
  }

  lemma RestSnoc(m: seq<byte>, x: byte)
    ensures |Rest(m)| + 1 < BLOCK ==> Whole(m + [x]) == Whole(m) && Rest(m + [x]) == Rest(m) + [x]
    ensures |Rest(m)| + 1 == BLOCK ==> Whole(m + [x]) == Whole(m) + (Rest(m) + [x]) && Rest(m + [x]) == []
  {}

  /** The last one or two blocks of the padded message, built from the left-over bytes. */
  lemma LastBlocks(m: seq<byte>)
    ensures var r, len := Rest(m), Be64(BitLength(|m|));
            if |r| < 56 then
              Padded(m) == Whole(m) + (r + [0x80] + Zeros(55 - |r|) + len)
            else
              Padded(m) == Whole(m) + (r + [0x80] + Zeros(63 - |r|)) + (Zeros(56) + len)
  {
    var r, len := Rest(m), Be64(BitLength(|m|));
    if |r| < 56 {
      assert ZeroCount(|m|) == 55 - |r|;
    } else {
      assert ZeroCount(|m|) == 119 - |r|;
      assert Zeros(119 - |r|) == Zeros(63 - |r|) + Zeros(56);
    }
  }
}
