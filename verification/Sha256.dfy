/** src/core/auth_rbac.c, the SHA-256 and HMAC half: the streaming context proved to
    compute the hash of FIPS 180-4 for every way of cutting the message into updates. */
module Sha256 {
  import opened Text
  import opened Padding
  import opened Words

  // ----- FIPS 180-4, sections 4.1.2, 4.2.2, 5.3.3 and 6.2.2 ---------------------------

  datatype Vars = Vars(a: bv32, b: bv32, c: bv32, d: bv32, e: bv32, f: bv32, g: bv32, h: bv32)

  const H0 := Vars(0x6a09e667, 0xbb67ae85, 0x3c6ef372, 0xa54ff53a, 0x510e527f, 0x9b05688c, 0x1f83d9ab, 0x5be0cd19)

  function KRow(r: nat): (row: seq<bv32>)
    ensures |row| == 8
  {
    if r == 0 then [0x428a2f98, 0x71374491, 0xb5c0fbcf, 0xe9b5dba5, 0x3956c25b, 0x59f111f1, 0x923f82a4, 0xab1c5ed5]
    else if r == 1 then [0xd807aa98, 0x12835b01, 0x243185be, 0x550c7dc3, 0x72be5d74, 0x80deb1fe, 0x9bdc06a7, 0xc19bf174]
    else if r == 2 then [0xe49b69c1, 0xefbe4786, 0x0fc19dc6, 0x240ca1cc, 0x2de92c6f, 0x4a7484aa, 0x5cb0a9dc, 0x76f988da]
    else if r == 3 then [0x983e5152, 0xa831c66d, 0xb00327c8, 0xbf597fc7, 0xc6e00bf3, 0xd5a79147, 0x06ca6351, 0x14292967]
    else if r == 4 then [0x27b70a85, 0x2e1b2138, 0x4d2c6dfc, 0x53380d13, 0x650a7354, 0x766a0abb, 0x81c2c92e, 0x92722c85]
    else if r == 5 then [0xa2bfe8a1, 0xa81a664b, 0xc24b8b70, 0xc76c51a3, 0xd192e819, 0xd6990624, 0xf40e3585, 0x106aa070]
    else if r == 6 then [0x19a4c116, 0x1e376c08, 0x2748774c, 0x34b0bcb5, 0x391c0cb3, 0x4ed8aa4a, 0x5b9cca4f, 0x682e6ff3]
    else [0x748f82ee, 0x78a5636f, 0x84c87814, 0x8cc70208, 0x90befffa, 0xa4506ceb, 0xbef9a3f7, 0xc67178f2]
  }

  function K(t: nat): bv32
    requires t < 64
  {
    KRow(t / 8)[t % 8]
  }

  function Rotr(x: bv32, n: bv32): bv32
    requires n <= 32
  {
    (x >> n) | (x << (32 - n))
  }

  function BigSigma0(x: bv32): bv32 { Rotr(x, 2) ^ Rotr(x, 13) ^ Rotr(x, 22) }
  function BigSigma1(x: bv32): bv32 { Rotr(x, 6) ^ Rotr(x, 11) ^ Rotr(x, 25) }
  function SmallSigma0(x: bv32): bv32 { Rotr(x, 7) ^ Rotr(x, 18) ^ (x >> 3) }
  function SmallSigma1(x: bv32): bv32 { Rotr(x, 17) ^ Rotr(x, 19) ^ (x >> 10) }

  /** The message schedule. */
  function W(block: Block, t: nat): bv32 {
    if t < 16 then BigEndianWord(block[4 * t], block[4 * t + 1], block[4 * t + 2], block[4 * t + 3])
    else Sum4(SmallSigma1(W(block, t - 2)), W(block, t - 7), SmallSigma0(W(block, t - 15)), W(block, t - 16))
  }

  lemma FirstWords(block: Block, t: nat)
    requires t < 16
    ensures W(block, t) == BigEndianWord(block[4 * t], block[4 * t + 1], block[4 * t + 2], block[4 * t + 3])
  {
    hide BigEndianWord;
  }

  lemma LaterWords(block: Block, t: nat)
    requires t >= 16
    ensures W(block, t) == Sum4(W(block, t - 16), SmallSigma0(W(block, t - 15)), W(block, t - 7), SmallSigma1(W(block, t - 2)))
  {
    hide SmallSigma0, SmallSigma1, Sum4;
    Sum4Reversed(SmallSigma1(W(block, t - 2)), W(block, t - 7), SmallSigma0(W(block, t - 15)), W(block, t - 16));
  }

  function Round(v: Vars, k: bv32, w: bv32): Vars {
    var t1 := Add(Sum4(v.h, BigSigma1(v.e), Ch(v.e, v.f, v.g), k), w);
    var t2 := Add(BigSigma0(v.a), Maj(v.a, v.b, v.c));
    Vars(Add(t1, t2), v.a, v.b, v.c, Add(v.d, t1), v.e, v.f, v.g)
  }

  /** The working variables after `t` rounds. */
  function After(v: Vars, block: Block, t: nat): Vars
    requires t <= 64
  {
    if t == 0 then v else Round(After(v, block, t - 1), K(t - 1), W(block, t - 1))
  }

  function Plus(u: Vars, v: Vars): Vars {
    Vars(Add(u.a, v.a), Add(u.b, v.b), Add(u.c, v.c), Add(u.d, v.d),
         Add(u.e, v.e), Add(u.f, v.f), Add(u.g, v.g), Add(u.h, v.h))
  }

  function Compress(v: Vars, block: Block): Vars {
    Plus(v, After(v, block, 64))
  }

  function Digest(v: Vars): (r: seq<byte>)
    ensures |r| == 32
  {
    BytesOf(v.a) + BytesOf(v.b) + BytesOf(v.c) + BytesOf(v.d) + BytesOf(v.e) + BytesOf(v.f) + BytesOf(v.g) + BytesOf(v.h)
  }

  /** The chaining value after all blocks of `m`. */
  ghost function Chain(m: seq<byte>): Vars
    requires |m| % BLOCK == 0
    decreases |m|
  {
    BlockLess(|m|);
    if m == [] then H0 else Compress(Chain(m[..|m| - BLOCK]), m[|m| - BLOCK..])
  }

  lemma ChainSnoc(m: seq<byte>, b: Block)
    requires |m| % BLOCK == 0
    ensures Chain(m + b) == Compress(Chain(m), b)
  {
    hide Compress;
    assert (m + b)[..|m|] == m && (m + b)[|m|..] == b;
  }

  ghost function Hash(m: seq<byte>): (r: seq<byte>)
    ensures |r| == 32
  {
    Digest(Chain(Padded(m)))
  }

  // ----- the streaming context --------------------------------------------------------

  function VarsOf(s: seq<bv32>): Vars
    requires |s| == 8
  {
    Vars(s[0], s[1], s[2], s[3], s[4], s[5], s[6], s[7])
  }

  class Context {
    const state: array<bv32>
    const data: array<byte>
    var bitlen: nat
    var datalen: nat
    /** Everything absorbed so far. */
    ghost var msg: seq<byte>

    ghost predicate Shape()
      reads this
    {
      state.Length == 8 && data.Length == BLOCK
    }

    ghost predicate Valid()
      reads this, state, data
    {
      && Shape()
      && VarsOf(state[..]) == Chain(Whole(msg))
      && datalen == |Rest(msg)| && data[..datalen] == Rest(msg)
      && bitlen == BitLength(|Whole(msg)|)
    }

    /** sha256_init */
    constructor ()
      ensures Valid() && msg == [] && fresh(state) && fresh(data)
    {
      hide Compress, Be64, Chain, Whole, Rest, BitLength;
      EmptyMessage();
      state := new bv32[8] [0x6a09e667, 0xbb67ae85, 0x3c6ef372, 0xa54ff53a, 0x510e527f, 0x9b05688c, 0x1f83d9ab, 0x5be0cd19];
      data := new byte[BLOCK](_ => 0);
      bitlen, datalen, msg := 0, 0, [];
    }

    /** sha256_transform on the data buffer. */
    method Transform()
      requires Shape()
      modifies state
      ensures VarsOf(state[..]) == Compress(old(VarsOf(state[..])), data[..])
    {
      hide After, W, Add;
      var v := VarsOf(state[..]);
      var m := Schedule(data[..]);
      var r := Rounds(m, data[..], v);
      state[0], state[1], state[2], state[3] := Add(v.a, r.a), Add(v.b, r.b), Add(v.c, r.c), Add(v.d, r.d);
      state[4], state[5], state[6], state[7] := Add(v.e, r.e), Add(v.f, r.f), Add(v.g, r.g), Add(v.h, r.h);
    }

    /** The 64 words of the schedule, summed in the order of the code. */
    static method Schedule(block: Block) returns (m: array<bv32>)
      ensures fresh(m) && m.Length == 64
      ensures forall t | 0 <= t < 64 :: m[t] == W(block, t)
    {
      hide W, BigEndianWord, SmallSigma0, SmallSigma1, Sum4;
      m := new bv32[64](_ => 0);
      for i := 0 to 16
        invariant forall t | 0 <= t < i :: m[t] == W(block, t)
      {
        FirstWords(block, i);
        m[i] := BigEndianWord(block[4 * i], block[4 * i + 1], block[4 * i + 2], block[4 * i + 3]);
      }
      for i := 16 to 64
        invariant forall t | 0 <= t < i :: m[t] == W(block, t)
      {
        LaterWords(block, i);
        m[i] := Sum4(m[i - 16], SmallSigma0(m[i - 15]), m[i - 7], SmallSigma1(m[i - 2]));
      }
    }

    /** The 64 rounds. */
    static method Rounds(m: array<bv32>, ghost block: Block, v: Vars) returns (r: Vars)
      requires m.Length == 64 && forall t | 0 <= t < 64 :: m[t] == W(block, t)
      ensures r == After(v, block, 64)
    {
      hide K, W, BigSigma0, BigSigma1, Ch, Maj, Add, Sum4;
      var a, b, c, d, e, f, g, h := v.a, v.b, v.c, v.d, v.e, v.f, v.g, v.h;
      for i := 0 to 64
        invariant Vars(a, b, c, d, e, f, g, h) == After(v, block, i)
      {
        assert After(v, block, i + 1) == Round(Vars(a, b, c, d, e, f, g, h), K(i), m[i]);
        var t1 := Add(Sum4(h, BigSigma1(e), Ch(e, f, g), K(i)), m[i]);
        var t2 := Add(BigSigma0(a), Maj(a, b, c));
        h, g, f, e := g, f, e, Add(d, t1);
        d, c, b, a := c, b, a, Add(t1, t2);
      }
      r := Vars(a, b, c, d, e, f, g, h);
    }

    /** One byte of sha256_update. */
    method Absorb(x: byte)
      requires Valid()
      modifies this`bitlen, this`datalen, this`msg, state, data
      ensures Valid() && msg == old(msg) + [x]
    {
      hide Compress, Whole, Rest, VarsOf, Chain, BitLength;
      ghost var m := msg;
      RestSnoc(m, x);
      data[datalen] := x;
      assert data[..datalen + 1] == Rest(m) + [x];
      datalen := datalen + 1;
      msg := m + [x];
      if datalen == BLOCK {
        assert data[..] == Rest(m) + [x];
        ChainSnoc(Whole(m), data[..]);
        Transform();
        OneMoreBlock(|Whole(m)|);
        bitlen := (bitlen + 512) % WORD64;
        datalen := 0;
      }
    }

    /** sha256_update: absorbing a chunk appends it to the message, so any way of cutting
        a message into chunks is the same. */
    method Update(chunk: seq<byte>)
      requires Valid()
      modifies this`bitlen, this`datalen, this`msg, state, data
      ensures Valid() && msg == old(msg) + chunk
    {
      hide Compress, Whole, Rest, VarsOf, Chain;
      for i := 0 to |chunk|
        invariant Valid() && msg == old(msg) + chunk[..i]
      {
        Absorb(chunk[i]);
        assert chunk[..i + 1] == chunk[..i] + [chunk[i]];
      }
      assert chunk[..|chunk|] == chunk;
    }

    /** The zero fill of sha256_final behind the 0x80 byte. */
    method Fill(top: nat)
      requires Shape() && datalen < top <= BLOCK
      modifies data
      ensures data[..top] == old(data[..datalen]) + [0x80] + Zeros(top - 1 - datalen)
    {
      var i := datalen;
      data[i] := 0x80;
      i := i + 1;
      while i < top
        invariant datalen < i <= top
        invariant data[..i] == old(data[..datalen]) + [0x80] + Zeros(i - 1 - datalen)
      {
        data[i] := 0x00;
        i := i + 1;
      }
    }

    /** The length bytes of sha256_final, last byte first. */
    method StoreLength()
      requires Shape()
      modifies data
      ensures data[..] == old(data[..56]) + Be64(bitlen)
    {
      hide Octet;
      StoreLow();
      ghost var low := data[60..];
      data[59] := Octet(bitlen, 0x1_0000_0000);
      data[58] := Octet(bitlen, 0x100_0000_0000);
      data[57] := Octet(bitlen, 0x1_0000_0000_0000);
      data[56] := Octet(bitlen, 0x100_0000_0000_0000);
      assert data[..56] == old(data[..56]) && data[60..] == low;
      assert data[56..60] == Be64(bitlen)[..4];
      assert data[..] == data[..56] + data[56..60] + data[60..];
    }

    method StoreLow()
      requires Shape()
      modifies data
      ensures data[..60] == old(data[..60]) && data[60..] == Be64(bitlen)[4..]
    {
      hide Octet;
      data[63] := Octet(bitlen, 1);
      data[62] := Octet(bitlen, 0x100);
      data[61] := Octet(bitlen, 0x1_0000);
      data[60] := Octet(bitlen, 0x100_0000);
    }

    /** The one or two fills of sha256_final: how far the hash has come and what stands in
        front of the length. */
    method Pad() returns (ghost done: seq<byte>, ghost front: seq<byte>)
      requires Valid()
      modifies state, data
      ensures Shape() && |done| % BLOCK == 0 && VarsOf(state[..]) == Chain(done)
      ensures data[..56] == front && Padded(msg) == done + (front + Be64(BitLength(|msg|)))
    {
      hide Compress, Whole, Rest, VarsOf, Chain, Be64, BitLength, Padded;
      ghost var r := Rest(msg);
      LastBlocks(msg);
      if datalen < 56 {
        Fill(56);
        done, front := Whole(msg), r + [0x80] + Zeros(55 - |r|);
        return;
      }
      Fill(64);
      ghost var block := r + [0x80] + Zeros(63 - |r|);
      assert data[..] == data[..64] == block;
      Transform();
      ChainSnoc(Whole(msg), block);
      ClearFront();
      done, front := Whole(msg) + block, Zeros(56);
    }

    /** memset of the first 56 bytes. */
    method ClearFront()
      requires Shape()
      modifies data
      ensures data[..56] == Zeros(56)
    {
      for i := 0 to 56
        invariant data[..i] == Zeros(i)
      {
        data[i] := 0;
      }
    }

    /** sha256_final */
    method Final() returns (hash: seq<byte>)
      requires Valid()
      modifies this`bitlen, state, data
      ensures hash == Hash(old(msg)) && |hash| == 32
    {
      hide Compress, Whole, Rest, VarsOf, Chain, Be64, BitLength, Padded, Digest, Zeros;
      ghost var done, front := Pad();
      bitlen := (bitlen + datalen * 8) % WORD64;
      LengthAdds(msg);
      StoreLength();
      assert data[..] == front + Be64(BitLength(|msg|));
      ChainSnoc(done, data[..]);
      Transform();
      hash := Output();
    }

    method Output() returns (hash: seq<byte>)
      requires Shape()
      ensures hash == Digest(VarsOf(state[..]))
    {
      hash := [];
      hide ByteAt, BytesOf;
      for k := 0 to 8
        invariant |hash| == 4 * k
        invariant forall i | 0 <= i < k :: hash[4 * i..4 * i + 4] == BytesOf(state[i])
      {
        ghost var before := hash;
        hash := hash + BytesOf(state[k]);
        assert forall i | 0 <= i < k :: hash[4 * i..4 * i + 4] == before[4 * i..4 * i + 4];
        assert hash[4 * k..4 * k + 4] == BytesOf(state[k]);
      }
      assert hash == hash[0..4] + hash[4..8] + hash[8..12] + hash[12..16] + hash[16..20] + hash[20..24] + hash[24..28] + hash[28..32];
    }
  }

  lemma EmptyMessage()
    ensures Whole([]) == [] && Rest([]) == [] && Chain([]) == H0 && BitLength(0) == 0
  {
    hide Compress, Chain;
    NoBlocks();
  }

  lemma NoBlocks()
    ensures Chain([]) == H0
  {
    hide Compress, Whole, Rest;
  }

  lemma OneMoreBlock(len: nat)
    ensures (BitLength(len) + 512) % WORD64 == BitLength(len + BLOCK)
  {}

  lemma LengthAdds(m: seq<byte>)
    ensures (BitLength(|Whole(m)|) + |Rest(m)| * 8) % WORD64 == BitLength(|m|)
  {
    hide Whole, Rest;
    assert |m| == |Whole(m) + Rest(m)|;
    ModSum(8 * |Whole(m)|, |Rest(m)| * 8, WORD64);
  }

  // ----- HMAC, section 2 of RFC 2104 ----------------------------------------------------

  function Masked(k: seq<byte>, mask: bv8): (r: seq<byte>)
    ensures |r| == |k|
  {
    seq(|k|, i requires 0 <= i < |k| => MaskedByte(k[i], mask))
  }

  function MaskedByte(b: byte, mask: bv8): byte {
    ((b as bv8) ^ mask) as int
  }

  /** Long keys are hashed first; the key then fills a block. */
  ghost function BlockKey(key: seq<byte>): (k: seq<byte>)
    ensures |k| == BLOCK
  {
    if |key| > BLOCK then Hash(key) + Zeros(32) else key + Zeros(BLOCK - |key|)
  }

  ghost function Hmac(key: seq<byte>, text: seq<byte>): (r: seq<byte>)
    ensures |r| == 32
  {
    Hash(Masked(BlockKey(key), 0x5c) + Hash(Masked(BlockKey(key), 0x36) + text))
  }

  /** One context fed with two chunks. */
  method HashTwo(a: seq<byte>, b: seq<byte>) returns (h: seq<byte>)
    ensures h == Hash(a + b) && |h| == 32
  {
    hide Hash, Chain, VarsOf, Whole, Rest, BitLength;
    var ctx := new Context();
    ctx.Update(a);
    assert [] + a == a;
    ctx.Update(b);
    h := ctx.Final();
  }

  /** The 64-byte key buffer of hmac_sha256. */
  method PrepareKey(key: seq<byte>) returns (k: array<byte>)
    ensures fresh(k) && k.Length == BLOCK && k[..] == BlockKey(key)
  {
    hide Hash;
    k := new byte[BLOCK](_ => 0);
    var src := key;
    if |key| > BLOCK {
      src := HashTwo(key, []);
      assert key + [] == key;
    }
    for i := 0 to |src|
      invariant k[..i] == src[..i]
      invariant forall j | i <= j < BLOCK :: k[j] == 0
    {
      k[i] := src[i];
    }
    assert k[..] == src + Zeros(BLOCK - |src|);
  }

  method Mask(k: array<byte>, mask: bv8) returns (r: seq<byte>)
    ensures r == Masked(k[..], mask)
  {
    hide MaskedByte;
    var out := new byte[k.Length](_ => 0);
    for i := 0 to k.Length
      invariant forall j | 0 <= j < i :: out[j] == MaskedByte(k[j], mask)
    {
      out[i] := MaskedByte(k[i], mask);
    }
    r := out[..];
  }

  /** hmac_sha256 */
  method HmacSha256(key: seq<byte>, text: seq<byte>) returns (mac: seq<byte>)
    ensures mac == Hmac(key, text) && |mac| == 32
  {
    hide Hash, Masked, BlockKey;
    var k := PrepareKey(key);
    var oKey := Mask(k, 0x5c);
    var iKey := Mask(k, 0x36);
    var inner := HashTwo(iKey, text);
    mac := HashTwo(oKey, inner);
  }
}
