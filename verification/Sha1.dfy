/** src/host/ws_stream.c, the SHA-1 half: padding is fed through the ordinary update, and
    still every way of cutting the message gives the hash of FIPS 180-4. */
module Sha1 {
  import opened Bits
  import opened Text
  import opened Padding
  import opened Words

  // ----- FIPS 180-4, sections 4.1.1, 4.2.1, 5.3.1 and 6.1.2 ---------------------------

  datatype Vars = Vars(a: bv32, b: bv32, c: bv32, d: bv32, e: bv32)

  const H0 := Vars(0x67452301, 0xefcdab89, 0x98badcfe, 0x10325476, 0xc3d2e1f0)

  function Rotl(x: bv32, n: bv32): bv32
    requires n <= 32
  {
    (x << n) | (x >> (32 - n))
  }

  function Parity(x: bv32, y: bv32, z: bv32): bv32 { x ^ y ^ z }

  function F(t: nat, x: bv32, y: bv32, z: bv32): bv32
    requires t < 80
  {
    if t < 20 then Ch(x, y, z) else if t < 40 then Parity(x, y, z)
    else if t < 60 then Maj(x, y, z) else Parity(x, y, z)
  }

  function K(t: nat): bv32
    requires t < 80
  {
    if t < 20 then 0x5a827999 else if t < 40 then 0x6ed9eba1 else if t < 60 then 0x8f1bbcdc else 0xca62c1d6
  }

  // The selectors of the code.
  function OrCh(b: bv32, c: bv32, d: bv32): bv32 { (b & c) | (!b & d) }
  function OrMaj(b: bv32, c: bv32, d: bv32): bv32 { (b & c) | (b & d) | (c & d) }

  lemma SelectorsAgree(b: bv32, c: bv32, d: bv32)
    ensures OrCh(b, c, d) == Ch(b, c, d)
    ensures OrMaj(b, c, d) == Maj(b, c, d)
  {
    OrSelects(b, c, d);
    OrMajority(b, c, d);
  }

  function Mix(a: bv32, b: bv32, c: bv32, d: bv32): bv32 {
    Rotl(a ^ b ^ c ^ d, 1)
  }

  /** The message schedule. */
  function W(block: Block, t: nat): bv32 {
    if t < 16 then BigEndianWord(block[4 * t], block[4 * t + 1], block[4 * t + 2], block[4 * t + 3])
    else Mix(W(block, t - 3), W(block, t - 8), W(block, t - 14), W(block, t - 16))
  }

  lemma WordAt(block: Block, t: nat)
    ensures t < 16 ==> W(block, t) == BigEndianWord(block[4 * t], block[4 * t + 1], block[4 * t + 2], block[4 * t + 3])
    ensures t >= 16 ==> W(block, t) == Mix(W(block, t - 3), W(block, t - 8), W(block, t - 14), W(block, t - 16))
  {
    hide BigEndianWord, Mix;
  }

  function Round(v: Vars, f: bv32, k: bv32, w: bv32): Vars {
    Vars(Add(Sum4(Rotl(v.a, 5), f, v.e, k), w), v.a, Rotl(v.b, 30), v.c, v.d)
  }

  /** The working variables after `t` rounds. */
  function After(v: Vars, block: Block, t: nat): Vars
    requires t <= 80
  {
    if t == 0 then v
    else var u := After(v, block, t - 1); Round(u, F(t - 1, u.b, u.c, u.d), K(t - 1), W(block, t - 1))
  }

  function Plus(u: Vars, v: Vars): Vars {
    Vars(Add(u.a, v.a), Add(u.b, v.b), Add(u.c, v.c), Add(u.d, v.d), Add(u.e, v.e))
  }

  function Compress(v: Vars, block: Block): Vars {
    Plus(v, After(v, block, 80))
  }

  function Digest(v: Vars): (r: seq<byte>)
    ensures |r| == 20
  {
    BytesOf(v.a) + BytesOf(v.b) + BytesOf(v.c) + BytesOf(v.d) + BytesOf(v.e)
  }

  /** The chaining value after all blocks of `m`. */
  ghost function Chain(m: seq<byte>): Vars
    requires |m| % BLOCK == 0
    decreases |m|
  {
    BlockLess(|m|);
    if m == [] then H0 else Compress(Chain(m[..|m| - BLOCK]), m[|m| - BLOCK..])
  }

  lemma ChainSnoc(m: seq<byte>, b: Block)
    requires |m| % BLOCK == 0
    ensures Chain(m + b) == Compress(Chain(m), b)
  {
    hide Compress;
    assert (m + b)[..|m|] == m && (m + b)[|m|..] == b;
  }

  ghost function Hash(m: seq<byte>): (r: seq<byte>)
    ensures |r| == 20
  {
    Digest(Chain(Padded(m)))
  }

  // ----- the streaming context --------------------------------------------------------

  function VarsOf(s: seq<bv32>): Vars
    requires |s| == 5
  {
    Vars(s[0], s[1], s[2], s[3], s[4])
  }

  class Context {
    const state: array<bv32>
    const buffer: array<byte>
    /** Bytes absorbed, modulo 2^64. */
    var count: nat
    /** Everything absorbed so far. */
    ghost var msg: seq<byte>

    ghost predicate Shape()
      reads this
    {
      state.Length == 5 && buffer.Length == BLOCK
    }

    /** The hash state stands for `m`. */
    ghost predicate Holds(m: seq<byte>)
      reads this, state, buffer
    {
      && Shape()
      && VarsOf(state[..]) == Chain(Whole(m))
      && buffer[..|Rest(m)|] == Rest(m)
    }

    ghost predicate Valid()
      reads this, state, buffer
    {
      Holds(msg) && count == |msg| % WORD64
    }

    /** sha1_init */
    constructor ()
      ensures Valid() && msg == [] && fresh(state) && fresh(buffer)
    {
      hide Compress;
      state := new bv32[5] [0x67452301, 0xefcdab89, 0x98badcfe, 0x10325476, 0xc3d2e1f0];
      buffer := new byte[BLOCK](_ => 0);
      count, msg := 0, [];
    }

    /** sha1_transform on the buffer. */
    method Transform()
      requires Shape()
      modifies state
      ensures VarsOf(state[..]) == Compress(old(VarsOf(state[..])), buffer[..])
    {
      hide After, W, Add;
      var v := VarsOf(state[..]);
      var w := Schedule(buffer[..]);
      var r := Rounds(w, buffer[..], v);
      state[0], state[1], state[2] := Add(v.a, r.a), Add(v.b, r.b), Add(v.c, r.c);
      state[3], state[4] := Add(v.d, r.d), Add(v.e, r.e);
    }

    /** The 80 words of the schedule. */
    static method Schedule(block: Block) returns (w: array<bv32>)
      ensures fresh(w) && w.Length == 80
      ensures forall t | 0 <= t < 80 :: w[t] == W(block, t)
    {
      hide W, BigEndianWord, Mix;
      w := new bv32[80](_ => 0);
      for i := 0 to 16
        invariant forall t | 0 <= t < i :: w[t] == W(block, t)
      {
        WordAt(block, i);
        w[i] := BigEndianWord(block[4 * i], block[4 * i + 1], block[4 * i + 2], block[4 * i + 3]);
      }
      for i := 16 to 80
        invariant forall t | 0 <= t < i :: w[t] == W(block, t)
      {
        WordAt(block, i);
        w[i] := Mix(w[i - 3], w[i - 8], w[i - 14], w[i - 16]);
      }
    }

    /** The function and the constant of round i, as the code selects them. */
    static method Select(i: nat, b: bv32, c: bv32, d: bv32) returns (f: bv32, k: bv32)
      requires i < 80
      ensures f == F(i, b, c, d) && k == K(i)
    {
      hide Ch, Maj, OrCh, OrMaj, Parity;
      SelectorsAgree(b, c, d);
      if i < 20 {
        f, k := OrCh(b, c, d), 0x5a827999;
      } else if i < 40 {
        f, k := Parity(b, c, d), 0x6ed9eba1;
      } else if i < 60 {
        f, k := OrMaj(b, c, d), 0x8f1bbcdc;
      } else {
        f, k := Parity(b, c, d), 0xca62c1d6;
      }
    }

    /** The 80 rounds. */
    static method Rounds(w: array<bv32>, ghost block: Block, v: Vars) returns (r: Vars)
      requires w.Length == 80 && forall t | 0 <= t < 80 :: w[t] == W(block, t)
      ensures r == After(v, block, 80)
    {
      hide F, K, W, Rotl, Add, Sum4;
      var a, b, c, d, e := v.a, v.b, v.c, v.d, v.e;
      for i := 0 to 80
        invariant Vars(a, b, c, d, e) == After(v, block, i)
      {
        var f, k := Select(i, b, c, d);
        assert After(v, block, i + 1) == Round(Vars(a, b, c, d, e), f, k, w[i]);
        var t := Add(Sum4(Rotl(a, 5), f, e, k), w[i]);
        e, d, c, b, a := d, c, Rotl(b, 30), a, t;
      }
      r := Vars(a, b, c, d, e);
    }

    /** sha1_update: absorbing a chunk appends it to the message, so any way of cutting a
        message into chunks is the same. */
    method Update(chunk: seq<byte>)
      requires Valid()
      modifies this`count, this`msg, state, buffer
      ensures Valid() && msg == old(msg) + chunk
    {
      hide Compress, Whole, Rest, VarsOf, Chain;
      ghost var m := msg;
      var idx := count % BLOCK;
      CountMod(|m|);
      count := (count + |chunk|) % WORD64;
      CountAdds(|m|, |chunk|);
      var i := 0;
      assert m + chunk[..0] == m;
      while i < |chunk|
        invariant i <= |chunk| && Holds(m + chunk[..i]) && idx == |Rest(m + chunk[..i])|
        modifies state, buffer
      {
        idx := Absorb(m + chunk[..i], idx, chunk[i]);
        assert m + chunk[..i + 1] == m + chunk[..i] + [chunk[i]];
        i := i + 1;
      }
      assert m + chunk[..i] == m + chunk;
      msg := m + chunk;
    }

    /** One turn of the loop in sha1_update. */
    method Absorb(ghost m: seq<byte>, idx: nat, x: byte) returns (next: nat)
      requires Holds(m) && idx == |Rest(m)|
      modifies state, buffer
      ensures Holds(m + [x]) && next == |Rest(m + [x])|
    {
      hide Compress, Whole, Rest, VarsOf, Chain;
      RestSnoc(m, x);
      buffer[idx] := x;
      assert buffer[..idx + 1] == Rest(m) + [x];
      next := idx + 1;
      if next == BLOCK {
        assert buffer[..] == Rest(m) + [x];
        ChainSnoc(Whole(m), buffer[..]);
        Transform();
        next := 0;
      }
    }

    /** sha1_final */
    method Final() returns (dig: seq<byte>)
      requires Valid()
      modifies this`count, this`msg, state, buffer
      ensures dig == Hash(old(msg)) && |dig| == 20
    {
      hide Compress, Chain, Be64, Digest, VarsOf, Padded;
      ghost var m := msg;
      CountMod(|m|);
      CountBits(|m|);
      var bits, idx := count * 8 % WORD64, count % BLOCK;
      var pad := [0x80] + Zeros((if idx < 56 then 56 - idx else 120 - idx) - 1);
      Update(pad);
      Update(Be64(bits));
      PadIsPadded(m, pad);
      assert Whole(msg) == msg;
      dig := Output();
    }

    method Output() returns (dig: seq<byte>)
      requires Shape()
      ensures dig == Digest(VarsOf(state[..]))
    {
      hide ByteAt, BytesOf;
      dig := [];
      for k := 0 to 5
        invariant |dig| == 4 * k
        invariant forall i | 0 <= i < k :: dig[4 * i..4 * i + 4] == BytesOf(state[i])
      {
        ghost var before := dig;
        dig := dig + BytesOf(state[k]);
        assert forall i | 0 <= i < k :: dig[4 * i..4 * i + 4] == before[4 * i..4 * i + 4];
        assert dig[4 * k..4 * k + 4] == BytesOf(state[k]);
      }
      assert dig == dig[0..4] + dig[4..8] + dig[8..12] + dig[12..16] + dig[16..20];
    }
  }

  lemma CountMod(n: nat)
    ensures n % WORD64 % BLOCK == n % BLOCK
  {
    assert n == n / WORD64 * 0x400_0000_0000_0000 * BLOCK + n % WORD64;
  }

  lemma CountAdds(n: nat, k: nat)
    ensures (n % WORD64 + k) % WORD64 == (n + k) % WORD64
  {
    ModSum(n, k, WORD64);
  }

  lemma CountBits(n: nat)
    ensures n % WORD64 * 8 % WORD64 == BitLength(n)
  {
    assert 8 * n == n / WORD64 * 8 * WORD64 + n % WORD64 * 8;
  }

  /** The two pieces sha1_final feeds in are the suffix SHA-256 writes in place. */
  lemma PadIsPadded(m: seq<byte>, pad: seq<byte>)
    requires var idx := |m| % BLOCK; pad == [0x80] + Zeros((if idx < 56 then 56 - idx else 120 - idx) - 1)
    ensures m + pad + Be64(BitLength(|m|)) == Padded(m)
  {
    hide Be64;
    assert |pad| == 1 + ZeroCount(|m|);
  }
}
