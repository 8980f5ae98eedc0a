/** What the hashes are measured against from outside: where the constants of FIPS 180-4 come
    from, and the digest of "abc" that the standard's examples give for either hash. */
module KnownAnswers {
  import opened Padding
  import opened Text
  import opened Words
  import Sha1
  import Sha256

  // ----- sections 4.2.1, 4.2.2 and 5.3.3: the first bits of fractions of roots ------------------

  /** The number k / 2^32 is the fraction of the cube root of p to 32 bits, n its whole part. */
  predicate CubeRoot(p: nat, n: nat, k: int) {
    var x := n * 0x1_0000_0000 + k;
    x * x * x <= p * 0x1_0000_0000_0000_0000_0000_0000 < (x + 1) * (x + 1) * (x + 1)
  }

  predicate SquareRoot(p: nat, n: nat, k: int) {
    var x := n * 0x1_0000_0000 + k;
    x * x <= p * 0x1_0000_0000_0000_0000 < (x + 1) * (x + 1)
  }

  function PrimeRow(r: nat): (row: seq<nat>)
    ensures |row| == 8
  {
    if r == 0 then [2, 3, 5, 7, 11, 13, 17, 19]
    else if r == 1 then [23, 29, 31, 37, 41, 43, 47, 53]
    else if r == 2 then [59, 61, 67, 71, 73, 79, 83, 89]
    else if r == 3 then [97, 101, 103, 107, 109, 113, 127, 131]
    else if r == 4 then [137, 139, 149, 151, 157, 163, 167, 173]
    else if r == 5 then [179, 181, 191, 193, 197, 199, 211, 223]
    else if r == 6 then [227, 229, 233, 239, 241, 251, 257, 263]
    else [269, 271, 277, 281, 283, 293, 307, 311]
  }

  /** The first 64 primes. */
  function Prime(t: nat): nat
    requires t < 64
  {
    PrimeRow(t / 8)[t % 8]
  }

  function CubeFloor(p: nat): nat {
    if p < 8 then 1 else if p < 27 then 2 else if p < 64 then 3 else if p < 125 then 4 else if p < 216 then 5 else 6
  }

  lemma CubeRoots0(t: nat)
    requires 0 <= t < 4
    ensures CubeRoot(Prime(t), CubeFloor(Prime(t)), Sha256.K(t) as int)
  {}

  lemma CubeRoots1(t: nat)
    requires 4 <= t < 8
    ensures CubeRoot(Prime(t), CubeFloor(Prime(t)), Sha256.K(t) as int)
  {}

  lemma CubeRoots2(t: nat)
    requires 8 <= t < 12
    ensures CubeRoot(Prime(t), CubeFloor(Prime(t)), Sha256.K(t) as int)
  {}

  lemma CubeRoots3(t: nat)
    requires 12 <= t < 16
    ensures CubeRoot(Prime(t), CubeFloor(Prime(t)), Sha256.K(t) as int)
  {}

  lemma CubeRoots4(t: nat)
    requires 16 <= t < 20
    ensures CubeRoot(Prime(t), CubeFloor(Prime(t)), Sha256.K(t) as int)
  {}

  lemma CubeRoots5(t: nat)
    requires 20 <= t < 24
    ensures CubeRoot(Prime(t), CubeFloor(Prime(t)), Sha256.K(t) as int)
  {}

  lemma CubeRoots6(t: nat)
    requires 24 <= t < 28
    ensures CubeRoot(Prime(t), CubeFloor(Prime(t)), Sha256.K(t) as int)
  {}

  lemma CubeRoots7(t: nat)
    requires 28 <= t < 32
    ensures CubeRoot(Prime(t), CubeFloor(Prime(t)), Sha256.K(t) as int)
  {}

  lemma CubeRoots8(t: nat)
    requires 32 <= t < 36
    ensures CubeRoot(Prime(t), CubeFloor(Prime(t)), Sha256.K(t) as int)
  {}

  lemma CubeRoots9(t: nat)
    requires 36 <= t < 40
    ensures CubeRoot(Prime(t), CubeFloor(Prime(t)), Sha256.K(t) as int)
  {}

  lemma CubeRoots10(t: nat)
    requires 40 <= t < 44
    ensures CubeRoot(Prime(t), CubeFloor(Prime(t)), Sha256.K(t) as int)
  {}

  lemma CubeRoots11(t: nat)
    requires 44 <= t < 48
    ensures CubeRoot(Prime(t), CubeFloor(Prime(t)), Sha256.K(t) as int)
  {}

  lemma CubeRoots12(t: nat)
    requires 48 <= t < 52
    ensures CubeRoot(Prime(t), CubeFloor(Prime(t)), Sha256.K(t) as int)
  {}

  lemma CubeRoots13(t: nat)
    requires 52 <= t < 56
    ensures CubeRoot(Prime(t), CubeFloor(Prime(t)), Sha256.K(t) as int)
  {}

  lemma CubeRoots14(t: nat)
    requires 56 <= t < 60
    ensures CubeRoot(Prime(t), CubeFloor(Prime(t)), Sha256.K(t) as int)
  {}

  lemma CubeRoots15(t: nat)
    requires 60 <= t < 64
    ensures CubeRoot(Prime(t), CubeFloor(Prime(t)), Sha256.K(t) as int)
  {}

  /** The constants of SHA-256 are the cube roots of the first 64 primes. */
  lemma ConstantsAreCubeRoots(t: nat)
    requires t < 64
    ensures CubeRoot(Prime(t), CubeFloor(Prime(t)), Sha256.K(t) as int)
  {
    hide CubeRoot, CubeFloor, Prime, Sha256.K;
    if t < 4 {
      CubeRoots0(t);
    } else if t < 8 {
      CubeRoots1(t);
    } else if t < 12 {
      CubeRoots2(t);
    } else if t < 16 {
      CubeRoots3(t);
    } else if t < 20 {
      CubeRoots4(t);
    } else if t < 24 {
      CubeRoots5(t);
    } else if t < 28 {
      CubeRoots6(t);
    } else if t < 32 {
      CubeRoots7(t);
    } else if t < 36 {
      CubeRoots8(t);
    } else if t < 40 {
      CubeRoots9(t);
    } else if t < 44 {
      CubeRoots10(t);
    } else if t < 48 {
      CubeRoots11(t);
    } else if t < 52 {
      CubeRoots12(t);
    } else if t < 56 {
      CubeRoots13(t);
    } else if t < 60 {
      CubeRoots14(t);
    } else {
      CubeRoots15(t);
    }
  }

  /** Its initial hash value the square roots of the first eight. */
  lemma InitialIsSquareRoots()
    ensures SquareRoot(2, 1, Sha256.H0.a as int)
    ensures SquareRoot(3, 1, Sha256.H0.b as int)
    ensures SquareRoot(5, 2, Sha256.H0.c as int)
    ensures SquareRoot(7, 2, Sha256.H0.d as int)
    ensures SquareRoot(11, 3, Sha256.H0.e as int)
    ensures SquareRoot(13, 3, Sha256.H0.f as int)
    ensures SquareRoot(17, 4, Sha256.H0.g as int)
    ensures SquareRoot(19, 4, Sha256.H0.h as int)
  {}

  /** The constants of SHA-1 are the square roots of 2, 3, 5 and 10, to 30 bits. */
  lemma Sha1ConstantsAreSquareRoots()
    ensures forall t: nat | t < 80 :: Sha1.K(t) in {0x5a827999, 0x6ed9eba1, 0x8f1bbcdc, 0xca62c1d6}
    ensures var k := Sha1.K(0) as int; k * k <= 2 * 0x1000_0000_0000_0000 < (k + 1) * (k + 1)
    ensures var k := Sha1.K(20) as int; k * k <= 3 * 0x1000_0000_0000_0000 < (k + 1) * (k + 1)
    ensures var k := Sha1.K(40) as int; k * k <= 5 * 0x1000_0000_0000_0000 < (k + 1) * (k + 1)
    ensures var k := Sha1.K(60) as int; k * k <= 10 * 0x1000_0000_0000_0000 < (k + 1) * (k + 1)
  {}

  // ----- the message "abc" ------------------------------------------------------------------------

  const ABC: seq<byte> := [97, 98, 99]

  function AbcBlock(): Block {
    ABC + [0x80] + Zeros(59) + [24]
  }

  lemma AbcPadded()
    ensures Padded(ABC) == AbcBlock()
  {
    assert BitLength(3) == 24 && ZeroCount(3) == 52;
    assert Be64(24) == Zeros(7) + [24];
    assert Zeros(52) + Zeros(7) == Zeros(59);
  }

  lemma AbcBytes(i: nat)
    requires i < 64
    ensures AbcBlock()[i] == if i == 0 then 97 else if i == 1 then 98 else if i == 2 then 99
                             else if i == 3 then 128 else if i == 63 then 24 else 0
  {}

  lemma FourBytes()
    ensures BigEndianWord(97, 98, 99, 128) == 0x61626380 && BigEndianWord(0, 0, 0, 24) == 0x18 && BigEndianWord(0, 0, 0, 0) == 0
  {}

  /** The first sixteen words. */
  lemma AbcWord(t: nat)
    requires t < 16
    ensures Sha256.W(AbcBlock(), t) == if t == 0 then 0x61626380 else if t == 15 then 0x18 else 0
    ensures Sha1.W(AbcBlock(), t) == if t == 0 then 0x61626380 else if t == 15 then 0x18 else 0
  {
    hide BigEndianWord;
    AbcBytes(4 * t);
    AbcBytes(4 * t + 1);
    AbcBytes(4 * t + 2);
    AbcBytes(4 * t + 3);
    FourBytes();
    Sha256.FirstWords(AbcBlock(), t);
    Sha1.WordAt(AbcBlock(), t);
  }

  // ----- SHA-256 ----------------------------------------------------------------------------------

  /** One later word. */
  lemma Word(b: Block, t: nat, w16: bv32, w15: bv32, w7: bv32, w2: bv32, w: bv32)
    requires t >= 16 && Sum4(w16, Sha256.SmallSigma0(w15), w7, Sha256.SmallSigma1(w2)) == w
    requires Sha256.W(b, t - 16) == w16 && Sha256.W(b, t - 15) == w15
    requires Sha256.W(b, t - 7) == w7 && Sha256.W(b, t - 2) == w2
    ensures Sha256.W(b, t) == w
  {
    hide Sha256.SmallSigma0, Sha256.SmallSigma1, Sum4;
    Sha256.LaterWords(b, t);
  }

  lemma Words0(b: Block)
    requires b == AbcBlock()
    ensures Sha256.W(b, 0) == 0x61626380 && Sha256.W(b, 15) == 0x18 && forall t: nat | 0 < t < 15 :: Sha256.W(b, t) == 0
    ensures Sha1.W(b, 0) == 0x61626380 && Sha1.W(b, 15) == 0x18 && forall t: nat | 0 < t < 15 :: Sha1.W(b, t) == 0
  {
    hide Sha256.W, Sha1.W, AbcBlock;
    AbcWord(0);
    AbcWord(15);
    forall t: nat | 0 < t < 15 ensures Sha256.W(b, t) == 0 && Sha1.W(b, t) == 0 { AbcWord(t); }
  }

  lemma Words1(b: Block)
    requires b == AbcBlock()
    ensures Sha256.W(b, 16) == 0x61626380 && Sha256.W(b, 17) == 0x000f0000
    ensures Sha256.W(b, 18) == 0x7da86405 && Sha256.W(b, 19) == 0x600003c6
    ensures Sha256.W(b, 20) == 0x3e9d7b78 && Sha256.W(b, 21) == 0x0183fc00
    ensures Sha256.W(b, 22) == 0x12dcbfdb && Sha256.W(b, 23) == 0xe2e2c38e
    ensures Sha256.W(b, 24) == 0xc8215c1a && Sha256.W(b, 25) == 0xb73679a2
    ensures Sha256.W(b, 26) == 0xe5bc3909 && Sha256.W(b, 27) == 0x32663c5b
    ensures Sha256.W(b, 28) == 0x9d209d67 && Sha256.W(b, 29) == 0xec8726cb
    ensures Sha256.W(b, 30) == 0x702138a4 && Sha256.W(b, 31) == 0xd3b7973b
  {
    hide Sha256.W, AbcBlock;
    Words0(b);
    Word(b, 16, 0x61626380, 0x0, 0x0, 0x0, 0x61626380);
    Word(b, 17, 0x0, 0x0, 0x0, 0x00000018, 0x000f0000);
    Word(b, 18, 0x0, 0x0, 0x0, 0x61626380, 0x7da86405);
    Word(b, 19, 0x0, 0x0, 0x0, 0x000f0000, 0x600003c6);
    Word(b, 20, 0x0, 0x0, 0x0, 0x7da86405, 0x3e9d7b78);
    Word(b, 21, 0x0, 0x0, 0x0, 0x600003c6, 0x0183fc00);
    Word(b, 22, 0x0, 0x0, 0x00000018, 0x3e9d7b78, 0x12dcbfdb);
    Word(b, 23, 0x0, 0x0, 0x61626380, 0x0183fc00, 0xe2e2c38e);
    Word(b, 24, 0x0, 0x0, 0x000f0000, 0x12dcbfdb, 0xc8215c1a);
    Word(b, 25, 0x0, 0x0, 0x7da86405, 0xe2e2c38e, 0xb73679a2);
    Word(b, 26, 0x0, 0x0, 0x600003c6, 0xc8215c1a, 0xe5bc3909);
    Word(b, 27, 0x0, 0x0, 0x3e9d7b78, 0xb73679a2, 0x32663c5b);
    Word(b, 28, 0x0, 0x0, 0x0183fc00, 0xe5bc3909, 0x9d209d67);
    Word(b, 29, 0x0, 0x0, 0x12dcbfdb, 0x32663c5b, 0xec8726cb);
    Word(b, 30, 0x0, 0x00000018, 0xe2e2c38e, 0x9d209d67, 0x702138a4);
    Word(b, 31, 0x00000018, 0x61626380, 0xc8215c1a, 0xec8726cb, 0xd3b7973b);
  }

  lemma Words2(b: Block)
    requires b == AbcBlock()
    ensures Sha256.W(b, 32) == 0x93f5997f && Sha256.W(b, 33) == 0x3b68ba73
    ensures Sha256.W(b, 34) == 0xaff4ffc1 && Sha256.W(b, 35) == 0xf10a5c62
    ensures Sha256.W(b, 36) == 0x0a8b3996 && Sha256.W(b, 37) == 0x72af830a
    ensures Sha256.W(b, 38) == 0x9409e33e && Sha256.W(b, 39) == 0x24641522
    ensures Sha256.W(b, 40) == 0x9f47bf94 && Sha256.W(b, 41) == 0xf0a64f5a
    ensures Sha256.W(b, 42) == 0x3e246a79 && Sha256.W(b, 43) == 0x27333ba3
    ensures Sha256.W(b, 44) == 0x0c4763f2 && Sha256.W(b, 45) == 0x840abf27
    ensures Sha256.W(b, 46) == 0x7a290d5d && Sha256.W(b, 47) == 0x065c43da
  {
    hide Sha256.W, AbcBlock;
    Words1(b);
    Word(b, 32, 0x61626380, 0x000f0000, 0xb73679a2, 0x702138a4, 0x93f5997f);
    Word(b, 33, 0x000f0000, 0x7da86405, 0xe5bc3909, 0xd3b7973b, 0x3b68ba73);
    Word(b, 34, 0x7da86405, 0x600003c6, 0x32663c5b, 0x93f5997f, 0xaff4ffc1);
    Word(b, 35, 0x600003c6, 0x3e9d7b78, 0x9d209d67, 0x3b68ba73, 0xf10a5c62);
    Word(b, 36, 0x3e9d7b78, 0x0183fc00, 0xec8726cb, 0xaff4ffc1, 0x0a8b3996);
    Word(b, 37, 0x0183fc00, 0x12dcbfdb, 0x702138a4, 0xf10a5c62, 0x72af830a);
    Word(b, 38, 0x12dcbfdb, 0xe2e2c38e, 0xd3b7973b, 0x0a8b3996, 0x9409e33e);
    Word(b, 39, 0xe2e2c38e, 0xc8215c1a, 0x93f5997f, 0x72af830a, 0x24641522);
    Word(b, 40, 0xc8215c1a, 0xb73679a2, 0x3b68ba73, 0x9409e33e, 0x9f47bf94);
    Word(b, 41, 0xb73679a2, 0xe5bc3909, 0xaff4ffc1, 0x24641522, 0xf0a64f5a);
    Word(b, 42, 0xe5bc3909, 0x32663c5b, 0xf10a5c62, 0x9f47bf94, 0x3e246a79);
    Word(b, 43, 0x32663c5b, 0x9d209d67, 0x0a8b3996, 0xf0a64f5a, 0x27333ba3);
    Word(b, 44, 0x9d209d67, 0xec8726cb, 0x72af830a, 0x3e246a79, 0x0c4763f2);
    Word(b, 45, 0xec8726cb, 0x702138a4, 0x9409e33e, 0x27333ba3, 0x840abf27);
    Word(b, 46, 0x702138a4, 0xd3b7973b, 0x24641522, 0x0c4763f2, 0x7a290d5d);
    Word(b, 47, 0xd3b7973b, 0x93f5997f, 0x9f47bf94, 0x840abf27, 0x065c43da);
  }

  lemma Words3(b: Block)
    requires b == AbcBlock()
    ensures Sha256.W(b, 48) == 0xfb3e89cb && Sha256.W(b, 49) == 0xcc7617db
    ensures Sha256.W(b, 50) == 0xb9e66c34 && Sha256.W(b, 51) == 0xa9993667
    ensures Sha256.W(b, 52) == 0x84badedd && Sha256.W(b, 53) == 0xc21462bc
    ensures Sha256.W(b, 54) == 0x1487472c && Sha256.W(b, 55) == 0xb20f7a99
    ensures Sha256.W(b, 56) == 0xef57b9cd && Sha256.W(b, 57) == 0xebe6b238
    ensures Sha256.W(b, 58) == 0x9fe3095e && Sha256.W(b, 59) == 0x78bc8d4b
    ensures Sha256.W(b, 60) == 0xa43fcf15 && Sha256.W(b, 61) == 0x668b2ff8
    ensures Sha256.W(b, 62) == 0xeeaba2cc && Sha256.W(b, 63) == 0x12b1edeb
  {
    hide Sha256.W, AbcBlock;
    Words2(b);
    Word(b, 48, 0x93f5997f, 0x3b68ba73, 0xf0a64f5a, 0x7a290d5d, 0xfb3e89cb);
    Word(b, 49, 0x3b68ba73, 0xaff4ffc1, 0x3e246a79, 0x065c43da, 0xcc7617db);
    Word(b, 50, 0xaff4ffc1, 0xf10a5c62, 0x27333ba3, 0xfb3e89cb, 0xb9e66c34);
    Word(b, 51, 0xf10a5c62, 0x0a8b3996, 0x0c4763f2, 0xcc7617db, 0xa9993667);
    Word(b, 52, 0x0a8b3996, 0x72af830a, 0x840abf27, 0xb9e66c34, 0x84badedd);
    Word(b, 53, 0x72af830a, 0x9409e33e, 0x7a290d5d, 0xa9993667, 0xc21462bc);
    Word(b, 54, 0x9409e33e, 0x24641522, 0x065c43da, 0x84badedd, 0x1487472c);
    Word(b, 55, 0x24641522, 0x9f47bf94, 0xfb3e89cb, 0xc21462bc, 0xb20f7a99);
    Word(b, 56, 0x9f47bf94, 0xf0a64f5a, 0xcc7617db, 0x1487472c, 0xef57b9cd);
    Word(b, 57, 0xf0a64f5a, 0x3e246a79, 0xb9e66c34, 0xb20f7a99, 0xebe6b238);
    Word(b, 58, 0x3e246a79, 0x27333ba3, 0xa9993667, 0xef57b9cd, 0x9fe3095e);
    Word(b, 59, 0x27333ba3, 0x0c4763f2, 0x84badedd, 0xebe6b238, 0x78bc8d4b);
    Word(b, 60, 0x0c4763f2, 0x840abf27, 0xc21462bc, 0x9fe3095e, 0xa43fcf15);
    Word(b, 61, 0x840abf27, 0x7a290d5d, 0x1487472c, 0x78bc8d4b, 0x668b2ff8);
    Word(b, 62, 0x7a290d5d, 0x065c43da, 0xb20f7a99, 0xa43fcf15, 0xeeaba2cc);
    Word(b, 63, 0x065c43da, 0xfb3e89cb, 0xef57b9cd, 0x668b2ff8, 0x12b1edeb);
  }

  /** One more round: only the first and the fifth variable are new. */
  lemma Turn(b: Block, t: nat, v: Sha256.Vars, k: bv32, w: bv32, a: bv32, e: bv32) returns (u: Sha256.Vars)
    requires t < 64 && Sha256.After(Sha256.H0, b, t) == v && Sha256.K(t) == k && Sha256.W(b, t) == w
    requires Sha256.Round(v, k, w) == Sha256.Vars(a, v.a, v.b, v.c, e, v.e, v.f, v.g)
    ensures u == Sha256.Vars(a, v.a, v.b, v.c, e, v.e, v.f, v.g) && Sha256.After(Sha256.H0, b, t + 1) == u
  {
    hide Sha256.Round, Sha256.K, Sha256.W;
    u := Sha256.Vars(a, v.a, v.b, v.c, e, v.e, v.f, v.g);
  }

  lemma Start(b: Block)
    ensures Sha256.After(Sha256.H0, b, 0) == Sha256.H0
  {}

  lemma Constants0()
    ensures Sha256.K(0) == 0x428a2f98 && Sha256.K(1) == 0x71374491 && Sha256.K(2) == 0xb5c0fbcf && Sha256.K(3) == 0xe9b5dba5
    ensures Sha256.K(4) == 0x3956c25b && Sha256.K(5) == 0x59f111f1 && Sha256.K(6) == 0x923f82a4 && Sha256.K(7) == 0xab1c5ed5
  {}

  lemma Turns0(b: Block) returns (v: Sha256.Vars)
    requires b == AbcBlock()
    ensures v == Sha256.Vars(0x85a07b5f, 0xe5030380, 0x2b4209f5, 0x04409a6a, 0x0c657a79, 0x9b27a401, 0x714260ad, 0x43ada245)
    ensures Sha256.After(Sha256.H0, b, 8) == v
  {
    hide Sha256.After, Sha256.W, Sha256.K, AbcBlock;
    Words0(b);
    Constants0();
    Start(b);
    v := Sha256.H0;
    v := Turn(b, 0, v, 0x428a2f98, 0x61626380, 0x5d6aebcd, 0xfa2a4622);
    v := Turn(b, 1, v, 0x71374491, 0x0, 0x5a6ad9ad, 0x78ce7989);
    v := Turn(b, 2, v, 0xb5c0fbcf, 0x0, 0xc8c347a7, 0xf92939eb);
    v := Turn(b, 3, v, 0xe9b5dba5, 0x0, 0xd550f666, 0x24e00850);
    v := Turn(b, 4, v, 0x3956c25b, 0x0, 0x04409a6a, 0x43ada245);
    v := Turn(b, 5, v, 0x59f111f1, 0x0, 0x2b4209f5, 0x714260ad);
    v := Turn(b, 6, v, 0x923f82a4, 0x0, 0xe5030380, 0x9b27a401);
    v := Turn(b, 7, v, 0xab1c5ed5, 0x0, 0x85a07b5f, 0x0c657a79);
  }

  lemma Constants1()
    ensures Sha256.K(8) == 0xd807aa98 && Sha256.K(9) == 0x12835b01 && Sha256.K(10) == 0x243185be && Sha256.K(11) == 0x550c7dc3
    ensures Sha256.K(12) == 0x72be5d74 && Sha256.K(13) == 0x80deb1fe && Sha256.K(14) == 0x9bdc06a7 && Sha256.K(15) == 0xc19bf174
  {}

  lemma Turns1(b: Block) returns (v: Sha256.Vars)
    requires b == AbcBlock()
    ensures v == Sha256.Vars(0xb0fa238e, 0xc0645fde, 0xd932eb16, 0x87912990, 0x07590dcd, 0x0b92f20c, 0x745a48de, 0x1e578218)
    ensures Sha256.After(Sha256.H0, b, 16) == v
  {
    hide Sha256.After, Sha256.W, Sha256.K, AbcBlock;
    Words0(b);
    Constants1();
    v := Turns0(b);
    v := Turn(b, 8, v, 0xd807aa98, 0x0, 0x8e04ecb9, 0x32ca2d8c);
    v := Turn(b, 9, v, 0x12835b01, 0x0, 0x8c87346b, 0x1cc92596);
    v := Turn(b, 10, v, 0x243185be, 0x0, 0x4798a3f4, 0x436b23e8);
    v := Turn(b, 11, v, 0x550c7dc3, 0x0, 0xf71fc5a9, 0x816fd6e9);
    v := Turn(b, 12, v, 0x72be5d74, 0x0, 0x87912990, 0x1e578218);
    v := Turn(b, 13, v, 0x80deb1fe, 0x0, 0xd932eb16, 0x745a48de);
    v := Turn(b, 14, v, 0x9bdc06a7, 0x0, 0xc0645fde, 0x0b92f20c);
    v := Turn(b, 15, v, 0xc19bf174, 0x00000018, 0xb0fa238e, 0x07590dcd);
  }

  lemma Constants2()
    ensures Sha256.K(16) == 0xe49b69c1 && Sha256.K(17) == 0xefbe4786 && Sha256.K(18) == 0x0fc19dc6 && Sha256.K(19) == 0x240ca1cc
    ensures Sha256.K(20) == 0x2de92c6f && Sha256.K(21) == 0x4a7484aa && Sha256.K(22) == 0x5cb0a9dc && Sha256.K(23) == 0x76f988da
  {}

  lemma Turns2(b: Block) returns (v: Sha256.Vars)
    requires b == AbcBlock()
    ensures v == Sha256.Vars(0xc5d53d8d, 0xa7a3623f, 0xc2606d6d, 0x9dc68b63, 0xaa47c347, 0x49f5114a, 0xe1257970, 0x8ada8930)
    ensures Sha256.After(Sha256.H0, b, 24) == v
  {
    hide Sha256.After, Sha256.W, Sha256.K, AbcBlock;
    Words1(b);
    Constants2();
    v := Turns1(b);
    v := Turn(b, 16, v, 0xe49b69c1, 0x61626380, 0x21da9a9b, 0x8034229c);
    v := Turn(b, 17, v, 0xefbe4786, 0x000f0000, 0xc2fbd9d1, 0x846ee454);
    v := Turn(b, 18, v, 0x0fc19dc6, 0x7da86405, 0xfe777bbf, 0xcc899961);
    v := Turn(b, 19, v, 0x240ca1cc, 0x600003c6, 0xe1f20c33, 0xb0638179);
    v := Turn(b, 20, v, 0x2de92c6f, 0x3e9d7b78, 0x9dc68b63, 0x8ada8930);
    v := Turn(b, 21, v, 0x4a7484aa, 0x0183fc00, 0xc2606d6d, 0xe1257970);
    v := Turn(b, 22, v, 0x5cb0a9dc, 0x12dcbfdb, 0xa7a3623f, 0x49f5114a);
    v := Turn(b, 23, v, 0x76f988da, 0xe2e2c38e, 0xc5d53d8d, 0xaa47c347);
  }

  lemma Constants3()
    ensures Sha256.K(24) == 0x983e5152 && Sha256.K(25) == 0xa831c66d && Sha256.K(26) == 0xb00327c8 && Sha256.K(27) == 0xbf597fc7
    ensures Sha256.K(28) == 0xc6e00bf3 && Sha256.K(29) == 0xd5a79147 && Sha256.K(30) == 0x06ca6351 && Sha256.K(31) == 0x14292967
  {}

  lemma Turns3(b: Block) returns (v: Sha256.Vars)
    requires b == AbcBlock()
    ensures v == Sha256.Vars(0x73b33bf5, 0xea992a22, 0xa0060b30, 0x363482c9, 0xba591112, 0x0109ab3a, 0xade79437, 0x6112a3b7)
    ensures Sha256.After(Sha256.H0, b, 32) == v
  {
    hide Sha256.After, Sha256.W, Sha256.K, AbcBlock;
    Words1(b);
    Constants3();
    v := Turns2(b);
    v := Turn(b, 24, v, 0x983e5152, 0xc8215c1a, 0x1c2c2838, 0x2823ef91);
    v := Turn(b, 25, v, 0xa831c66d, 0xb73679a2, 0xcde8037d, 0x14383d8e);
    v := Turn(b, 26, v, 0xb00327c8, 0xe5bc3909, 0xb62ec4bc, 0xc74c6516);
    v := Turn(b, 27, v, 0xbf597fc7, 0x32663c5b, 0x77d37528, 0xedffbff8);
    v := Turn(b, 28, v, 0xc6e00bf3, 0x9d209d67, 0x363482c9, 0x6112a3b7);
    v := Turn(b, 29, v, 0xd5a79147, 0xec8726cb, 0xa0060b30, 0xade79437);
    v := Turn(b, 30, v, 0x06ca6351, 0x702138a4, 0xea992a22, 0x0109ab3a);
    v := Turn(b, 31, v, 0x14292967, 0xd3b7973b, 0x73b33bf5, 0xba591112);
  }

  lemma Constants4()
    ensures Sha256.K(32) == 0x27b70a85 && Sha256.K(33) == 0x2e1b2138 && Sha256.K(34) == 0x4d2c6dfc && Sha256.K(35) == 0x53380d13
    ensures Sha256.K(36) == 0x650a7354 && Sha256.K(37) == 0x766a0abb && Sha256.K(38) == 0x81c2c92e && Sha256.K(39) == 0x92722c85
  {}

  lemma Turns4(b: Block) returns (v: Sha256.Vars)
    requires b == AbcBlock()
    ensures v == Sha256.Vars(0x79ea687a, 0x6dc57a8a, 0x34df1604, 0x41a65cb1, 0x1efbc0a0, 0xf0781bc8, 0xa507a53d, 0x0772a26b)
    ensures Sha256.After(Sha256.H0, b, 40) == v
  {
    hide Sha256.After, Sha256.W, Sha256.K, AbcBlock;
    Words2(b);
    Constants4();
    v := Turns3(b);
    v := Turn(b, 32, v, 0x27b70a85, 0x93f5997f, 0x98e12507, 0x9cd9f5f6);
    v := Turn(b, 33, v, 0x2e1b2138, 0x3b68ba73, 0xfe604df5, 0x59249dd3);
    v := Turn(b, 34, v, 0x4d2c6dfc, 0xaff4ffc1, 0xa9a7738c, 0x085f3833);
    v := Turn(b, 35, v, 0x53380d13, 0xf10a5c62, 0x65a0cfe4, 0xf4b002d6);
    v := Turn(b, 36, v, 0x650a7354, 0x0a8b3996, 0x41a65cb1, 0x0772a26b);
    v := Turn(b, 37, v, 0x766a0abb, 0x72af830a, 0x34df1604, 0xa507a53d);
    v := Turn(b, 38, v, 0x81c2c92e, 0x9409e33e, 0x6dc57a8a, 0xf0781bc8);
    v := Turn(b, 39, v, 0x92722c85, 0x24641522, 0x79ea687a, 0x1efbc0a0);
  }

  lemma Constants5()
    ensures Sha256.K(40) == 0xa2bfe8a1 && Sha256.K(41) == 0xa81a664b && Sha256.K(42) == 0xc24b8b70 && Sha256.K(43) == 0xc76c51a3
    ensures Sha256.K(44) == 0xd192e819 && Sha256.K(45) == 0xd6990624 && Sha256.K(46) == 0xf40e3585 && Sha256.K(47) == 0x106aa070
  {}

  lemma Turns5(b: Block) returns (v: Sha256.Vars)
    requires b == AbcBlock()
    ensures v == Sha256.Vars(0x4172328d, 0xa14c14b0, 0x72ab4b91, 0x26628815, 0xfecf0bc6, 0xd57b94a9, 0xb7755da1, 0xa80f11f0)
    ensures Sha256.After(Sha256.H0, b, 48) == v
  {
    hide Sha256.After, Sha256.W, Sha256.K, AbcBlock;
    Words2(b);
    Constants5();
    v := Turns4(b);
    v := Turn(b, 40, v, 0xa2bfe8a1, 0x9f47bf94, 0xd6670766, 0x26352d63);
    v := Turn(b, 41, v, 0xa81a664b, 0xf0a64f5a, 0xdf46652f, 0x838b2711);
    v := Turn(b, 42, v, 0xc24b8b70, 0x3e246a79, 0x17aa0dfe, 0xdecd4715);
    v := Turn(b, 43, v, 0xc76c51a3, 0x27333ba3, 0x9d4baf93, 0xfda24c2e);
    v := Turn(b, 44, v, 0xd192e819, 0x0c4763f2, 0x26628815, 0xa80f11f0);
    v := Turn(b, 45, v, 0xd6990624, 0x840abf27, 0x72ab4b91, 0xb7755da1);
    v := Turn(b, 46, v, 0xf40e3585, 0x7a290d5d, 0xa14c14b0, 0xd57b94a9);
    v := Turn(b, 47, v, 0x106aa070, 0x065c43da, 0x4172328d, 0xfecf0bc6);
  }

  lemma Constants6()
    ensures Sha256.K(48) == 0x19a4c116 && Sha256.K(49) == 0x1e376c08 && Sha256.K(50) == 0x2748774c && Sha256.K(51) == 0x34b0bcb5
    ensures Sha256.K(52) == 0x391c0cb3 && Sha256.K(53) == 0x4ed8aa4a && Sha256.K(54) == 0x5b9cca4f && Sha256.K(55) == 0x682e6ff3
  {}

  lemma Turns6(b: Block) returns (v: Sha256.Vars)
    requires b == AbcBlock()
    ensures v == Sha256.Vars(0x38cc9913, 0x3ec45cdb, 0xf5702fdb, 0x101fd28f, 0x54cb266b, 0xe50e1b4f, 0x9f4787c3, 0x529e7d00)
    ensures Sha256.After(Sha256.H0, b, 56) == v
  {
    hide Sha256.After, Sha256.W, Sha256.K, AbcBlock;
    Words3(b);
    Constants6();
    v := Turns5(b);
    v := Turn(b, 48, v, 0x19a4c116, 0xfb3e89cb, 0x05757ceb, 0xbd714038);
    v := Turn(b, 49, v, 0x1e376c08, 0xcc7617db, 0xf11bfaa8, 0x6e5c390c);
    v := Turn(b, 50, v, 0x2748774c, 0xb9e66c34, 0x7a0508a1, 0x52f1ccf7);
    v := Turn(b, 51, v, 0x34b0bcb5, 0xa9993667, 0x886e7a22, 0x49231c1e);
    v := Turn(b, 52, v, 0x391c0cb3, 0x84badedd, 0x101fd28f, 0x529e7d00);
    v := Turn(b, 53, v, 0x4ed8aa4a, 0xc21462bc, 0xf5702fdb, 0x9f4787c3);
    v := Turn(b, 54, v, 0x5b9cca4f, 0x1487472c, 0x3ec45cdb, 0xe50e1b4f);
    v := Turn(b, 55, v, 0x682e6ff3, 0xb20f7a99, 0x38cc9913, 0x54cb266b);
  }

  lemma Constants7()
    ensures Sha256.K(56) == 0x748f82ee && Sha256.K(57) == 0x78a5636f && Sha256.K(58) == 0x84c87814 && Sha256.K(59) == 0x8cc70208
    ensures Sha256.K(60) == 0x90befffa && Sha256.K(61) == 0xa4506ceb && Sha256.K(62) == 0xbef9a3f7 && Sha256.K(63) == 0xc67178f2
  {}

  lemma Turns7(b: Block) returns (v: Sha256.Vars)
    requires b == AbcBlock()
    ensures v == Sha256.Vars(0x506e3058, 0xd39a2165, 0x04d24d6c, 0xb85e2ce9, 0x5ef50f24, 0xfb121210, 0x948d25b6, 0x961f4894)
    ensures Sha256.After(Sha256.H0, b, 64) == v
  {
    hide Sha256.After, Sha256.W, Sha256.K, AbcBlock;
    Words3(b);
    Constants7();
    v := Turns6(b);
    v := Turn(b, 56, v, 0x748f82ee, 0xef57b9cd, 0xfcd1887b, 0x9b5e906c);
    v := Turn(b, 57, v, 0x78a5636f, 0xebe6b238, 0xc062d46f, 0x7e44008e);
    v := Turn(b, 58, v, 0x84c87814, 0x9fe3095e, 0xffb70472, 0x6d83bfc6);
    v := Turn(b, 59, v, 0x8cc70208, 0x78bc8d4b, 0xb6ae8fff, 0xb21bad3d);
    v := Turn(b, 60, v, 0x90befffa, 0xa43fcf15, 0xb85e2ce9, 0x961f4894);
    v := Turn(b, 61, v, 0xa4506ceb, 0x668b2ff8, 0x04d24d6c, 0x948d25b6);
    v := Turn(b, 62, v, 0xbef9a3f7, 0xeeaba2cc, 0xd39a2165, 0xfb121210);
    v := Turn(b, 63, v, 0xc67178f2, 0x12b1edeb, 0x506e3058, 0x5ef50f24);
  }

  lemma Output0()
    ensures BytesOf(0xba7816bf) == [0xba, 0x78, 0x16, 0xbf]
  {}

  lemma Output1()
    ensures BytesOf(0x8f01cfea) == [0x8f, 0x01, 0xcf, 0xea]
  {}

  lemma Output2()
    ensures BytesOf(0x414140de) == [0x41, 0x41, 0x40, 0xde]
  {}

  lemma Output3()
    ensures BytesOf(0x5dae2223) == [0x5d, 0xae, 0x22, 0x23]
  {}

  lemma Output4()
    ensures BytesOf(0xb00361a3) == [0xb0, 0x03, 0x61, 0xa3]
  {}

  lemma Output5()
    ensures BytesOf(0x96177a9c) == [0x96, 0x17, 0x7a, 0x9c]
  {}

  lemma Output6()
    ensures BytesOf(0xb410ff61) == [0xb4, 0x10, 0xff, 0x61]
  {}

  lemma Output7()
    ensures BytesOf(0xf20015ad) == [0xf2, 0x00, 0x15, 0xad]
  {}

  function AbcDigest(): seq<byte> {
    [0xba, 0x78, 0x16, 0xbf, 0x8f, 0x01, 0xcf, 0xea, 0x41, 0x41, 0x40, 0xde, 0x5d, 0xae, 0x22, 0x23,
     0xb0, 0x03, 0x61, 0xa3, 0x96, 0x17, 0x7a, 0x9c, 0xb4, 0x10, 0xff, 0x61, 0xf2, 0x00, 0x15, 0xad]
  }

  /** The digest of "abc" in the examples of the standard. */
  lemma Sha256OfAbc()
    ensures Sha256.Hash(ABC) == AbcDigest()
  {
    hide Sha256.After, Sha256.Digest, Sha256.Plus, Sha256.Chain, AbcBlock, AbcDigest, Padded;
    var b := AbcBlock();
    AbcPadded();
    var v := Turns7(b);
    OneBlock(b);
    Sha256Sum(v);
  }

  lemma OneBlock(b: Block)
    ensures Sha256.Chain(b) == Sha256.Compress(Sha256.H0, b) && Sha1.Chain(b) == Sha1.Compress(Sha1.H0, b)
  {
    hide Sha256.Compress, Sha1.Compress;
    assert b[..|b| - BLOCK] == [] && b[|b| - BLOCK..] == b;
    assert Sha256.Chain([]) == Sha256.H0 && Sha1.Chain([]) == Sha1.H0;
  }

  lemma Sha256Sum(v: Sha256.Vars)
    requires v == Sha256.Vars(0x506e3058, 0xd39a2165, 0x04d24d6c, 0xb85e2ce9, 0x5ef50f24, 0xfb121210, 0x948d25b6, 0x961f4894)
    ensures Sha256.Digest(Sha256.Plus(Sha256.H0, v)) == AbcDigest()
  {
    hide BytesOf;
    Output0();
    Output1();
    Output2();
    Output3();
    Output4();
    Output5();
    Output6();
    Output7();
  }

  // ----- SHA-1 ------------------------------------------------------------------------------------

  lemma Word1(b: Block, t: nat, w16: bv32, w14: bv32, w8: bv32, w3: bv32, w: bv32)
    requires t >= 16 && Sha1.Mix(w3, w8, w14, w16) == w
    requires Sha1.W(b, t - 16) == w16 && Sha1.W(b, t - 14) == w14 && Sha1.W(b, t - 8) == w8 && Sha1.W(b, t - 3) == w3
    ensures Sha1.W(b, t) == w
  {
    hide Sha1.Mix;
    Sha1.WordAt(b, t);
  }

  lemma MixedWords1(b: Block)
    requires b == AbcBlock()
    ensures Sha1.W(b, 16) == 0xc2c4c700 && Sha1.W(b, 17) == 0x0
    ensures Sha1.W(b, 18) == 0x00000030 && Sha1.W(b, 19) == 0x85898e01
    ensures Sha1.W(b, 20) == 0x0 && Sha1.W(b, 21) == 0x00000060
    ensures Sha1.W(b, 22) == 0x0b131c03 && Sha1.W(b, 23) == 0x00000030
    ensures Sha1.W(b, 24) == 0x85898ec1 && Sha1.W(b, 25) == 0x16263806
    ensures Sha1.W(b, 26) == 0x0 && Sha1.W(b, 27) == 0x00000180
    ensures Sha1.W(b, 28) == 0x2c4c700c && Sha1.W(b, 29) == 0x000000f0
    ensures Sha1.W(b, 30) == 0x93afb507 && Sha1.W(b, 31) == 0x5898e048
  {
    hide Sha1.W, AbcBlock;
    Words0(b);
    Word1(b, 16, 0x61626380, 0x0, 0x0, 0x0, 0xc2c4c700);
    Word1(b, 17, 0x0, 0x0, 0x0, 0x0, 0x0);
    Word1(b, 18, 0x0, 0x0, 0x0, 0x00000018, 0x00000030);
    Word1(b, 19, 0x0, 0x0, 0x0, 0xc2c4c700, 0x85898e01);
    Word1(b, 20, 0x0, 0x0, 0x0, 0x0, 0x0);
    Word1(b, 21, 0x0, 0x0, 0x0, 0x00000030, 0x00000060);
    Word1(b, 22, 0x0, 0x0, 0x0, 0x85898e01, 0x0b131c03);
    Word1(b, 23, 0x0, 0x0, 0x00000018, 0x0, 0x00000030);
    Word1(b, 24, 0x0, 0x0, 0xc2c4c700, 0x00000060, 0x85898ec1);
    Word1(b, 25, 0x0, 0x0, 0x0, 0x0b131c03, 0x16263806);
    Word1(b, 26, 0x0, 0x0, 0x00000030, 0x00000030, 0x0);
    Word1(b, 27, 0x0, 0x0, 0x85898e01, 0x85898ec1, 0x00000180);
    Word1(b, 28, 0x0, 0x0, 0x0, 0x16263806, 0x2c4c700c);
    Word1(b, 29, 0x0, 0x00000018, 0x00000060, 0x0, 0x000000f0);
    Word1(b, 30, 0x0, 0xc2c4c700, 0x0b131c03, 0x00000180, 0x93afb507);
    Word1(b, 31, 0x00000018, 0x0, 0x00000030, 0x2c4c700c, 0x5898e048);
  }

  lemma MixedWords2(b: Block)
    requires b == AbcBlock()
    ensures Sha1.W(b, 32) == 0x8e9a9202 && Sha1.W(b, 33) == 0x00000600
    ensures Sha1.W(b, 34) == 0xb131c0f0 && Sha1.W(b, 35) == 0x16263bc6
    ensures Sha1.W(b, 36) == 0x4ebed41e && Sha1.W(b, 37) == 0x626380a1
    ensures Sha1.W(b, 38) == 0x16263806 && Sha1.W(b, 39) == 0x000018c0
    ensures Sha1.W(b, 40) == 0xd2e138c4 && Sha1.W(b, 41) == 0x00000f00
    ensures Sha1.W(b, 42) == 0x3afb5079 && Sha1.W(b, 43) == 0x898e04e5
    ensures Sha1.W(b, 44) == 0xe2ba3c2b && Sha1.W(b, 45) == 0x000060c0
    ensures Sha1.W(b, 46) == 0x053a37cd && Sha1.W(b, 47) == 0x74458547
  {
    hide Sha1.W, AbcBlock;
    MixedWords1(b);
    Word1(b, 32, 0xc2c4c700, 0x00000030, 0x85898ec1, 0x000000f0, 0x8e9a9202);
    Word1(b, 33, 0x0, 0x85898e01, 0x16263806, 0x93afb507, 0x00000600);
    Word1(b, 34, 0x00000030, 0x0, 0x0, 0x5898e048, 0xb131c0f0);
    Word1(b, 35, 0x85898e01, 0x00000060, 0x00000180, 0x8e9a9202, 0x16263bc6);
    Word1(b, 36, 0x0, 0x0b131c03, 0x2c4c700c, 0x00000600, 0x4ebed41e);
    Word1(b, 37, 0x00000060, 0x00000030, 0x000000f0, 0xb131c0f0, 0x626380a1);
    Word1(b, 38, 0x0b131c03, 0x85898ec1, 0x93afb507, 0x16263bc6, 0x16263806);
    Word1(b, 39, 0x00000030, 0x16263806, 0x5898e048, 0x4ebed41e, 0x000018c0);
    Word1(b, 40, 0x85898ec1, 0x0, 0x8e9a9202, 0x626380a1, 0xd2e138c4);
    Word1(b, 41, 0x16263806, 0x00000180, 0x00000600, 0x16263806, 0x00000f00);
    Word1(b, 42, 0x0, 0x2c4c700c, 0xb131c0f0, 0x000018c0, 0x3afb5079);
    Word1(b, 43, 0x00000180, 0x000000f0, 0x16263bc6, 0xd2e138c4, 0x898e04e5);
    Word1(b, 44, 0x2c4c700c, 0x93afb507, 0x4ebed41e, 0x00000f00, 0xe2ba3c2b);
    Word1(b, 45, 0x000000f0, 0x5898e048, 0x626380a1, 0x3afb5079, 0x000060c0);
    Word1(b, 46, 0x93afb507, 0x8e9a9202, 0x16263806, 0x898e04e5, 0x053a37cd);
    Word1(b, 47, 0x5898e048, 0x00000600, 0x000018c0, 0xe2ba3c2b, 0x74458547);
  }

  lemma MixedWords3(b: Block)
    requires b == AbcBlock()
    ensures Sha1.W(b, 48) == 0xda9415ed && Sha1.W(b, 49) == 0x26380a16
    ensures Sha1.W(b, 50) == 0x626383a1 && Sha1.W(b, 51) == 0x4ebf54de
    ensures Sha1.W(b, 52) == 0x3835b44b && Sha1.W(b, 53) == 0x0000f600
    ensures Sha1.W(b, 54) == 0x1e84c7a3 && Sha1.W(b, 55) == 0x98e04d98
    ensures Sha1.W(b, 56) == 0x651d16a0 && Sha1.W(b, 57) == 0x62658ca1
    ensures Sha1.W(b, 58) == 0x458544d6 && Sha1.W(b, 59) == 0x44584cb7
    ensures Sha1.W(b, 60) == 0x7ba06619 && Sha1.W(b, 61) == 0x6380aea2
    ensures Sha1.W(b, 62) == 0x0ae55269 && Sha1.W(b, 63) == 0x627b49a1
  {
    hide Sha1.W, AbcBlock;
    MixedWords2(b);
    Word1(b, 48, 0x8e9a9202, 0xb131c0f0, 0xd2e138c4, 0x000060c0, 0xda9415ed);
    Word1(b, 49, 0x00000600, 0x16263bc6, 0x00000f00, 0x053a37cd, 0x26380a16);
    Word1(b, 50, 0xb131c0f0, 0x4ebed41e, 0x3afb5079, 0x74458547, 0x626383a1);
    Word1(b, 51, 0x16263bc6, 0x626380a1, 0x898e04e5, 0xda9415ed, 0x4ebf54de);
    Word1(b, 52, 0x4ebed41e, 0x16263806, 0xe2ba3c2b, 0x26380a16, 0x3835b44b);
    Word1(b, 53, 0x626380a1, 0x000018c0, 0x000060c0, 0x626383a1, 0x0000f600);
    Word1(b, 54, 0x16263806, 0xd2e138c4, 0x053a37cd, 0x4ebf54de, 0x1e84c7a3);
    Word1(b, 55, 0x000018c0, 0x00000f00, 0x74458547, 0x3835b44b, 0x98e04d98);
    Word1(b, 56, 0xd2e138c4, 0x3afb5079, 0xda9415ed, 0x0000f600, 0x651d16a0);
    Word1(b, 57, 0x00000f00, 0x898e04e5, 0x26380a16, 0x1e84c7a3, 0x62658ca1);
    Word1(b, 58, 0x3afb5079, 0xe2ba3c2b, 0x626383a1, 0x98e04d98, 0x458544d6);
    Word1(b, 59, 0x898e04e5, 0x000060c0, 0x4ebf54de, 0x651d16a0, 0x44584cb7);
    Word1(b, 60, 0xe2ba3c2b, 0x053a37cd, 0x3835b44b, 0x62658ca1, 0x7ba06619);
    Word1(b, 61, 0x000060c0, 0x74458547, 0x0000f600, 0x458544d6, 0x6380aea2);
    Word1(b, 62, 0x053a37cd, 0xda9415ed, 0x1e84c7a3, 0x44584cb7, 0x0ae55269);
    Word1(b, 63, 0x74458547, 0x26380a16, 0x98e04d98, 0x7ba06619, 0x627b49a1);
  }

  lemma MixedWords4(b: Block)
    requires b == AbcBlock()
    ensures Sha1.W(b, 64) == 0x7cd45c9d && Sha1.W(b, 65) == 0x000f0000
    ensures Sha1.W(b, 66) == 0xfb50753a && Sha1.W(b, 67) == 0xec6765e8
    ensures Sha1.W(b, 68) == 0xba3c2be2 && Sha1.W(b, 69) == 0x0060c000
    ensures Sha1.W(b, 70) == 0x3a37cd05 && Sha1.W(b, 71) == 0x458546f4
    ensures Sha1.W(b, 72) == 0xb8599dd6 && Sha1.W(b, 73) == 0x380a1a26
    ensures Sha1.W(b, 74) == 0x01e02203 && Sha1.W(b, 75) == 0xe7cc3456
    ensures Sha1.W(b, 76) == 0xe6e60b69 && Sha1.W(b, 77) == 0x00f60a00
    ensures Sha1.W(b, 78) == 0x5795ef4f && Sha1.W(b, 79) == 0x822e0879
  {
    hide Sha1.W, AbcBlock;
    MixedWords3(b);
    Word1(b, 64, 0xda9415ed, 0x626383a1, 0x651d16a0, 0x6380aea2, 0x7cd45c9d);
    Word1(b, 65, 0x26380a16, 0x4ebf54de, 0x62658ca1, 0x0ae55269, 0x000f0000);
    Word1(b, 66, 0x626383a1, 0x3835b44b, 0x458544d6, 0x627b49a1, 0xfb50753a);
    Word1(b, 67, 0x4ebf54de, 0x0000f600, 0x44584cb7, 0x7cd45c9d, 0xec6765e8);
    Word1(b, 68, 0x3835b44b, 0x1e84c7a3, 0x7ba06619, 0x000f0000, 0xba3c2be2);
    Word1(b, 69, 0x0000f600, 0x98e04d98, 0x6380aea2, 0xfb50753a, 0x0060c000);
    Word1(b, 70, 0x1e84c7a3, 0x651d16a0, 0x0ae55269, 0xec6765e8, 0x3a37cd05);
    Word1(b, 71, 0x98e04d98, 0x62658ca1, 0x627b49a1, 0xba3c2be2, 0x458546f4);
    Word1(b, 72, 0x651d16a0, 0x458544d6, 0x7cd45c9d, 0x0060c000, 0xb8599dd6);
    Word1(b, 73, 0x62658ca1, 0x44584cb7, 0x000f0000, 0x3a37cd05, 0x380a1a26);
    Word1(b, 74, 0x458544d6, 0x7ba06619, 0xfb50753a, 0x458546f4, 0x01e02203);
    Word1(b, 75, 0x44584cb7, 0x6380aea2, 0xec6765e8, 0xb8599dd6, 0xe7cc3456);
    Word1(b, 76, 0x7ba06619, 0x0ae55269, 0xba3c2be2, 0x380a1a26, 0xe6e60b69);
    Word1(b, 77, 0x6380aea2, 0x627b49a1, 0x0060c000, 0x01e02203, 0x00f60a00);
    Word1(b, 78, 0x0ae55269, 0x7cd45c9d, 0x3a37cd05, 0xe7cc3456, 0x5795ef4f);
    Word1(b, 79, 0x627b49a1, 0x000f0000, 0x458546f4, 0xe6e60b69, 0x822e0879);
  }

  /** One more round: only the first variable is new, and the third rotated. */
  lemma Turn1(b: Block, t: nat, v: Sha1.Vars, w: bv32, a: bv32) returns (u: Sha1.Vars)
    requires t < 80 && Sha1.After(Sha1.H0, b, t) == v && Sha1.W(b, t) == w
    requires Sha1.Round(v, Sha1.F(t, v.b, v.c, v.d), Sha1.K(t), w) == Sha1.Vars(a, v.a, Sha1.Rotl(v.b, 30), v.c, v.d)
    ensures u == Sha1.Vars(a, v.a, Sha1.Rotl(v.b, 30), v.c, v.d) && Sha1.After(Sha1.H0, b, t + 1) == u
  {
    hide Sha1.Round, Sha1.K, Sha1.W, Sha1.F, Sha1.Rotl;
    u := Sha1.Vars(a, v.a, Sha1.Rotl(v.b, 30), v.c, v.d);
  }

  lemma Start1(b: Block)
    ensures Sha1.After(Sha1.H0, b, 0) == Sha1.H0
  {}

  lemma Mixes0(b: Block) returns (v: Sha1.Vars)
    requires b == AbcBlock()
    ensures v == Sha1.Vars(0x20bdd62f, 0x196bee77, 0x644a3da5, 0x1181ed99, 0x18c623f9) == Sha1.After(Sha1.H0, b, 16)
  {
    hide Sha1.After, Sha1.W, AbcBlock;
    Words0(b);
    Start1(b);
    v := Sha1.H0;
    v := Turn1(b, 0, v, 0x61626380, 0x0116fc33);
    v := Turn1(b, 1, v, 0x0, 0x8990536d);
    v := Turn1(b, 2, v, 0x0, 0xa1390f08);
    v := Turn1(b, 3, v, 0x0, 0xcdd8e11b);
    v := Turn1(b, 4, v, 0x0, 0xcfd499de);
    v := Turn1(b, 5, v, 0x0, 0x3fc7ca40);
    v := Turn1(b, 6, v, 0x0, 0x993e30c1);
    v := Turn1(b, 7, v, 0x0, 0x9e8c07d4);
    v := Turn1(b, 8, v, 0x0, 0x4b6ae328);
    v := Turn1(b, 9, v, 0x0, 0x8351f929);
    v := Turn1(b, 10, v, 0x0, 0xfbda9e89);
    v := Turn1(b, 11, v, 0x0, 0x63188fe4);
    v := Turn1(b, 12, v, 0x0, 0x4607b664);
    v := Turn1(b, 13, v, 0x0, 0x9128f695);
    v := Turn1(b, 14, v, 0x0, 0x196bee77);
    v := Turn1(b, 15, v, 0x00000018, 0x20bdd62f);
  }

  lemma Mixes1(b: Block) returns (v: Sha1.Vars)
    requires b == AbcBlock()
    ensures v == Sha1.Vars(0x3b845d33, 0x1267b407, 0x717eebd7, 0xa0dc2d4b, 0xd2aa1365) == Sha1.After(Sha1.H0, b, 32)
  {
    hide Sha1.After, Sha1.W, AbcBlock;
    MixedWords1(b);
    v := Mixes0(b);
    v := Turn1(b, 16, v, 0xc2c4c700, 0x4e925823);
    v := Turn1(b, 17, v, 0x0, 0x82aa6728);
    v := Turn1(b, 18, v, 0x00000030, 0xdc64901d);
    v := Turn1(b, 19, v, 0x85898e01, 0xfd9e1d7d);
    v := Turn1(b, 20, v, 0x0, 0x1a37b0ca);
    v := Turn1(b, 21, v, 0x00000060, 0x33a23bfc);
    v := Turn1(b, 22, v, 0x0b131c03, 0x21283486);
    v := Turn1(b, 23, v, 0x00000030, 0xd541f12d);
    v := Turn1(b, 24, v, 0x85898ec1, 0xc7567dc6);
    v := Turn1(b, 25, v, 0x16263806, 0x48413ba4);
    v := Turn1(b, 26, v, 0x0, 0xbe35fbd5);
    v := Turn1(b, 27, v, 0x00000180, 0x4aa84d97);
    v := Turn1(b, 28, v, 0x2c4c700c, 0x8370b52e);
    v := Turn1(b, 29, v, 0x000000f0, 0xc5fbaf5d);
    v := Turn1(b, 30, v, 0x93afb507, 0x1267b407);
    v := Turn1(b, 31, v, 0x5898e048, 0x3b845d33);
  }

  lemma Mixes2(b: Block) returns (v: Sha1.Vars)
    requires b == AbcBlock()
    ensures v == Sha1.Vars(0xbead02ca, 0xa01b846c, 0x8714787c, 0x503ca382, 0xfb86c6ab) == Sha1.After(Sha1.H0, b, 48)
  {
    hide Sha1.After, Sha1.W, AbcBlock;
    MixedWords2(b);
    v := Mixes1(b);
    v := Turn1(b, 32, v, 0x8e9a9202, 0x046faa0a);
    v := Turn1(b, 33, v, 0x00000600, 0x2c0ebc11);
    v := Turn1(b, 34, v, 0xb131c0f0, 0x21796ad4);
    v := Turn1(b, 35, v, 0x16263bc6, 0xdcbbb0cb);
    v := Turn1(b, 36, v, 0x4ebed41e, 0x0f511fd8);
    v := Turn1(b, 37, v, 0x626380a1, 0xdc63973f);
    v := Turn1(b, 38, v, 0x16263806, 0x4c986405);
    v := Turn1(b, 39, v, 0x000018c0, 0x32de1cba);
    v := Turn1(b, 40, v, 0xd2e138c4, 0xfc87dedf);
    v := Turn1(b, 41, v, 0x00000f00, 0x970a0d5c);
    v := Turn1(b, 42, v, 0x3afb5079, 0x7f193dc5);
    v := Turn1(b, 43, v, 0x898e04e5, 0xee1b1aaf);
    v := Turn1(b, 44, v, 0xe2ba3c2b, 0x40f28e09);
    v := Turn1(b, 45, v, 0x000060c0, 0x1c51e1f2);
    v := Turn1(b, 46, v, 0x053a37cd, 0xa01b846c);
    v := Turn1(b, 47, v, 0x74458547, 0xbead02ca);
  }

  lemma Mixes3(b: Block) returns (v: Sha1.Vars)
    requires b == AbcBlock()
    ensures v == Sha1.Vars(0x6b61c9e1, 0xb66c020b, 0x9523272c, 0xf5d5b051, 0x8fd4b796) == Sha1.After(Sha1.H0, b, 64)
  {
    hide Sha1.After, Sha1.W, AbcBlock;
    MixedWords3(b);
    v := Mixes2(b);
    v := Turn1(b, 48, v, 0xda9415ed, 0xbaf39337);
    v := Turn1(b, 49, v, 0x26380a16, 0x120731c5);
    v := Turn1(b, 50, v, 0x626383a1, 0x641db2ce);
    v := Turn1(b, 51, v, 0x4ebf54de, 0x3847ad66);
    v := Turn1(b, 52, v, 0x3835b44b, 0xe490436d);
    v := Turn1(b, 53, v, 0x0000f600, 0x27e9f1d8);
    v := Turn1(b, 54, v, 0x1e84c7a3, 0x7b71f76d);
    v := Turn1(b, 55, v, 0x98e04d98, 0x5e6456af);
    v := Turn1(b, 56, v, 0x651d16a0, 0xc846093f);
    v := Turn1(b, 57, v, 0x62658ca1, 0xd262ff50);
    v := Turn1(b, 58, v, 0x458544d6, 0x09d785fd);
    v := Turn1(b, 59, v, 0x44584cb7, 0x3f52de5a);
    v := Turn1(b, 60, v, 0x7ba06619, 0xd756c147);
    v := Turn1(b, 61, v, 0x6380aea2, 0x548c9cb2);
    v := Turn1(b, 62, v, 0x0ae55269, 0xb66c020b);
    v := Turn1(b, 63, v, 0x627b49a1, 0x6b61c9e1);
  }

  lemma Mixes4(b: Block) returns (v: Sha1.Vars)
    requires b == AbcBlock()
    ensures v == Sha1.Vars(0x42541b35, 0x5738d5e1, 0x21834873, 0x681e6df6, 0xd8fdf6ad) == Sha1.After(Sha1.H0, b, 80)
  {
    hide Sha1.After, Sha1.W, AbcBlock;
    MixedWords4(b);
    v := Mixes3(b);
    v := Turn1(b, 64, v, 0x7cd45c9d, 0x19dfa7ac);
    v := Turn1(b, 65, v, 0x000f0000, 0x101655f9);
    v := Turn1(b, 66, v, 0xfb50753a, 0x0c3df2b4);
    v := Turn1(b, 67, v, 0xec6765e8, 0x78dd4d2b);
    v := Turn1(b, 68, v, 0xba3c2be2, 0x497093c0);
    v := Turn1(b, 69, v, 0x0060c000, 0x3f2588c2);
    v := Turn1(b, 70, v, 0x3a37cd05, 0xc199f8c7);
    v := Turn1(b, 71, v, 0x458546f4, 0x39859de7);
    v := Turn1(b, 72, v, 0xb8599dd6, 0xedb42de4);
    v := Turn1(b, 73, v, 0x380a1a26, 0x11793f6f);
    v := Turn1(b, 74, v, 0x01e02203, 0x5ee76897);
    v := Turn1(b, 75, v, 0xe7cc3456, 0x63f7dab7);
    v := Turn1(b, 76, v, 0xe6e60b69, 0xa079b7d9);
    v := Turn1(b, 77, v, 0x00f60a00, 0x860d21cc);
    v := Turn1(b, 78, v, 0x5795ef4f, 0x5738d5e1);
    v := Turn1(b, 79, v, 0x822e0879, 0x42541b35);
  }

  lemma Output1_0()
    ensures BytesOf(0xa9993e36) == [0xa9, 0x99, 0x3e, 0x36]
  {}

  lemma Output1_1()
    ensures BytesOf(0x4706816a) == [0x47, 0x06, 0x81, 0x6a]
  {}

  lemma Output1_2()
    ensures BytesOf(0xba3e2571) == [0xba, 0x3e, 0x25, 0x71]
  {}

  lemma Output1_3()
    ensures BytesOf(0x7850c26c) == [0x78, 0x50, 0xc2, 0x6c]
  {}

  lemma Output1_4()
    ensures BytesOf(0x9cd0d89d) == [0x9c, 0xd0, 0xd8, 0x9d]
  {}

  lemma Sha1Sum(v: Sha1.Vars)
    requires v == Sha1.Vars(0x42541b35, 0x5738d5e1, 0x21834873, 0x681e6df6, 0xd8fdf6ad)
    ensures Sha1.Digest(Sha1.Plus(Sha1.H0, v))
         == [0xa9, 0x99, 0x3e, 0x36, 0x47, 0x06, 0x81, 0x6a, 0xba, 0x3e, 0x25, 0x71,
             0x78, 0x50, 0xc2, 0x6c, 0x9c, 0xd0, 0xd8, 0x9d]
  {
    hide BytesOf;
    Output1_0();
    Output1_1();
    Output1_2();
    Output1_3();
    Output1_4();
  }

  lemma Sha1OfAbc()
    ensures Sha1.Hash(ABC)
         == [0xa9, 0x99, 0x3e, 0x36, 0x47, 0x06, 0x81, 0x6a, 0xba, 0x3e, 0x25, 0x71,
             0x78, 0x50, 0xc2, 0x6c, 0x9c, 0xd0, 0xd8, 0x9d]
  {
    hide Sha1.After, Sha1.Digest, Sha1.Plus, Sha1.Chain, AbcBlock, Padded;
    var b := AbcBlock();
    AbcPadded();
    var v := Mixes4(b);
    OneBlock(b);
    Sha1Sum(v);
  }

  // ----- section 2 of RFC 2104 ------------------------------------------------------------------------

  /** A key that fills a block when zeros are appended, or its hash if it is longer. */
  lemma HmacIs(key: seq<byte>, text: seq<byte>, k: seq<byte>)
    requires k == if |key| <= 64 then key + Zeros(64 - |key|) else Sha256.Hash(key) + Zeros(32)
    ensures Sha256.Hmac(key, text)
         == Sha256.Hash(seq(64, i requires 0 <= i < 64 => Xor(k[i], 0x5c))
                        + Sha256.Hash(seq(64, i requires 0 <= i < 64 => Xor(k[i], 0x36)) + text))
  {
    hide Sha256.Hash, Sha256.MaskedByte, Xor;
    forall i | 0 <= i < 64 ensures Sha256.MaskedByte(k[i], 0x5c) == Xor(k[i], 0x5c) { XorIs(k[i], 0x5c); }
    forall i | 0 <= i < 64 ensures Sha256.MaskedByte(k[i], 0x36) == Xor(k[i], 0x36) { XorIs(k[i], 0x36); }
    assert Sha256.Masked(k, 0x5c) == seq(64, i requires 0 <= i < 64 => Xor(k[i], 0x5c));
    assert Sha256.Masked(k, 0x36) == seq(64, i requires 0 <= i < 64 => Xor(k[i], 0x36));
  }

  /** Bitwise exclusive or of a byte and a mask. */
  function Xor(b: byte, mask: bv8): byte {
    ((b as bv8) ^ mask) as int
  }

  lemma XorIs(b: byte, mask: bv8)
    ensures Sha256.MaskedByte(b, mask) == Xor(b, mask)
  {}
}
