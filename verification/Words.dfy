/** What SHA-1 and SHA-256 share on 32-bit words (sections 3 and 4.1 of FIPS 180-4). */
module Words {
  import opened Text

  function Ch(x: bv32, y: bv32, z: bv32): bv32 { (x & y) ^ (!x & z) }
  function Maj(x: bv32, y: bv32, z: bv32): bv32 { (x & y) ^ (x & z) ^ (y & z) }

  function BigEndianWord(b0: byte, b1: byte, b2: byte, b3: byte): bv32 {
    ((b0 as bv32) << 24) | ((b1 as bv32) << 16) | ((b2 as bv32) << 8) | (b3 as bv32)
  }

  /** Addition modulo 2^32. */
  function Add(x: bv32, y: bv32): bv32 { x + y }

  function Sum4(a: bv32, b: bv32, c: bv32, d: bv32): bv32 { a + b + c + d }

  lemma Sum4Reversed(a: bv32, b: bv32, c: bv32, d: bv32)
    ensures Sum4(d, c, b, a) == Sum4(a, b, c, d)
  {}

  function BytesOf(w: bv32): (r: seq<byte>)
    ensures |r| == 4
  {
    [ByteAt(w, 24), ByteAt(w, 16), ByteAt(w, 8), ByteAt(w, 0)]
  }

  function ByteAt(w: bv32, shift: bv32): byte
    requires shift <= 24
  {
    ((w >> shift) & 0xff) as bv8 as int
  }
}
