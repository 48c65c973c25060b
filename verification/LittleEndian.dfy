/** Bytes as little-endian words, and address arithmetic modulo 2^64. */
module LittleEndian {

  /** Addition modulo 2^64. */
  function Plus(a: bv64, b: bv64): bv64 {
    a + b
  }

  lemma PlusZero(a: bv64)
    ensures Plus(a, 0) == a
  {
  }

  function Word(buf: seq<bv8>, off: nat): bv32
    requires off + 4 <= |buf|
  {
    ((buf[off + 3] as bv32) << 24) | ((buf[off + 2] as bv32) << 16) | ((buf[off + 1] as bv32) << 8) |
    (buf[off] as bv32)
  }

  function WordBytes(w: bv32): (b: seq<bv8>)
    ensures |b| == 4
  {
    [(w & 0xff) as bv8, ((w >> 8) & 0xff) as bv8, ((w >> 16) & 0xff) as bv8, (w >> 24) as bv8]
  }

  lemma WordRoundTrip(w: bv32, b0: bv8, b1: bv8, b2: bv8, b3: bv8)
    requires [b0, b1, b2, b3] == WordBytes(w)
    ensures ((b3 as bv32) << 24) | ((b2 as bv32) << 16) | ((b1 as bv32) << 8) | (b0 as bv32) == w
  {
    assert b0 == (w & 0xff) as bv8 && b1 == ((w >> 8) & 0xff) as bv8;
    assert b2 == ((w >> 16) & 0xff) as bv8 && b3 == (w >> 24) as bv8;
  }

  lemma WordIs(buf: seq<bv8>, off: nat, w: bv32)
    requires off + 4 <= |buf| && buf[off..off + 4] == WordBytes(w)
    ensures Word(buf, off) == w
  {
    var b := buf[off..off + 4];
    assert b[0] == buf[off] && b[1] == buf[off + 1] && b[2] == buf[off + 2] && b[3] == buf[off + 3];
    assert b == [b[0], b[1], b[2], b[3]];
    WordRoundTrip(w, b[0], b[1], b[2], b[3]);
  }
}
