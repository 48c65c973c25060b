/** The remote process's memory: a partial byte map read whole or not at all, and little-endian integers. */
module Memory {
  import opened Wrappers

  type byte = b: int | 0 <= b < 256

  type Mem = map<nat, byte>

  const U64 := 0x1_0000_0000_0000_0000

  type u64 = x: nat | x < U64

  /** u64 addition as the release build does it: modulo 2^64. */
  function Add(a: nat, b: nat): u64 {
    (a + b) % U64
  }

  /** One step past the end wraps around. */
  lemma AddWraps(a: u64, b: u64)
    ensures Add(a, b) == if a + b <= 0xffff_ffff_ffff_ffff then a + b else a + b - 0x1_0000_0000_0000_0000
  {
  }

  predicate Readable(mem: Mem, addr: nat, n: nat) {
    forall a: nat :: addr <= a < addr + n ==> a in mem
  }

  /** `Remote::read`: exactly `n` bytes or an error; reading nothing always succeeds. */
  function Read(mem: Mem, addr: nat, n: nat): (r: Result<seq<byte>>)
    ensures r.Ok? <==> Readable(mem, addr, n)
    ensures r.Ok? ==> |r.value| == n && forall i :: 0 <= i < n ==> r.value[i] == mem[addr + i]
  {
    if Readable(mem, addr, n) then
      Ok(seq(n, i requires 0 <= i < n && Readable(mem, addr, n) => mem[addr + i]))
    else Err
  }

  /** The value of little-endian bytes. */
  function LeValue(bytes: seq<byte>): nat {
    if bytes == [] then 0 else bytes[0] + 256 * LeValue(bytes[1..])
  }

  function LeBytes(v: nat, n: nat): (bytes: seq<byte>)
    ensures |bytes| == n
  {
    if n == 0 then [] else [v % 256] + LeBytes(v / 256, n - 1)
  }

  function Pow256(n: nat): nat {
    if n == 0 then 1 else 256 * Pow256(n - 1)
  }

  lemma {:induction false} LeRoundTrip(v: nat, n: nat)
    requires v < Pow256(n)
    ensures LeValue(LeBytes(v, n)) == v
  {
    if n > 0 {
      assert LeBytes(v, n)[1..] == LeBytes(v / 256, n - 1);
      LeRoundTrip(v / 256, n - 1);
    }
  }

  lemma {:induction false} LeBound(bytes: seq<byte>)
    ensures LeValue(bytes) < Pow256(|bytes|)
  {
    if bytes != [] { LeBound(bytes[1..]); }
  }

  lemma {:induction false} LeInverse(bytes: seq<byte>)
    ensures LeBytes(LeValue(bytes), |bytes|) == bytes
  {
    if bytes != [] {
      LeInverse(bytes[1..]);
      LowDigit(bytes[0], LeValue(bytes[1..]));
    }
  }

  lemma LowDigit(low: byte, rest: nat)
    ensures (low + 256 * rest) % 256 == low && (low + 256 * rest) / 256 == rest
  {
  }

  /** The low byte comes first. */
  lemma LowByteFirst()
    ensures LeBytes(0x04030201, 4) == [1, 2, 3, 4] && LeValue([1, 2, 3, 4]) == 0x04030201
  {
    assert LeBytes(0x04030201, 4)[1..] == LeBytes(0x040302, 3);
    assert LeBytes(0x040302, 3)[1..] == LeBytes(0x0403, 2);
    assert LeBytes(0x0403, 2)[1..] == LeBytes(0x04, 1);
    Widths();
    LeRoundTrip(0x04030201, 4);
  }

  lemma Widths()
    ensures Pow256(8) == U64 && Pow256(4) == 0x1_0000_0000
  {
    assert Pow256(4) == 256 * 256 * 256 * 256;
    assert Pow256(8) == 256 * 256 * 256 * 256 * Pow256(4);
  }

  /** `read_u64(&buf, off)`: the eight bytes at `off`. */
  function U64At(buf: seq<byte>, off: nat): (v: u64)
    requires off + 8 <= |buf|
  {
    Widths();
    LeBound(buf[off..off + 8]);
    LeValue(buf[off..off + 8])
  }

  function U32At(buf: seq<byte>, off: nat): nat
    requires off + 4 <= |buf|
  {
    LeValue(buf[off..off + 4])
  }

  function ReadU64(mem: Mem, addr: nat): Result<u64> {
    var bytes :- Read(mem, addr, 8);
    Ok(U64At(bytes, 0))
  }

  function ReadU32(mem: Mem, addr: nat): Result<nat> {
    var bytes :- Read(mem, addr, 4);
    Ok(U32At(bytes, 0))
  }

  /** The u64 at an address; 0 stands for one that cannot be read. */
  function Peek(mem: Mem, addr: nat): (v: u64) {
    if Readable(mem, addr, 8) then U64At(Read(mem, addr, 8).value, 0) else 0
  }

  lemma PeekReads(mem: Mem, addr: nat)
    ensures ReadU64(mem, addr) == if Readable(mem, addr, 8) then Ok(Peek(mem, addr)) else Err
    ensures ReadU64(mem, addr).GetOr(0) == Peek(mem, addr)
  {
  }

  /** A field read out of a larger buffer is the u64 at its address. */
  lemma FieldIsPeek(mem: Mem, addr: nat, n: nat, off: nat)
    requires Readable(mem, addr, n) && off + 8 <= n
    ensures Readable(mem, addr + off, 8)
    ensures U64At(Read(mem, addr, n).value, off) == Peek(mem, addr + off)
  {
    assert Read(mem, addr, n).value[off..off + 8] == Read(mem, addr + off, 8).value[0..8];
  }

  // ----- Data laid out in memory -----

  ghost predicate Holds(mem: Mem, addr: nat, bytes: seq<byte>) {
    forall a: nat :: addr <= a < addr + |bytes| ==> a in mem && mem[a] == bytes[a - addr]
  }

  ghost predicate Holds64(mem: Mem, addr: nat, v: u64) {
    Holds(mem, addr, LeBytes(v, 8))
  }

  ghost predicate Holds32(mem: Mem, addr: nat, v: nat) {
    v < 0x1_0000_0000 && Holds(mem, addr, LeBytes(v, 4))
  }

  /** A field read out of a larger buffer is the integer laid out at its address. */
  lemma FieldHeld(mem: Mem, addr: nat, n: nat, off: nat, v: u64)
    requires Readable(mem, addr, n) && off + 8 <= n && Holds64(mem, addr + off, v)
    ensures U64At(Read(mem, addr, n).value, off) == v
  {
    var field := Read(mem, addr, n).value[off..off + 8];
    assert field == LeBytes(v, 8);
    Widths();
    LeRoundTrip(v, 8);
  }

  lemma Field32Held(mem: Mem, addr: nat, n: nat, off: nat, v: nat)
    requires Readable(mem, addr, n) && off + 4 <= n && Holds32(mem, addr + off, v)
    ensures U32At(Read(mem, addr, n).value, off) == v
  {
    var field := Read(mem, addr, n).value[off..off + 4];
    assert field == LeBytes(v, 4);
    Widths();
    LeRoundTrip(v, 4);
  }

  lemma ReadHeld(mem: Mem, addr: nat, bytes: seq<byte>)
    requires Holds(mem, addr, bytes)
    ensures Read(mem, addr, |bytes|) == Ok(bytes)
  {
    assert Read(mem, addr, |bytes|).value == bytes;
  }

  lemma U64Held(mem: Mem, addr: nat, v: u64)
    requires Holds64(mem, addr, v)
    ensures ReadU64(mem, addr) == Ok(v)
  {
    FieldHeld(mem, addr, 8, 0, v);
  }

  lemma U32Held(mem: Mem, addr: nat, v: nat)
    requires Holds32(mem, addr, v)
    ensures ReadU32(mem, addr) == Ok(v)
  {
    Field32Held(mem, addr, 4, 0, v);
  }

  /** Whatever is readable holds the integer that is read. */
  lemma PeekHeld(mem: Mem, addr: nat)
    requires Readable(mem, addr, 8)
    ensures Holds64(mem, addr, Peek(mem, addr))
  {
    var bytes := Read(mem, addr, 8).value;
    assert bytes[0..8] == bytes;
    LeInverse(bytes);
    hide LeBytes, LeValue;
  }

  lemma Peek32Held(mem: Mem, addr: nat)
    requires Readable(mem, addr, 4)
    ensures ReadU32(mem, addr).Ok? && Holds32(mem, addr, ReadU32(mem, addr).value)
  {
    var bytes := Read(mem, addr, 4).value;
    assert bytes[0..4] == bytes;
    LeInverse(bytes);
    LeBound(bytes);
    Widths();
    hide LeBytes, LeValue;
  }
}
