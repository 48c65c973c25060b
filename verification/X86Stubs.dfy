/**
 * The x86_64 accessor stubs: a byte-level machine for the four instructions they use (RIP-relative LEA as
 * in section 2.2.1.6 of the Intel SDM, Vol. 2A), and the two decoders proved against it.
 */
module X86Stubs {
  import opened Wrappers
  import opened LittleEndian

  const ENDBR64: seq<bv8> := [0xf3, 0x0f, 0x1e, 0xfa]
  const LEA_RIP_RAX: seq<bv8> := [0x48, 0x8d, 0x05]
  const MOV_IMM_RAX: seq<bv8> := [0x48, 0xc7, 0xc0]
  const RET: bv8 := 0xc3

  /** `i32 as i64`. */
  function SignExtend32(d: bv32): bv64 {
    if (d & 0x8000_0000) != 0 then 0xffff_ffff_0000_0000 | (d as bv64) else d as bv64
  }

  datatype Returned = Returned(rax: bv64) | Crashed

  /** Run code bytes at address `rip` until RET. */
  function Call(code: seq<bv8>, rip: bv64, rax: bv64): Returned
    decreases |code|
  {
    if |code| >= 1 && code[0] == RET then Returned(rax)
    else if |code| >= 4 && code[..4] == ENDBR64 then Call(code[4..], Plus(rip, 4), rax)
    else if |code| >= 7 && code[..3] == LEA_RIP_RAX then
      var next := Plus(rip, 7);
      Call(code[7..], next, Plus(next, SignExtend32(Word(code, 3))))
    else if |code| >= 7 && code[..3] == MOV_IMM_RAX then
      Call(code[7..], Plus(rip, 7), SignExtend32(Word(code, 3)))
    else Crashed
  }

  function StartOf(buf: seq<bv8>): (off: nat)
    ensures off == 0 || (off == 4 && |buf| >= 4)
  {
    if |buf| >= 4 && buf[..4] == ENDBR64 then 4 else 0
  }

  /** `decode_php_version_prologue`. */
  function DecodePhpVersionPrologue(fnAddr: bv64, buf: seq<bv8>): Result<bv64> {
    var leaOff := StartOf(buf);
    var lea := buf[leaOff..];
    if |lea| < 8 || lea[..3] != LEA_RIP_RAX || lea[7] != RET then Err
    else
      var disp := SignExtend32(Word(lea, 3));
      var nextInsn := Plus(Plus(fnAddr, leaOff as bv64), 7);
      Ok(Plus(nextInsn, disp))
  }

  /** `decode_tcb_offset_bytes`. */
  function DecodeTcbOffsetBytes(buf: seq<bv8>): Result<bv64> {
    var off := StartOf(buf);
    if |buf| < off + 8 then Err
    else
      var s := buf[off..];
      if s[0] == 0x48 && s[1] == 0xc7 && s[2] == 0xc0 && s[7] == RET then Ok(SignExtend32(Word(s, 3)))
      else Err
  }

  /** An optional ENDBR64, one seven-byte instruction with this opcode, and RET. */
  predicate IsStub(buf: seq<bv8>, opcode: seq<bv8>) {
    var s := buf[StartOf(buf)..];
    |s| >= 8 && opcode <= s[..3] && s[7] == RET
  }

  function Stub(pad: seq<bv8>, opcode: seq<bv8>, imm: bv32): seq<bv8> {
    pad + opcode + WordBytes(imm) + [RET]
  }

  lemma CallFromStart(buf: seq<bv8>, rip: bv64, rax: bv64)
    ensures Call(buf, rip, rax) == Call(buf[StartOf(buf)..], Plus(rip, StartOf(buf) as bv64), rax)
  {
    if StartOf(buf) == 4 {
      assert buf[..4][0] == 0xf3;
    } else {
      assert buf[0..] == buf;
      PlusZero(rip);
    }
  }

  lemma CallLea(s: seq<bv8>, rip: bv64, rax: bv64)
    requires |s| >= 8 && s[..3] == LEA_RIP_RAX && s[7] == RET
    ensures Call(s, rip, rax) == Returned(Plus(Plus(rip, 7), SignExtend32(Word(s, 3))))
  {
    hide SignExtend32, Plus, Word;
    assert s[0] == s[..3][0] == 0x48;
    assert s[..4][0] == 0x48;
    assert s[7..][0] == RET;
  }

  lemma CallMov(s: seq<bv8>, rip: bv64, rax: bv64)
    requires |s| >= 8 && s[..3] == MOV_IMM_RAX && s[7] == RET
    ensures Call(s, rip, rax) == Returned(SignExtend32(Word(s, 3)))
  {
    hide SignExtend32, Plus, Word;
    assert s[0] == s[..3][0] == 0x48 && s[..3][1] == 0xc7;
    assert s[..4][0] == 0x48;
    assert s[7..][0] == RET;
  }

  /** Accepted are exactly the LEA stubs, and what is decoded is what the machine returns. */
  lemma VersionPrologueIsExact(fnAddr: bv64, buf: seq<bv8>)
    ensures DecodePhpVersionPrologue(fnAddr, buf).Ok? <==> IsStub(buf, LEA_RIP_RAX)
    ensures DecodePhpVersionPrologue(fnAddr, buf).Ok? ==>
              forall rax :: Call(buf, fnAddr, rax) == Returned(DecodePhpVersionPrologue(fnAddr, buf).value)
  {
    hide SignExtend32, Plus, Word, StartOf, Call;
    var s := buf[StartOf(buf)..];
    assert |s| >= 8 ==> (LEA_RIP_RAX <= s[..3] <==> s[..3] == LEA_RIP_RAX);
    if DecodePhpVersionPrologue(fnAddr, buf).Ok? {
      forall rax ensures Call(buf, fnAddr, rax) == Returned(DecodePhpVersionPrologue(fnAddr, buf).value) {
        CallFromStart(buf, fnAddr, rax);
        CallLea(s, Plus(fnAddr, StartOf(buf) as bv64), rax);
      }
    }
  }

  /** Accepted are exactly the MOV stubs, and what is decoded is what the machine returns from any address. */
  lemma TcbOffsetIsExact(buf: seq<bv8>)
    ensures DecodeTcbOffsetBytes(buf).Ok? <==> IsStub(buf, MOV_IMM_RAX)
    ensures DecodeTcbOffsetBytes(buf).Ok? ==>
              forall rip, rax :: Call(buf, rip, rax) == Returned(DecodeTcbOffsetBytes(buf).value)
  {
    hide SignExtend32, Plus, Word, StartOf, Call;
    var s := buf[StartOf(buf)..];
    if |s| >= 8 {
      assert MOV_IMM_RAX <= s[..3] <==> s[0] == 0x48 && s[1] == 0xc7 && s[2] == 0xc0;
      assert MOV_IMM_RAX <= s[..3] <==> s[..3] == MOV_IMM_RAX;
    }
    if DecodeTcbOffsetBytes(buf).Ok? {
      forall rip, rax ensures Call(buf, rip, rax) == Returned(DecodeTcbOffsetBytes(buf).value) {
        CallFromStart(buf, rip, rax);
        CallMov(s, Plus(rip, StartOf(buf) as bv64), rax);
      }
    }
  }

  /** Every signed 32-bit immediate round-trips through both stubs, with or without ENDBR64. */
  lemma StubsRoundTrip(pad: seq<bv8>, imm: bv32, tail: seq<bv8>, fnAddr: bv64)
    requires pad == [] || pad == ENDBR64
    ensures DecodeTcbOffsetBytes(Stub(pad, MOV_IMM_RAX, imm) + tail) == Ok(SignExtend32(imm))
    ensures DecodePhpVersionPrologue(fnAddr, Stub(pad, LEA_RIP_RAX, imm) + tail) ==
            Ok(Plus(Plus(Plus(fnAddr, |pad| as bv64), 7), SignExtend32(imm)))
  {
    hide SignExtend32, Plus, Word;
    StubFields(pad, MOV_IMM_RAX, imm, tail);
    StubFields(pad, LEA_RIP_RAX, imm, tail);
    var mov := (Stub(pad, MOV_IMM_RAX, imm) + tail)[|pad|..];
    assert mov[0] == mov[..3][0] && mov[1] == mov[..3][1] && mov[2] == mov[..3][2];
  }

  lemma StubFields(pad: seq<bv8>, opcode: seq<bv8>, imm: bv32, tail: seq<bv8>)
    requires pad == [] || pad == ENDBR64
    requires |opcode| == 3 && opcode[0] == 0x48
    ensures var buf := Stub(pad, opcode, imm) + tail;
            && StartOf(buf) == |pad|
            && var s := buf[|pad|..];
            |s| >= 8 && s[..3] == opcode && s[7] == RET && Word(s, 3) == imm
  {
    hide Word, WordBytes;
    var buf := Stub(pad, opcode, imm) + tail;
    var s := buf[|pad|..];
    assert s == opcode + WordBytes(imm) + [RET] + tail;
    assert s[3..7] == WordBytes(imm);
    WordIs(s, 3, imm);
    if pad == [] {
      assert buf[..4][0] == 0x48;
    } else {
      assert buf[..4] == ENDBR64;
    }
  }

  // ----- Signed values and PHP's own stubs, byte by byte -----

  function Widened(d: bv32): bv64 {
    d as bv64
  }

  function OnesAbove(d: bv32): bv64 {
    0xffff_ffff_0000_0000 | (d as bv64)
  }

  function LowerHalf(v: bv64): bv64 {
    v & 0xffff_ffff
  }

  lemma LowerHalves(d: bv32)
    ensures LowerHalf(OnesAbove(d)) == Widened(d) && LowerHalf(Widened(d)) == Widened(d)
  {
  }

  lemma EitherExtension(d: bv32)
    ensures SignExtend32(d) == OnesAbove(d) || SignExtend32(d) == Widened(d)
  {
  }

  /** The upper half repeats the sign bit. */
  lemma SignIsExtended(d: bv32)
    ensures SignExtend32(d) >> 32 == if (d & 0x8000_0000) == 0 then 0 else 0xffff_ffff
  {
  }

  /** The lower half is the immediate. */
  lemma ImmediateIsKept(d: bv32)
    ensures LowerHalf(SignExtend32(d)) == Widened(d)
  {
    hide SignExtend32, OnesAbove, Widened, LowerHalf;
    EitherExtension(d);
    LowerHalves(d);
  }

  function Low32(v: bv64): bv32 {
    (v & 0xffff_ffff) as bv32
  }

  /** A signed 32-bit value: all upper bits equal its sign. */
  predicate IsSigned32(v: bv64) {
    v >> 31 == 0 || v >> 31 == 0x1_ffff_ffff
  }

  lemma PositiveRebuilds(v: bv64)
    requires v >> 31 == 0
    ensures Low32(v) & 0x8000_0000 == 0 && Low32(v) as bv64 == v
  {
  }

  lemma NegativeRebuilds(v: bv64)
    requires v >> 31 == 0x1_ffff_ffff
    ensures Low32(v) & 0x8000_0000 == 0x8000_0000 && 0xffff_ffff_0000_0000 | (Low32(v) as bv64) == v
  {
  }

  lemma SignedRebuilds(v: bv64)
    requires IsSigned32(v)
    ensures SignExtend32(Low32(v)) == v
  {
    if v >> 31 == 0 { PositiveRebuilds(v); } else { NegativeRebuilds(v); }
    hide Low32;
  }

  /**
   * Every signed 32-bit value comes back from the MOV stub that loads it, and as the distance from the next
   * instruction from the LEA stub, with or without ENDBR64.
   */
  lemma SignedValuesRoundTrip(pad: seq<bv8>, v: bv64, tail: seq<bv8>, fnAddr: bv64)
    requires pad == [] || pad == [0xf3, 0x0f, 0x1e, 0xfa]
    requires IsSigned32(v)
    ensures DecodeTcbOffsetBytes(pad + [0x48, 0xc7, 0xc0] + WordBytes(Low32(v)) + [0xc3] + tail) == Ok(v)
    ensures DecodePhpVersionPrologue(fnAddr, pad + [0x48, 0x8d, 0x05] + WordBytes(Low32(v)) + [0xc3] + tail) ==
            Ok(Plus(Plus(Plus(fnAddr, |pad| as bv64), 7), v))
  {
    hide SignExtend32, Plus, WordBytes, Low32, IsSigned32, DecodeTcbOffsetBytes, DecodePhpVersionPrologue;
    SignedRebuilds(v);
    StubsRoundTrip(pad, Low32(v), tail, fnAddr);
  }

  lemma StubBytes()
    ensures WordBytes(0xffff_ffe8) == [0xe8, 0xff, 0xff, 0xff]
    ensures WordBytes(0x001a_63de) == [0xde, 0x63, 0x1a, 0x00]
    ensures Low32(0xffff_ffff_ffff_ffe8) == 0xffff_ffe8 && IsSigned32(0xffff_ffff_ffff_ffe8)
    ensures Low32(0x1a_63de) == 0x1a_63de && IsSigned32(0x1a_63de)
    ensures Plus(Plus(Plus(0x29_d640, 0), 7), 0x1a_63de) == 0x44_3a25
    ensures Plus(Plus(Plus(0x29_d640, 4), 7), 0x1a_63de) == 0x44_3a29
  {
  }

  /** Accessors as found in PHP builds: `mov $-0x18, %rax`, and a `lea` without and with ENDBR64. */
  lemma RealStubsDecode()
    ensures DecodeTcbOffsetBytes([0x48, 0xc7, 0xc0, 0xe8, 0xff, 0xff, 0xff, 0xc3, 0, 0, 0, 0]) ==
            Ok(0xffff_ffff_ffff_ffe8)
    ensures DecodePhpVersionPrologue(0x29_d640, [0x48, 0x8d, 0x05, 0xde, 0x63, 0x1a, 0x00, 0xc3, 0, 0, 0, 0]) ==
            Ok(0x44_3a25)
    ensures var padded := [0xf3, 0x0f, 0x1e, 0xfa, 0x48, 0x8d, 0x05, 0xde, 0x63, 0x1a, 0x00, 0xc3];
            DecodePhpVersionPrologue(0x29_d640, padded) == Ok(0x44_3a29)
  {
    RealMovDecodes();
    RealLeaDecodes([], [0, 0, 0, 0]);
    RealLeaDecodes([0xf3, 0x0f, 0x1e, 0xfa], []);
    RealLeaBytes();
    hide DecodeTcbOffsetBytes, DecodePhpVersionPrologue;
  }

  function LeaBytes(pad: seq<bv8>, tail: seq<bv8>): seq<bv8> {
    pad + [0x48, 0x8d, 0x05] + [0xde, 0x63, 0x1a, 0x00] + [0xc3] + tail
  }

  lemma RealLeaBytes()
    ensures LeaBytes([], [0, 0, 0, 0]) == [0x48, 0x8d, 0x05, 0xde, 0x63, 0x1a, 0x00, 0xc3, 0, 0, 0, 0]
    ensures LeaBytes([0xf3, 0x0f, 0x1e, 0xfa], []) ==
            [0xf3, 0x0f, 0x1e, 0xfa, 0x48, 0x8d, 0x05, 0xde, 0x63, 0x1a, 0x00, 0xc3]
  {
  }

  lemma RealMovDecodes()
    ensures DecodeTcbOffsetBytes([0x48, 0xc7, 0xc0, 0xe8, 0xff, 0xff, 0xff, 0xc3, 0, 0, 0, 0]) ==
            Ok(0xffff_ffff_ffff_ffe8)
  {
    hide Plus, DecodeTcbOffsetBytes, DecodePhpVersionPrologue;
    StubBytes();
    hide WordBytes, Low32, IsSigned32;
    var zeros: seq<bv8> := [0, 0, 0, 0];
    SignedValuesRoundTrip([], 0xffff_ffff_ffff_ffe8, zeros, 0);
    assert [] + [0x48, 0xc7, 0xc0] + [0xe8, 0xff, 0xff, 0xff] + [0xc3] + zeros ==
           [0x48, 0xc7, 0xc0, 0xe8, 0xff, 0xff, 0xff, 0xc3, 0, 0, 0, 0];
  }

  lemma RealLeaDecodes(pad: seq<bv8>, tail: seq<bv8>)
    requires pad == [] || pad == [0xf3, 0x0f, 0x1e, 0xfa]
    ensures DecodePhpVersionPrologue(0x29_d640, LeaBytes(pad, tail)) == Ok(if pad == [] then 0x44_3a25 else 0x44_3a29)
  {
    hide Plus, DecodeTcbOffsetBytes, DecodePhpVersionPrologue;
    StubBytes();
    hide WordBytes, Low32, IsSigned32;
    SignedValuesRoundTrip(pad, 0x1a_63de, tail, 0x29_d640);
    assert |pad| == 0 || |pad| == 4;
    assert |pad| as bv64 == if pad == [] then 0 else 4;
  }
}
