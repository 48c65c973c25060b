/**
 * The few A64 instructions the accessor stubs are made of: fields, execution and encoding, following
 * section C6.2 of the Arm Architecture Reference Manual (DDI 0487).
 */
module A64 {
  import opened LittleEndian

  datatype Insn =
    | Movz(rd: bv5, hw: bv2, imm16: bv16)
    | Movk(rd: bv5, hw: bv2, imm16: bv16)
    | Adrp(rd: bv5, immlo: bv2, immhi: bv19)
    | AddImm(rd: bv5, rn: bv5, imm12: bv12, shifted: bool)
    | Ret(rn: bv5)
    | Bti
    | Other

  const RET_X30: bv32 := 0xd65f_03c0

  /** The BTI hints, and the unallocated hints between them, which execute as NOP. */
  predicate IsBti(w: bv32) {
    (w & 0xffff_ff1f) == 0xd503_241f
  }

  /** All four BTI hints are among the eight words taken for a landing pad. */
  lemma LandingPads(w: bv32)
    ensures IsBti(w) <==>
            w in {0xd503_241f, 0xd503_243f, 0xd503_245f, 0xd503_247f,
                  0xd503_249f, 0xd503_24bf, 0xd503_24df, 0xd503_24ff}
  {
  }

  /** RET is the return through x30. */
  lemma RetReturnsThroughLink()
    ensures Disassemble(RET_X30) == Ret(30) && RET_X30 == 0xd65f_03c0
  {
  }

  // Instruction fields, named as in the manual; the top nine bits carry sf, opc and the fixed opcode.

  function Top9(w: bv32): bv32 {
    w >> 23
  }

  function Rd(w: bv32): bv5 {
    (w & 0x1f) as bv5
  }

  function Rn(w: bv32): bv5 {
    ((w >> 5) & 0x1f) as bv5
  }

  function Hw(w: bv32): bv2 {
    ((w >> 21) & 3) as bv2
  }

  function Imm16(w: bv32): bv16 {
    ((w >> 5) & 0xffff) as bv16
  }

  function Imm12(w: bv32): bv12 {
    ((w >> 10) & 0xfff) as bv12
  }

  function Immlo(w: bv32): bv2 {
    ((w >> 29) & 3) as bv2
  }

  function Immhi(w: bv32): bv19 {
    ((w >> 5) & 0x7_ffff) as bv19
  }

  predicate Sh(w: bv32) {
    ((w >> 22) & 1) == 1
  }

  predicate IsAdrp(w: bv32) {
    (w >> 31) == 1 && ((w >> 24) & 0x1f) == 0x10
  }

  predicate IsRet(w: bv32) {
    (w & 0xffff_fc1f) == 0xd65f_0000
  }

  function Disassemble(w: bv32): Insn {
    if Top9(w) == 0x1a5 then Movz(Rd(w), Hw(w), Imm16(w))
    else if Top9(w) == 0x1e5 then Movk(Rd(w), Hw(w), Imm16(w))
    else if Top9(w) == 0x122 then AddImm(Rd(w), Rn(w), Imm12(w), Sh(w))
    else if IsAdrp(w) then Adrp(Rd(w), Immlo(w), Immhi(w))
    else if IsRet(w) then Ret(Rn(w))
    else if IsBti(w) then Bti
    else Other
  }

  /** General registers x0 to x30 and the stack pointer; register number 31 is special. */
  datatype Cpu = Cpu(x: bv5 -> bv64, sp: bv64)

  /** The value of a source register where number 31 means XZR. */
  function ReadZr(c: Cpu, r: bv5): bv64 {
    if r == 31 then 0 else c.x(r)
  }

  function WriteZr(c: Cpu, r: bv5, v: bv64): Cpu {
    if r == 31 then c else c.(x := (q: bv5) => if q == r then v else c.x(q))
  }

  /** The value of a source register where number 31 means SP, as in ADD (immediate). */
  function ReadSp(c: Cpu, r: bv5): bv64 {
    if r == 31 then c.sp else c.x(r)
  }

  function WriteSp(c: Cpu, r: bv5, v: bv64): Cpu {
    if r == 31 then c.(sp := v) else c.(x := (q: bv5) => if q == r then v else c.x(q))
  }

  function Place(imm16: bv16, hw: bv2): bv64 {
    match hw
    case 0 => imm16 as bv64
    case 1 => (imm16 as bv64) << 16
    case 2 => (imm16 as bv64) << 32
    case _ => (imm16 as bv64) << 48
  }

  function Keep(v: bv64, imm16: bv16, hw: bv2): bv64 {
    (v & !Place(0xffff, hw)) | Place(imm16, hw)
  }

  function Page(pc: bv64): bv64 {
    pc & !0xfff
  }

  function Imm21(immlo: bv2, immhi: bv19): bv64 {
    ((immhi as bv64) << 2) | (immlo as bv64)
  }

  /** SignExtend(imm:Zeros(12), 64) of a 21-bit immediate. */
  function PageOffset(imm21: bv64): bv64 {
    if (imm21 & 0x10_0000) != 0 then (imm21 | 0xffff_ffff_ffe0_0000) << 12 else imm21 << 12
  }

  function AdrpTarget(pc: bv64, w: bv32): bv64 {
    Plus(Page(pc), PageOffset(Imm21(Immlo(w), Immhi(w))))
  }

  function AddOperand(imm12: bv12, shifted: bool): bv64 {
    if shifted then (imm12 as bv64) << 12 else imm12 as bv64
  }

  /** Execute a non-branching instruction at address `pc`; none for a branch or anything unmodelled. */
  datatype Outcome = Next(cpu: Cpu) | Stuck

  function Step(i: Insn, pc: bv64, c: Cpu): Outcome {
    match i
    case Movz(rd, hw, imm16) => Next(WriteZr(c, rd, Place(imm16, hw)))
    case Movk(rd, hw, imm16) => Next(WriteZr(c, rd, Keep(ReadZr(c, rd), imm16, hw)))
    case Adrp(rd, immlo, immhi) => Next(WriteZr(c, rd, Plus(Page(pc), PageOffset(Imm21(immlo, immhi)))))
    case AddImm(rd, rn, imm12, shifted) => Next(WriteSp(c, rd, Plus(ReadSp(c, rn), AddOperand(imm12, shifted))))
    case Bti => Next(c)
    case _ => Stuck
  }

  datatype Returned = Returned(x0: bv64) | Crashed

  /** Run a function's code from its first word until it returns through x30, and give x0. */
  function Call(words: seq<bv32>, pc: bv64, c: Cpu): Returned {
    if words == [] then Crashed
    else if words[0] == RET_X30 then Returned(c.x(0))
    else
      match Step(Disassemble(words[0]), pc, c)
      case Next(c') => Call(words[1..], Plus(pc, 4), c')
      case Stuck => Crashed
  }

  // ----- Code as words -----

  /** The whole words of a buffer from `off` on. */
  function Words(buf: seq<bv8>, off: nat): seq<bv32>
    decreases |buf| - off
  {
    if off + 4 <= |buf| then [Word(buf, off)] + Words(buf, off + 4) else []
  }

  lemma {:induction false} WordAt(buf: seq<bv8>, off: nat, i: nat)
    ensures i < |Words(buf, off)| <==> off + 4 * i + 4 <= |buf|
    ensures i < |Words(buf, off)| ==> Words(buf, off)[i] == Word(buf, off + 4 * i)
    decreases i
  {
    hide Word;
    if i > 0 && off + 4 <= |buf| { WordAt(buf, off + 4, i - 1); }
  }

  lemma WordsFront(buf: seq<bv8>)
    requires |buf| >= 4
    ensures Words(buf, 0) == [Word(buf, 0)] + Words(buf, 4)
  {
  }

  /** Where a function's code starts after an optional landing pad. */
  function StartOf(buf: seq<bv8>): (off: nat)
    ensures off == 0 || (off == 4 && |buf| >= 4)
  {
    if |buf| >= 4 && IsBti(Word(buf, 0)) then 4 else 0
  }

  function Body(buf: seq<bv8>): seq<bv32> {
    Words(buf, StartOf(buf))
  }

  function Assemble(ws: seq<bv32>): (buf: seq<bv8>)
    ensures |buf| == 4 * |ws|
  {
    if ws == [] then [] else WordBytes(ws[0]) + Assemble(ws[1..])
  }

  lemma {:induction false} AssembledWord(ws: seq<bv32>, tail: seq<bv8>, i: nat)
    requires i < |ws|
    ensures Word(Assemble(ws) + tail, 4 * i) == ws[i]
  {
    var buf := Assemble(ws) + tail;
    var rest := Assemble(ws[1..]) + tail;
    assert buf == WordBytes(ws[0]) + rest;
    if i == 0 {
      WordRoundTrip(ws[0], buf[0], buf[1], buf[2], buf[3]);
    } else {
      AssembledWord(ws[1..], tail, i - 1);
      var j := 4 * i;
      assert buf[j] == rest[j - 4] && buf[j + 1] == rest[j - 3];
      assert buf[j + 2] == rest[j - 2] && buf[j + 3] == rest[j - 1];
    }
  }

  /** Reading back assembled code from its k-th word on. */
  lemma {:induction false} AssembledWords(ws: seq<bv32>, tail: seq<bv8>, k: nat)
    requires k <= |ws|
    ensures ws[k..] <= Words(Assemble(ws) + tail, 4 * k)
    decreases |ws| - k
  {
    hide Word, Assemble;
    if k < |ws| {
      AssembledWord(ws, tail, k);
      AssembledWords(ws, tail, k + 1);
      assert ws[k..] == [ws[k]] + ws[k + 1..];
    }
  }

  // ----- Encoding -----

  function EncodeMovz(hw: bv2, imm16: bv16): bv32 {
    0xd280_0000 | ((hw as bv32) << 21) | ((imm16 as bv32) << 5)
  }

  function EncodeMovk(hw: bv2, imm16: bv16): bv32 {
    0xf280_0000 | ((hw as bv32) << 21) | ((imm16 as bv32) << 5)
  }

  function EncodeAdrp(immlo: bv2, immhi: bv19): bv32 {
    0x9000_0000 | ((immlo as bv32) << 29) | ((immhi as bv32) << 5)
  }

  function EncodeAdd(imm12: bv12): bv32 {
    0x9100_0000 | ((imm12 as bv32) << 10)
  }

  /** Encodings targeting x0 disassemble back to themselves. */
  lemma EncodeDisassembles(hw: bv2, imm16: bv16, immlo: bv2, immhi: bv19, imm12: bv12)
    ensures Disassemble(EncodeMovz(hw, imm16)) == Movz(0, hw, imm16)
    ensures Disassemble(EncodeMovk(hw, imm16)) == Movk(0, hw, imm16)
    ensures Disassemble(EncodeAdrp(immlo, immhi)) == Adrp(0, immlo, immhi)
    ensures Disassemble(EncodeAdd(imm12)) == AddImm(0, 0, imm12, false)
  {
  }
}
