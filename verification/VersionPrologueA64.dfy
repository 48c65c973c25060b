/** The aarch64 decoder of `php_version()`: what it accepts, exactly when it is right, and its round trip. */
module VersionPrologueA64 {
  import opened Wrappers
  import opened LittleEndian
  import opened A64

  /** The address of the first instruction after the landing pad. */
  function Entry(fnAddr: bv64, buf: seq<bv8>): bv64 {
    Plus(fnAddr, StartOf(buf) as bv64)
  }

  // The decoder's own masks and shifts.

  predicate MaskedAdrp(w: bv32) {
    (w & 0x9f00_0000) == 0x9000_0000
  }

  predicate MaskedAdd(w: bv32) {
    (w & 0xff80_0000) == 0x9100_0000
  }

  function DecodedImm(adrp: bv32): bv64 {
    ((((adrp >> 5) & 0x7_ffff) as bv64) << 2) | (((adrp >> 29) & 0x3) as bv64)
  }

  predicate Negative(imm: bv64) {
    (imm & (1 << 20)) != 0
  }

  function Extended(imm: bv64): bv64 {
    imm | !((1 << 21) - 1)
  }

  function DecodedOffset(imm: bv64): bv64 {
    if Negative(imm) then Extended(imm) << 12 else imm << 12
  }

  function DecodedLow(add: bv32): bv64 {
    ((add >> 10) & 0xfff) as bv64
  }

  function DecodePhpVersionPrologue(fnAddr: bv64, buf: seq<bv8>): Result<bv64> {
    if |buf| < 16 then Err
    else
      var off := StartOf(buf);
      if |buf| < off + 12 then Err
      else
        var adrp, add, ret := Word(buf, off), Word(buf, off + 4), Word(buf, off + 8);
        var adrpPc := Plus(fnAddr, off as bv64);
        if !MaskedAdrp(adrp) || !MaskedAdd(add) || ret != RET_X30 then Err
        else Ok(Plus(Plus(Page(adrpPc), DecodedOffset(DecodedImm(adrp))), DecodedLow(add)))
  }

  // ----- The decoder's masks and fields are the instructions' -----

  lemma MasksAreOpcodes(w: bv32)
    ensures MaskedAdrp(w) <==> IsAdrp(w)
    ensures MaskedAdd(w) <==> Top9(w) == 0x122
    ensures IsAdrp(w) ==> Top9(w) != 0x1a5 && Top9(w) != 0x1e5 && Top9(w) != 0x122
  {
  }

  lemma MasksAreInsns(w: bv32)
    ensures MaskedAdrp(w) <==> Disassemble(w).Adrp?
    ensures MaskedAdd(w) <==> Disassemble(w).AddImm?
  {
    hide MaskedAdrp, MaskedAdd, Top9, IsAdrp, IsRet, IsBti, Rd, Rn, Hw, Imm16, Imm12, Immlo, Immhi, Sh;
    MasksAreOpcodes(w);
  }

  lemma FieldsAreDecoded(w: bv32)
    ensures DecodedImm(w) == Imm21(Immlo(w), Immhi(w))
    ensures DecodedLow(w) == Imm12(w) as bv64
  {
  }

  lemma SignBit(imm: bv64)
    ensures Negative(imm) <==> (imm & 0x10_0000) != 0
    ensures Extended(imm) << 12 == (imm | 0xffff_ffff_ffe0_0000) << 12
  {
  }

  lemma OffsetIsDecoded(imm: bv64)
    ensures DecodedOffset(imm) == PageOffset(imm)
  {
    hide Negative, Extended;
    SignBit(imm);
  }

  /** The three words after the landing pad are ADRP, ADD (immediate) and RET; no register is looked at. */
  predicate IsPrologue(ws: seq<bv32>) {
    |ws| >= 3 && Disassemble(ws[0]).Adrp? && Disassemble(ws[1]).AddImm? && ws[2] == RET_X30
  }

  function Target(ws: seq<bv32>, pc: bv64): bv64
    requires IsPrologue(ws)
  {
    Plus(AdrpTarget(pc, ws[0]), Imm12(ws[1]) as bv64)
  }

  /** Accepted are exactly the buffers of at least 16 bytes holding the three instructions. */
  lemma AcceptsExactly(fnAddr: bv64, buf: seq<bv8>)
    ensures var r := DecodePhpVersionPrologue(fnAddr, buf);
            && (r.Ok? <==> |buf| >= 16 && IsPrologue(Body(buf)))
            && (r.Ok? ==> r.value == Target(Body(buf), Entry(fnAddr, buf)))
  {
    hide Words, Word, IsBti, Disassemble, MaskedAdrp, MaskedAdd, DecodedImm, DecodedOffset, DecodedLow;
    hide PageOffset, Imm21, Immlo, Immhi, Imm12, Page, Plus;
    if |buf| >= 16 {
      var ws, off := Body(buf), StartOf(buf);
      WordAt(buf, off, 0);
      WordAt(buf, off, 1);
      WordAt(buf, off, 2);
      MasksAreInsns(ws[0]);
      MasksAreInsns(ws[1]);
      FieldsAreDecoded(ws[0]);
      FieldsAreDecoded(ws[1]);
      OffsetIsDecoded(DecodedImm(ws[0]));
    }
  }

  // ----- When the decoded address is what the function returns -----

  /** The registers carry the page from ADRP into ADD and the sum into x0, and ADD adds what was decoded. */
  predicate Faithful(adrp: Insn, add: Insn)
    requires adrp.Adrp? && add.AddImm?
  {
    if add.rd == 0 then add.rn == adrp.rd && adrp.rd != 31 && (add.shifted ==> add.imm12 == 0)
    else adrp.rd == 0 && add.imm12 == 0
  }

  function X0After(adrp: Insn, add: Insn, page: bv64, c: Cpu): bv64
    requires adrp.Adrp? && add.AddImm?
  {
    var c1 := WriteZr(c, adrp.rd, page);
    WriteSp(c1, add.rd, Plus(ReadSp(c1, add.rn), AddOperand(add.imm12, add.shifted))).x(0)
  }

  lemma Operands(imm12: bv12)
    ensures AddOperand(imm12, false) == imm12 as bv64
    ensures AddOperand(imm12, true) == imm12 as bv64 <==> imm12 == 0
    ensures imm12 as bv64 == 0 <==> imm12 == 0
  {
  }

  function Minus(a: bv64, b: bv64): bv64 {
    a - b
  }

  lemma MinusPlus(a: bv64, b: bv64)
    ensures Minus(a + b, a) == b
  {
  }

  lemma PlusDifference(a: bv64, b: bv64)
    ensures Plus(a, b - a) == b
  {
  }

  lemma PlusMinus(a: bv64, b: bv64)
    ensures Plus(a, Minus(b, a)) == b
  {
    hide Plus;
    PlusDifference(a, b);
  }

  lemma PlusCancels(a: bv64, b: bv64, c: bv64)
    requires Plus(a, b) == Plus(a, c)
    ensures b == c
  {
    hide Minus;
    MinusPlus(a, b);
    MinusPlus(a, c);
  }

  lemma PlusCommutes(a: bv64, b: bv64)
    ensures Plus(a, b) == Plus(b, a)
  {
  }

  /** A register value that ADD would not turn into `sum`. */
  function Missing(sum: bv64, operand: bv64): bv64 {
    if Plus(0, operand) == sum then 1 else 0
  }

  lemma MissingMisses(sum: bv64, operand: bv64)
    ensures Plus(Missing(sum, operand), operand) != sum
  {
    hide Plus;
    PlusCommutes(0, operand);
    PlusCommutes(1, operand);
    if Plus(1, operand) == Plus(0, operand) { PlusCancels(operand, 1, 0); }
  }

  lemma FaithfulIsRight(adrp: Insn, add: Insn, page: bv64, c: Cpu)
    requires adrp.Adrp? && add.AddImm? && Faithful(adrp, add)
    ensures X0After(adrp, add, page, c) == Plus(page, add.imm12 as bv64)
  {
    hide AddOperand, Plus;
    Operands(add.imm12);
    PlusZero(page);
  }

  function Uniform(k: bv64): Cpu {
    Cpu((r: bv5) => k, k)
  }

  lemma WrongSum(adrp: Insn, add: Insn, page: bv64) returns (c: Cpu)
    requires adrp.Adrp? && add.AddImm? && add.rd == 0 && !Faithful(adrp, add)
    ensures X0After(adrp, add, page, c) != Plus(page, add.imm12 as bv64)
  {
    hide AddOperand, Plus, Missing;
    var operand, low := AddOperand(add.imm12, add.shifted), add.imm12 as bv64;
    Operands(add.imm12);
    MissingMisses(Plus(page, low), operand);
    if Plus(page, operand) == Plus(page, low) { PlusCancels(page, operand, low); }
    c := Uniform(Missing(Plus(page, low), operand));
  }

  lemma WrongPage(adrp: Insn, add: Insn, page: bv64) returns (c: Cpu)
    requires adrp.Adrp? && add.AddImm? && add.rd != 0 && !Faithful(adrp, add)
    ensures X0After(adrp, add, page, c) != Plus(page, add.imm12 as bv64)
  {
    hide AddOperand, Plus, Missing;
    var low := add.imm12 as bv64;
    var k := Missing(Plus(page, low), 0);
    Operands(add.imm12);
    PlusZero(page);
    PlusZero(k);
    MissingMisses(Plus(page, low), 0);
    if page == Plus(page, low) { PlusCancels(page, low, 0); }
    c := Uniform(k);
  }

  /** A register file on which an unfaithful pair returns something else than what was decoded. */
  lemma UnfaithfulIsWrong(adrp: Insn, add: Insn, page: bv64) returns (c: Cpu)
    requires adrp.Adrp? && add.AddImm? && !Faithful(adrp, add)
    ensures X0After(adrp, add, page, c) != Plus(page, add.imm12 as bv64)
  {
    hide X0After, Plus;
    if add.rd == 0 { c := WrongSum(adrp, add, page); } else { c := WrongPage(adrp, add, page); }
  }

  lemma CallPrologue(ws: seq<bv32>, pc: bv64, c: Cpu)
    requires IsPrologue(ws)
    ensures Call(ws, pc, c) ==
            Returned(X0After(Disassemble(ws[0]), Disassemble(ws[1]), AdrpTarget(pc, ws[0]), c))
  {
    hide Top9, IsAdrp, IsRet, IsBti, Rd, Rn, Hw, Imm16, Imm12, Immlo, Immhi, Sh;
    hide Imm21, PageOffset, Page, AddOperand, Plus;
    RetIsNeither();
    var i0, i1 := Disassemble(ws[0]), Disassemble(ws[1]);
    var c1 := Step(i0, pc, c).cpu;
    var c2 := Step(i1, Plus(pc, 4), c1).cpu;
    assert ws[1..][1..] == ws[2..];
    assert Call(ws[2..], Plus(Plus(pc, 4), 4), c2) == Returned(c2.x(0));
    assert Call(ws[1..], Plus(pc, 4), c1) == Returned(c2.x(0));
  }

  lemma RetIsNeither()
    ensures !Disassemble(RET_X30).Adrp? && !Disassemble(RET_X30).AddImm?
  {
  }

  lemma PadSteps(w: bv32, rest: seq<bv32>, pc: bv64, c: Cpu)
    requires IsBti(w)
    ensures Call([w] + rest, pc, c) == Call(rest, Plus(pc, 4), c)
  {
    assert Disassemble(w) == Bti && w != RET_X30;
    assert ([w] + rest)[1..] == rest;
  }

  lemma CallFromStart(buf: seq<bv8>, pc: bv64, c: Cpu)
    requires |buf| >= 16
    ensures Call(Words(buf, 0), pc, c) == Call(Body(buf), Entry(pc, buf), c)
  {
    hide IsBti, Word, Call, Words;
    if StartOf(buf) == 4 {
      PadSteps(Word(buf, 0), Words(buf, 4), pc, c);
      WordsFront(buf);
    } else {
      PlusZero(pc);
    }
  }

  /** The function's own result and the decoded address, for one register file. */
  lemma CallAndDecode(fnAddr: bv64, buf: seq<bv8>, c: Cpu)
    requires DecodePhpVersionPrologue(fnAddr, buf).Ok?
    ensures IsPrologue(Body(buf))
    ensures var ws, page := Body(buf), AdrpTarget(Entry(fnAddr, buf), Body(buf)[0]);
            && Call(Words(buf, 0), fnAddr, c) == Returned(X0After(Disassemble(ws[0]), Disassemble(ws[1]), page, c))
            && DecodePhpVersionPrologue(fnAddr, buf).value == Plus(page, Disassemble(ws[1]).imm12 as bv64)
  {
    hide Body, Entry, Words, Disassemble, AdrpTarget, Call, X0After, Plus, DecodePhpVersionPrologue, Imm12;
    AcceptsExactly(fnAddr, buf);
    AddField(Body(buf)[1]);
    CallFromStart(buf, fnAddr, c);
    CallPrologue(Body(buf), Entry(fnAddr, buf), c);
  }

  predicate FaithfulBody(ws: seq<bv32>)
    requires IsPrologue(ws)
  {
    Faithful(Disassemble(ws[0]), Disassemble(ws[1]))
  }

  /** Calling the accessor at `fnAddr` returns `v`, whatever the registers held before. */
  ghost predicate AlwaysReturns(fnAddr: bv64, buf: seq<bv8>, v: bv64) {
    forall c: Cpu :: Call(Words(buf, 0), fnAddr, c) == Returned(v)
  }

  lemma FaithfulReturnsDecoded(fnAddr: bv64, buf: seq<bv8>, c: Cpu)
    requires DecodePhpVersionPrologue(fnAddr, buf).Ok? && IsPrologue(Body(buf)) && FaithfulBody(Body(buf))
    ensures Call(Words(buf, 0), fnAddr, c) == Returned(DecodePhpVersionPrologue(fnAddr, buf).value)
  {
    hide Body, Entry, Words, Disassemble, AdrpTarget, Call, X0After, Faithful, Plus, DecodePhpVersionPrologue;
    CallAndDecode(fnAddr, buf, c);
    var page := AdrpTarget(Entry(fnAddr, buf), Body(buf)[0]);
    FaithfulIsRight(Disassemble(Body(buf)[0]), Disassemble(Body(buf)[1]), page, c);
  }

  lemma UnfaithfulReturnsOther(fnAddr: bv64, buf: seq<bv8>) returns (c: Cpu)
    requires DecodePhpVersionPrologue(fnAddr, buf).Ok? && IsPrologue(Body(buf)) && !FaithfulBody(Body(buf))
    ensures Call(Words(buf, 0), fnAddr, c) != Returned(DecodePhpVersionPrologue(fnAddr, buf).value)
  {
    hide Body, Entry, Words, Disassemble, AdrpTarget, Call, X0After, Faithful, Plus, DecodePhpVersionPrologue;
    var page := AdrpTarget(Entry(fnAddr, buf), Body(buf)[0]);
    c := UnfaithfulIsWrong(Disassemble(Body(buf)[0]), Disassemble(Body(buf)[1]), page);
    CallAndDecode(fnAddr, buf, c);
  }

  /**
   * The decoder checks neither ADRP's nor ADD's registers nor ADD's shift bit, so an accepted buffer is
   * not always decoded to what the function returns. It is, on every register file, if and only if the
   * accepted words are faithful.
   */
  lemma DecodedIsReturnedIffFaithful(fnAddr: bv64, buf: seq<bv8>)
    requires DecodePhpVersionPrologue(fnAddr, buf).Ok?
    ensures IsPrologue(Body(buf))
    ensures AlwaysReturns(fnAddr, buf, DecodePhpVersionPrologue(fnAddr, buf).value) <==> FaithfulBody(Body(buf))
  {
    hide Body, Words, IsPrologue, Call, FaithfulBody, DecodePhpVersionPrologue;
    AcceptsExactly(fnAddr, buf);
    if FaithfulBody(Body(buf)) {
      forall c: Cpu
        ensures Call(Words(buf, 0), fnAddr, c) == Returned(DecodePhpVersionPrologue(fnAddr, buf).value)
      {
        FaithfulReturnsDecoded(fnAddr, buf, c);
      }
    } else {
      var c := UnfaithfulReturnsOther(fnAddr, buf);
    }
  }

  lemma AddField(w: bv32)
    requires Disassemble(w).AddImm?
    ensures Disassemble(w).imm12 == Imm12(w)
  {
  }

  /** A shifted ADD is accepted and decoded 0x1000 - 1 bytes short of the address the function returns. */
  lemma ShiftedAddIsMisread(c: Cpu)
    ensures var code := [0x9000_0000, 0x9140_0400, RET_X30, 0];
            && DecodePhpVersionPrologue(0, Assemble(code)) == Ok(1)
            && Call(code, 0, c) == Returned(0x1000)
  {
    var code: seq<bv32> := [0x9000_0000, 0x9140_0400, RET_X30, 0];
    var buf := Assemble(code);
    ShiftedAddFields();
    hide Word, Assemble, Words, IsBti, Disassemble, MaskedAdrp, MaskedAdd, DecodedImm, DecodedOffset, DecodedLow;
    hide Imm21, PageOffset, Immlo, Immhi;
    assert buf + [] == buf;
    AssembledWord(code, [], 0);
    AssembledWord(code, [], 1);
    AssembledWord(code, [], 2);
    CallPrologue(code, 0, c);
  }

  lemma ShiftedAddFields()
    ensures !IsBti(0x9000_0000)
    ensures Disassemble(0x9000_0000) == Adrp(0, 0, 0) && Disassemble(0x9140_0400) == AddImm(0, 0, 1, true)
    ensures MaskedAdrp(0x9000_0000) && MaskedAdd(0x9140_0400)
    ensures DecodedOffset(DecodedImm(0x9000_0000)) == 0 && DecodedLow(0x9140_0400) == 1
    ensures PageOffset(Imm21(Immlo(0x9000_0000), Immhi(0x9000_0000))) == 0
  {
  }

  // ----- Round trip -----

  /** A distance within the signed 21-bit page range. */
  predicate InRange(d: bv64) {
    d + 0x1_0000_0000 < 0x2_0000_0000
  }

  function DistanceLo(d: bv64): bv2 {
    ((d >> 12) & 3) as bv2
  }

  function DistanceHi(d: bv64): bv19 {
    ((d >> 14) & 0x7_ffff) as bv19
  }

  function LowBits(target: bv64): bv12 {
    (target & 0xfff) as bv12
  }

  /** ADRP over the page distance `d`, ADD of the target's low bits, RET. */
  function EncodePrologue(d: bv64, target: bv64): seq<bv32> {
    [EncodeAdrp(DistanceLo(d), DistanceHi(d)), EncodeAdd(LowBits(target)), RET_X30]
  }

  predicate Aligned(d: bv64) {
    d & 0xfff == 0
  }

  predicate Forward(d: bv64) {
    d >> 32 == 0
  }

  predicate Backward(d: bv64) {
    d >> 32 == 0xffff_ffff
  }

  function Middle(d: bv64): bv64 {
    (d >> 12) & 0x1f_ffff
  }

  lemma AlignedDifference(a: bv64, b: bv64)
    ensures Aligned(Minus(Page(b), Page(a)))
  {
  }

  /** Every target has a page distance. */
  lemma PageDistance(pc: bv64, target: bv64) returns (d: bv64)
    ensures Plus(Page(pc), d) == Page(target) && Aligned(d)
  {
    hide Plus, Minus, Page, Aligned;
    d := Minus(Page(target), Page(pc));
    PlusMinus(Page(pc), Page(target));
    AlignedDifference(pc, target);
  }

  lemma LowBitsRebuild(target: bv64)
    ensures Plus(Page(target), LowBits(target) as bv64) == target
  {
  }

  lemma RangeIsSign(d: bv64)
    requires InRange(d)
    ensures Forward(d) || Backward(d)
  {
  }

  lemma HalvesAreMiddle(d: bv64)
    ensures Imm21(DistanceLo(d), DistanceHi(d)) == Middle(d)
  {
  }

  lemma ForwardRebuilds(d: bv64)
    requires Aligned(d) && Forward(d)
    ensures PageOffset(Middle(d)) == d
  {
  }

  lemma BackwardRebuilds(d: bv64)
    requires Aligned(d) && Backward(d)
    ensures PageOffset(Middle(d)) == d
  {
  }

  lemma DistanceRebuilds(d: bv64)
    requires Aligned(d) && InRange(d)
    ensures PageOffset(Imm21(DistanceLo(d), DistanceHi(d))) == d
  {
    hide PageOffset, Imm21, Aligned, Forward, Backward, InRange, Middle, DistanceLo, DistanceHi;
    RangeIsSign(d);
    HalvesAreMiddle(d);
    if Forward(d) { ForwardRebuilds(d); } else { BackwardRebuilds(d); }
  }

  lemma EncodedFields(immlo: bv2, immhi: bv19, imm12: bv12)
    ensures var adrp, add := EncodeAdrp(immlo, immhi), EncodeAdd(imm12);
            && !IsBti(adrp) && Disassemble(adrp).Adrp? && Disassemble(add).AddImm?
            && Immlo(adrp) == immlo && Immhi(adrp) == immhi && Imm12(add) == imm12
  {
  }

  /**
   * Every target whose page lies within the signed 21-bit page range of the ADRP round-trips, with or
   * without a landing pad, whatever follows in the buffer.
   */
  lemma PrologueRoundTrips(fnAddr: bv64, target: bv64, d: bv64, pad: seq<bv32>, tail: seq<bv8>)
    requires pad == [] || (|pad| == 1 && IsBti(pad[0]))
    requires Plus(Page(Plus(fnAddr, (4 * |pad|) as bv64)), d) == Page(target) && InRange(d)
    requires 4 * |pad| + 12 + |tail| >= 16
    ensures DecodePhpVersionPrologue(fnAddr, Assemble(pad + EncodePrologue(d, target)) + tail) == Ok(target)
  {
    hide IsBti, Disassemble, PageOffset, EncodeAdrp, EncodeAdd, Word, Words, Assemble, InRange, Aligned;
    hide Immlo, Immhi, Imm12, Imm21, Page, LowBits, DistanceLo, DistanceHi, DecodePhpVersionPrologue, Plus, Body;
    var pc := Plus(fnAddr, (4 * |pad|) as bv64);
    var code := pad + EncodePrologue(d, target);
    EncodedFields(DistanceLo(d), DistanceHi(d), LowBits(target));
    PrologueWords(pad, EncodePrologue(d, target), tail);
    AcceptsExactly(fnAddr, Assemble(code) + tail);
    var d' := PageDistance(pc, target);
    PlusCancels(Page(pc), d, d');
    DistanceRebuilds(d);
    LowBitsRebuild(target);
  }

  lemma PrologueWords(pad: seq<bv32>, prologue: seq<bv32>, tail: seq<bv8>)
    requires pad == [] || (|pad| == 1 && IsBti(pad[0]))
    requires |prologue| == 3 && !IsBti(prologue[0])
    ensures var buf := Assemble(pad + prologue) + tail;
            StartOf(buf) == 4 * |pad| && prologue <= Body(buf)
  {
    hide IsBti, Word, Words, Assemble;
    var code := pad + prologue;
    AssembledWord(code, tail, 0);
    AssembledWords(code, tail, |pad|);
    assert code[|pad|..] == prologue;
  }

  // ----- PHP's own accessor, word by word -----

  lemma RealWords()
    ensures EncodePrologue(0x17_a000, 0x40_2bc8) == [0xd000_0bc0, 0x912f_2000, 0xd65f_03c0]
    ensures Plus(Page(Plus(0x28_8ba0, 0)), 0x17_a000) == Page(0x40_2bc8) && InRange(0x17_a000)
  {
  }

  /** The accessor of a PHP 8.3 build at 0x288ba0 points to 0x402bc8. */
  lemma RealPrologueDecodes()
    ensures DecodePhpVersionPrologue(0x28_8ba0, Assemble([0xd000_0bc0, 0x912f_2000, 0xd65f_03c0]) + [0, 0, 0, 0]) ==
            Ok(0x40_2bc8)
  {
    hide Assemble, DecodePhpVersionPrologue, Plus, Page;
    RealWords();
    hide EncodePrologue, InRange;
    PrologueRoundTrips(0x28_8ba0, 0x40_2bc8, 0x17_a000, [], [0, 0, 0, 0]);
    assert [] + EncodePrologue(0x17_a000, 0x40_2bc8) == [0xd000_0bc0, 0x912f_2000, 0xd65f_03c0];
  }
}
