/** The aarch64 decoder of `tsrm_get_ls_cache_tcb_offset`, proved exact against the machine of `A64`. */
module TcbOffsetA64 {
  import opened Wrappers
  import opened LittleEndian
  import opened A64

  // ----- Moves into x0 -----

  predicate IsMove(w: bv32) {
    var i := Disassemble(w);
    (i.Movz? || i.Movk?) && i.rd == 0
  }

  predicate IsMovz(w: bv32) {
    IsMove(w) && Disassemble(w).Movz?
  }

  /** What one move does to x0. */
  function Apply(x0: bv64, w: bv32): bv64
    requires IsMove(w)
  {
    match Disassemble(w)
    case Movz(_, hw, imm16) => Place(imm16, hw)
    case Movk(_, hw, imm16) => Keep(x0, imm16, hw)
  }

  predicate AllMoves(ws: seq<bv32>) {
    forall i :: 0 <= i < |ws| ==> IsMove(ws[i])
  }

  function ApplyAll(x0: bv64, ws: seq<bv32>): (x0': bv64)
    requires AllMoves(ws)
    ensures ws == [] ==> x0' == x0
  {
    if ws == [] then x0 else Apply(ApplyAll(x0, ws[..|ws| - 1]), ws[|ws| - 1])
  }

  // ----- What the decoder accepts -----

  /** After an optional BTI come `n` moves into x0, the first a MOVZ, and then RET, all inside the buffer. */
  predicate AcceptsAt(buf: seq<bv8>, n: nat) {
    var ws := Body(buf);
    1 <= n < |ws| && IsMovz(ws[0]) && (forall i :: 0 <= i < n ==> IsMove(ws[i])) && ws[n] == RET_X30
  }

  lemma RetIsNoMove()
    ensures !IsMove(RET_X30) && !IsMovz(RET_X30) && !IsBti(RET_X30)
  {
  }

  lemma AcceptsOnce(buf: seq<bv8>, m: nat, n: nat)
    requires AcceptsAt(buf, m) && AcceptsAt(buf, n)
    ensures m == n
  {
    hide IsMove, Body;
    RetIsNoMove();
  }

  /** The decoder's result: the value the accepted moves leave in x0, as a two's-complement word. */
  ghost function TcbOffset(buf: seq<bv8>): Result<bv64> {
    if |buf| >= 12 && exists n: nat :: AcceptsAt(buf, n) then
      var n: nat :| AcceptsAt(buf, n);
      Ok(ApplyAll(0, Body(buf)[..n]))
    else Err
  }

  lemma TcbOffsetAt(buf: seq<bv8>, n: nat)
    requires |buf| >= 12 && AcceptsAt(buf, n)
    ensures TcbOffset(buf) == Ok(ApplyAll(0, Body(buf)[..n]))
  {
    hide IsMove, Apply, Body;
    forall m: nat | AcceptsAt(buf, m) ensures m == n {
      AcceptsOnce(buf, m, n);
    }
  }

  // ----- The decoder -----

  // The loop body's own masks.

  predicate MaskedMovz(w: bv32) {
    (w & 0xff80_0000) == 0xd280_0000
  }

  predicate MaskedMovk(w: bv32) {
    (w & 0xff80_0000) == 0xf280_0000
  }

  predicate TargetsX0(w: bv32) {
    (w & 0x1f) == 0
  }

  lemma MasksAreTopBits(w: bv32)
    ensures MaskedMovz(w) <==> Top9(w) == 0x1a5
    ensures MaskedMovk(w) <==> Top9(w) == 0x1e5
    ensures TargetsX0(w) <==> Rd(w) == 0
  {
  }

  /** The masks select the moves into x0. */
  lemma MaskedMoves(w: bv32)
    ensures IsMove(w) <==> (MaskedMovz(w) || MaskedMovk(w)) && TargetsX0(w)
    ensures IsMovz(w) <==> MaskedMovz(w) && TargetsX0(w)
    ensures IsMove(w) ==> Disassemble(w) == if IsMovz(w) then Movz(0, Hw(w), Imm16(w)) else Movk(0, Hw(w), Imm16(w))
  {
    hide MaskedMovz, MaskedMovk, TargetsX0;
    hide Top9, Rd, Rn, Hw, Imm16, Imm12, Immlo, Immhi, Sh, IsAdrp, IsRet, IsBti;
    MasksAreTopBits(w);
  }

  lemma ApplyOne(ws: seq<bv32>, n: nat)
    requires n < |ws| && AllMoves(ws[..n]) && IsMove(ws[n])
    ensures AllMoves(ws[..n + 1])
    ensures ApplyAll(0, ws[..n + 1]) ==
            var (hw, imm16) := (Hw(ws[n]), Imm16(ws[n]));
            if IsMovz(ws[n]) then Place(imm16, hw) else Keep(ApplyAll(0, ws[..n]), imm16, hw)
  {
    hide Hw, Imm16, Place, Keep;
    assert ws[..n + 1][..n] == ws[..n];
    MaskedMoves(ws[n]);
  }

  method DecodeTcbOffsetBytes(buf: seq<bv8>) returns (r: Result<bv64>)
    ensures r == TcbOffset(buf)
    ensures r.Ok? <==> |buf| >= 12 && exists n: nat :: AcceptsAt(buf, n)
  {
    hide Words, IsBti, IsMove, IsMovz, Apply, ApplyAll, Word, MaskedMovz, MaskedMovk, TargetsX0;
    hide Place, Keep, Disassemble, Hw, Imm16;
    if |buf| < 12 {
      return Err;
    }
    var off := 0;
    var first := Word(buf, 0);
    if IsBti(first) {
      off := 4;
    }
    if |buf| < off + 8 {
      return Err;
    }
    ghost var ws := Body(buf);
    ghost var n: nat := 0;
    assert ApplyAll(0, ws[..0]) == 0;
    var imm: bv64 := 0;
    var consumedMovz := false;
    RetIsNoMove();
    while off + 4 <= |buf|
      invariant off == StartOf(buf) + 4 * n && n <= |ws|
      invariant forall i :: 0 <= i < n ==> IsMove(ws[i])
      invariant AllMoves(ws[..n])
      invariant consumedMovz == (n > 0)
      invariant n > 0 ==> IsMovz(ws[0])
      invariant imm == ApplyAll(0, ws[..n])
      decreases |buf| - off
    {
      var w := Word(buf, off);
      WordAt(buf, StartOf(buf), n);
      if w == RET_X30 {
        if !consumedMovz {
          NoneAccepted(buf, 0);
          return Err;
        }
        TcbOffsetAt(buf, n);
        return Ok(imm);
      }
      MaskedMoves(w);
      if MaskedMovz(w) || MaskedMovk(w) {
        if !TargetsX0(w) {
          NoneAccepted(buf, n);
          return Err;
        }
        var hw, imm16 := Hw(w), Imm16(w);
        ApplyOne(ws, n);
        if MaskedMovz(w) {
          imm := Place(imm16, hw);
          consumedMovz := true;
        } else {
          if !consumedMovz {
            NoneAccepted(buf, 0);
            return Err;
          }
          imm := Keep(imm, imm16, hw);
        }
        off := off + 4;
        n := n + 1;
        continue;
      }
      NoneAccepted(buf, n);
      return Err;
    }
    WordAt(buf, StartOf(buf), n);
    NoneAccepted(buf, n);
    return Err;
  }

  /** Nothing is accepted once a word is neither a move nor RET, the first is no MOVZ, or the words run out. */
  lemma NoneAccepted(buf: seq<bv8>, n: nat)
    requires var ws := Body(buf);
             && n <= |ws|
             && (forall i :: 0 <= i < n ==> IsMove(ws[i]))
             && (n < |ws| ==> (!IsMove(ws[n]) && ws[n] != RET_X30) || (n == 0 && !IsMovz(ws[0])))
    ensures !exists m: nat :: AcceptsAt(buf, m)
  {
    hide IsMove, Body;
    RetIsNoMove();
  }

  // ----- Soundness against the machine -----

  lemma {:induction false} ApplyFront(x0: bv64, ws: seq<bv32>)
    requires ws != [] && AllMoves(ws)
    ensures ApplyAll(x0, ws) == ApplyAll(Apply(x0, ws[0]), ws[1..])
  {
    var n := |ws| - 1;
    if n == 0 {
      assert ws[..0] == ws[1..] == [];
    } else {
      ApplyFront(x0, ws[..n]);
      assert ws[..n][1..] == ws[1..][..n - 1];
    }
  }

  lemma {:induction false} CallMoves(ws: seq<bv32>, n: nat, pc: bv64, c: Cpu)
    requires n < |ws| && AllMoves(ws[..n]) && ws[n] == RET_X30
    ensures Call(ws, pc, c) == Returned(ApplyAll(c.x(0), ws[..n]))
  {
    hide Plus;
    RetIsNoMove();
    if n > 0 {
      assert IsMove(ws[..n][0]);
      ApplyFront(c.x(0), ws[..n]);
      assert ws[..n][1..] == ws[1..][..n - 1];
      var c' := Step(Disassemble(ws[0]), pc, c).cpu;
      CallMoves(ws[1..], n - 1, Plus(pc, 4), c');
    }
  }

  lemma MovzForgets(x: bv64, y: bv64, ws: seq<bv32>)
    requires ws != [] && AllMoves(ws) && IsMovz(ws[0])
    ensures ApplyAll(x, ws) == ApplyAll(y, ws)
  {
    ApplyFront(x, ws);
    ApplyFront(y, ws);
  }

  /**
   * Soundness: calling the stub on the machine, from any address and any register contents, returns
   * exactly the decoded value in x0, the landing pad included.
   */
  lemma DecodedIsReturned(buf: seq<bv8>, pc: bv64, c: Cpu)
    requires TcbOffset(buf).Ok?
    ensures Call(Words(buf, 0), pc, c) == Returned(TcbOffset(buf).value)
  {
    hide Words, Disassemble, Word, Apply, ApplyAll, IsMove, Plus;
    var n: nat :| AcceptsAt(buf, n);
    TcbOffsetAt(buf, n);
    var ws := Body(buf);
    assert AllMoves(ws[..n]);
    if StartOf(buf) == 4 {
      WordsFront(buf);
      BtiSteps(Word(buf, 0));
      CallMoves(ws, n, Plus(pc, 4), c);
      assert Words(buf, 0)[1..] == ws;
    } else {
      CallMoves(ws, n, pc, c);
    }
    MovzForgets(c.x(0), 0, ws[..n]);
  }

  lemma BtiSteps(w: bv32)
    requires IsBti(w)
    ensures Disassemble(w) == Bti && w != RET_X30
  {
  }

  // ----- Encoding -----

  datatype Move = Move(keep: bool, hw: bv2, imm16: bv16)

  function EncodeMove(m: Move): (w: bv32)
    ensures IsMove(w) && !IsBti(w)
    ensures IsMovz(w) <==> !m.keep
    ensures forall x0 :: Apply(x0, w) == if m.keep then Keep(x0, m.imm16, m.hw) else Place(m.imm16, m.hw)
  {
    EncodeDisassembles(m.hw, m.imm16, 0, 0, 0);
    if m.keep then EncodeMovk(m.hw, m.imm16) else EncodeMovz(m.hw, m.imm16)
  }

  function EncodeMoves(ms: seq<Move>): (ws: seq<bv32>)
    ensures |ws| == |ms| && AllMoves(ws)
    ensures forall i :: 0 <= i < |ms| ==> ws[i] == EncodeMove(ms[i])
  {
    seq(|ms|, i requires 0 <= i < |ms| => EncodeMove(ms[i]))
  }

  /** The value a list of moves builds up in x0. */
  function Built(x0: bv64, ms: seq<Move>): bv64 {
    if ms == [] then x0
    else
      var m := ms[|ms| - 1];
      if m.keep then Keep(Built(x0, ms[..|ms| - 1]), m.imm16, m.hw) else Place(m.imm16, m.hw)
  }

  function Stub(pad: seq<bv32>, ms: seq<Move>): seq<bv32> {
    pad + EncodeMoves(ms) + [RET_X30]
  }

  lemma {:induction false} EncodedMovesApply(x0: bv64, ms: seq<Move>)
    ensures ApplyAll(x0, EncodeMoves(ms)) == Built(x0, ms)
  {
    if ms != [] {
      var n := |ms| - 1;
      assert EncodeMoves(ms)[..n] == EncodeMoves(ms[..n]);
      EncodedMovesApply(x0, ms[..n]);
    }
  }

  /** Any stub of moves starting with MOVZ, with or without a landing pad, decodes to the value it builds. */
  lemma StubDecodes(pad: seq<bv32>, ms: seq<Move>, tail: seq<bv8>)
    requires pad == [] || (|pad| == 1 && IsBti(pad[0]))
    requires ms != [] && !ms[0].keep
    requires 4 * |Stub(pad, ms)| + |tail| >= 12
    ensures TcbOffset(Assemble(Stub(pad, ms)) + tail) == Ok(Built(0, ms))
  {
    hide Words, IsBti, IsMove, IsMovz, Apply, ApplyAll, Word, Assemble, EncodeMove, Built;
    var code := Stub(pad, ms);
    var buf := Assemble(code) + tail;
    var n := |ms|;
    assert code[|pad|] == EncodeMove(ms[0]);
    AssembledWord(code, tail, 0);
    assert StartOf(buf) == 4 * |pad|;
    AssembledWords(code, tail, |pad|);
    assert code[|pad|..] == EncodeMoves(ms) + [RET_X30];
    AcceptsStub(buf, ms);
    EncodedMovesApply(0, ms);
  }

  lemma AcceptsStub(buf: seq<bv8>, ms: seq<Move>)
    requires |buf| >= 12 && ms != [] && !ms[0].keep
    requires EncodeMoves(ms) + [RET_X30] <= Body(buf)
    ensures TcbOffset(buf) == Ok(ApplyAll(0, EncodeMoves(ms)))
  {
    hide Body, IsMove, IsMovz, Apply, ApplyAll, EncodeMove, TcbOffset;
    var ws, stub, n := Body(buf), EncodeMoves(ms) + [RET_X30], |ms|;
    forall i | 0 <= i < n ensures ws[i] == EncodeMoves(ms)[i] && IsMove(ws[i]) { assert ws[i] == stub[i]; }
    assert ws[n] == stub[n] == RET_X30;
    assert ws[..n] == EncodeMoves(ms);
    TcbOffsetAt(buf, n);
  }

  /** MOVZ and three MOVKs: the usual way to build any 64-bit constant. */
  function MovesFor(v: bv64): seq<Move> {
    [Move(false, 0, (v & 0xffff) as bv16), Move(true, 1, ((v >> 16) & 0xffff) as bv16),
     Move(true, 2, ((v >> 32) & 0xffff) as bv16), Move(true, 3, ((v >> 48) & 0xffff) as bv16)]
  }

  lemma HalfwordsRebuild(v: bv64)
    ensures Keep(Keep(Keep(Place((v & 0xffff) as bv16, 0), ((v >> 16) & 0xffff) as bv16, 1),
                      ((v >> 32) & 0xffff) as bv16, 2), ((v >> 48) & 0xffff) as bv16, 3) == v
  {
  }

  /** Every 64-bit value round-trips through the 24-byte buffer, with a landing pad or with four spare bytes. */
  lemma ValueRoundTrips(v: bv64, bti: bv32, spare: seq<bv8>)
    requires IsBti(bti) && |spare| == 4
    ensures |Assemble(Stub([bti], MovesFor(v)))| == 24
    ensures TcbOffset(Assemble(Stub([bti], MovesFor(v)))) == Ok(v)
    ensures |Assemble(Stub([], MovesFor(v))) + spare| == 24
    ensures TcbOffset(Assemble(Stub([], MovesFor(v))) + spare) == Ok(v)
  {
    hide Assemble, Built, IsBti, TcbOffset;
    var ms := MovesFor(v);
    var code := Assemble(Stub([bti], ms));
    assert code + [] == code;
    StubDecodes([bti], ms, []);
    StubDecodes([], ms, spare);
    MovesBuild(v);
  }

  lemma MovesBuild(v: bv64)
    ensures Built(0, MovesFor(v)) == v
  {
    hide Keep, Place;
    var ms := MovesFor(v);
    assert ms[..3][..2] == ms[..2] && ms[..2][..1] == ms[..1];
    assert Built(0, ms[..1]) == Place(ms[0].imm16, 0);
    assert Built(0, ms[..2]) == Keep(Place(ms[0].imm16, 0), ms[1].imm16, 1);
    assert Built(0, ms[..3]) == Keep(Keep(Place(ms[0].imm16, 0), ms[1].imm16, 1), ms[2].imm16, 2);
    HalfwordsRebuild(v);
  }

  // ----- PHP's own stubs, word by word -----

  lemma RealWords()
    ensures EncodeMove(Move(false, 1, 0)) == 0xd2a0_0000 && EncodeMove(Move(true, 0, 0x148)) == 0xf280_2900
    ensures EncodeMove(Move(false, 0, 0x148)) == 0xd280_2900 && IsBti(0xd503_245f)
    ensures Keep(Place(0, 1), 0x148, 0) == 0x148 && Place(0x148, 0) == 0x148
  {
  }

  /** Accessors as found in PHP builds: MOVZ and MOVK of 0x148, and MOVZ alone behind `bti c`. */
  lemma RealStubsDecode()
    ensures TcbOffset(Assemble([0xd2a0_0000, 0xf280_2900, 0xd65f_03c0]) + [0, 0, 0, 0]) == Ok(0x148)
    ensures TcbOffset(Assemble([0xd503_245f, 0xd280_2900, 0xd65f_03c0]) + [0, 0, 0, 0]) == Ok(0x148)
  {
    hide Assemble, TcbOffset, IsBti, Keep, Place;
    RealWords();
    hide EncodeMove;
    var zeros: seq<bv8> := [0, 0, 0, 0];
    var two, one := [Move(false, 1, 0), Move(true, 0, 0x148)], [Move(false, 0, 0x148)];
    StubDecodes([], two, zeros);
    assert Stub([], two) == [0xd2a0_0000, 0xf280_2900, 0xd65f_03c0];
    assert two[..1][..0] == [] && Built(0, two[..1]) == Place(0, 1);
    assert Built(0, two) == Keep(Place(0, 1), 0x148, 0);
    StubDecodes([0xd503_245f], one, zeros);
    assert Stub([0xd503_245f], one) == [0xd503_245f, 0xd280_2900, 0xd65f_03c0];
    assert Built(0, one) == Place(0x148, 0);
  }
}
