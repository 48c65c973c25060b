/** Finding the executor globals of a ZTS target: decoder, TLS base and memory composed. */
module ZtsGlobals {
  import opened Wrappers
  import opened Memory
  import A = A64
  import Arm = TcbOffsetA64
  import X86 = X86Stubs

  const BUFFER := 24

  /** The two's-complement value of a word. */
  function Signed(word: nat): int {
    if word < 0x8000_0000_0000_0000 then word else word - 0x1_0000_0000_0000_0000
  }

  function Bits(bytes: seq<byte>): (r: seq<bv8>)
    ensures |r| == |bytes|
  {
    seq(|bytes|, i requires 0 <= i < |bytes| => bytes[i] as bv8)
  }

  function Value(word: bv64): u64 {
    word as int
  }

  /** `tls_base.wrapping_add(tcb_offset)`: adding a two's-complement offset is adding its word modulo 2^64. */
  function Slot(tlsBase: u64, offset: bv64): u64 {
    Add(tlsBase, Value(offset))
  }

  lemma WrapsSigned(base: u64, word: u64)
    ensures (base + word) % 0x1_0000_0000_0000_0000 == (base + Signed(word)) % 0x1_0000_0000_0000_0000
  {
  }

  /** The slot lies the signed offset away from the TLS base, wrapping around. */
  lemma SlotIsSigned(tlsBase: u64, offset: bv64)
    ensures Slot(tlsBase, offset) == (tlsBase + Signed(Value(offset))) % 0x1_0000_0000_0000_0000
  {
    hide Signed, Value;
    WrapsSigned(tlsBase, Value(offset));
  }

  /** What follows the decoding: the cache pointer in the TLS slot plus the offset variable's value. */
  function FromOffset(mem: Mem, offset: bv64, tlsBase: u64, egVar: nat): Result<u64> {
    var cache :- ReadU64(mem, Slot(tlsBase, offset));
    if cache == 0 then Err else
    var egOffset :- ReadU64(mem, egVar);
    Ok(Add(cache, egOffset))
  }

  ghost function GlobalsA64(mem: Mem, tcbFn: nat, tlsBase: Result<u64>, egVar: nat): Result<u64> {
    var code :- Read(mem, tcbFn, BUFFER);
    var offset :- Arm.TcbOffset(Bits(code));
    var base :- tlsBase;
    FromOffset(mem, offset, base, egVar)
  }

  /** `resolve_zts_executor_globals` on aarch64; `tlsBase` is what reading the thread register gave. */
  method ResolveA64(mem: Mem, tcbFn: nat, tlsBase: Result<u64>, egVar: nat) returns (r: Result<u64>)
    ensures r == GlobalsA64(mem, tcbFn, tlsBase, egVar)
  {
    var code :- Read(mem, tcbFn, BUFFER);
    var offset :- Arm.DecodeTcbOffsetBytes(Bits(code));
    var base :- tlsBase;
    r := FromOffset(mem, offset, base, egVar);
  }

  /** `resolve_zts_executor_globals` on x86_64. */
  function ResolveX86(mem: Mem, tcbFn: nat, tlsBase: Result<u64>, egVar: nat): Result<u64> {
    var code :- Read(mem, tcbFn, BUFFER);
    var offset :- X86.DecodeTcbOffsetBytes(Bits(code));
    var base :- tlsBase;
    FromOffset(mem, offset, base, egVar)
  }

  /** The thread's TSRM cache is at `cache`, and its executor globals `egOffset` bytes into it. */
  ghost predicate ThreadHeld(mem: Mem, tlsBase: u64, offset: bv64, cache: u64, egVar: nat, egOffset: u64) {
    && Holds64(mem, (tlsBase + offset as int) % 0x1_0000_0000_0000_0000, cache)
    && Holds64(mem, egVar, egOffset)
  }

  lemma FromOffsetHeld(mem: Mem, tlsBase: u64, offset: bv64, cache: u64, egVar: nat, egOffset: u64)
    requires ThreadHeld(mem, tlsBase, offset, cache, egVar, egOffset)
    ensures FromOffset(mem, offset, tlsBase, egVar) == if cache == 0 then Err else Ok(Add(cache, egOffset))
  {
    hide Holds64, ReadU64;
    assert Slot(tlsBase, offset) == (tlsBase + offset as int) % 0x1_0000_0000_0000_0000;
    U64Held(mem, Slot(tlsBase, offset), cache);
    U64Held(mem, egVar, egOffset);
  }

  /**
   * On a process whose accessor is any stub of moves building an offset, the result is the address `egOffset`
   * into the cache of the thread, or an error while that cache is still null. The address is not followed.
   */
  lemma FindsThreadGlobalsA64(mem: Mem, tcbFn: nat, code: seq<byte>, pad: seq<bv32>, ms: seq<Arm.Move>, tail: seq<bv8>,
                              tlsBase: u64, cache: u64, egVar: nat, egOffset: u64)
    requires |code| == 24 && Holds(mem, tcbFn, code)
    requires pad == [] || (|pad| == 1 && A.IsBti(pad[0]))
    requires ms != [] && !ms[0].keep && Bits(code) == A.Assemble(Arm.Stub(pad, ms)) + tail
    requires ThreadHeld(mem, tlsBase, Arm.Built(0, ms), cache, egVar, egOffset)
    ensures GlobalsA64(mem, tcbFn, Ok(tlsBase), egVar) == if cache == 0 then Err else Ok(Add(cache, egOffset))
  {
    hide Bits, ThreadHeld, FromOffset, A.IsBti, A.Assemble, Arm.Stub, Arm.Built, Arm.TcbOffset, Add;
    ReadHeld(mem, tcbFn, code);
    Arm.StubDecodes(pad, ms, tail);
    FromOffsetHeld(mem, tlsBase, Arm.Built(0, ms), cache, egVar, egOffset);
  }

  lemma FindsThreadGlobalsX86(mem: Mem, tcbFn: nat, code: seq<byte>, pad: seq<bv8>, imm: bv32, tail: seq<bv8>,
                              tlsBase: u64, cache: u64, egVar: nat, egOffset: u64)
    requires |code| == 24 && Holds(mem, tcbFn, code)
    requires pad == [] || pad == X86.ENDBR64
    requires Bits(code) == X86.Stub(pad, X86.MOV_IMM_RAX, imm) + tail
    requires ThreadHeld(mem, tlsBase, X86.SignExtend32(imm), cache, egVar, egOffset)
    ensures ResolveX86(mem, tcbFn, Ok(tlsBase), egVar) == if cache == 0 then Err else Ok(Add(cache, egOffset))
  {
    hide Bits, ThreadHeld, FromOffset, X86.Stub, X86.SignExtend32, X86.DecodeTcbOffsetBytes, Add;
    ReadHeld(mem, tcbFn, code);
    X86.StubsRoundTrip(pad, imm, tail, 0);
    FromOffsetHeld(mem, tlsBase, X86.SignExtend32(imm), cache, egVar, egOffset);
  }

  /**
   * Soundness: any address found is what the target itself would compute. Calling the accessor at any address
   * with any registers returns an offset whose TLS slot holds a non-null cache the address is relative to.
   */
  lemma FoundGlobalsAreTheThreads(mem: Mem, tcbFn: nat, tlsBase: u64, egVar: nat)
    requires GlobalsA64(mem, tcbFn, Ok(tlsBase), egVar).Ok?
    ensures exists offset: bv64, cache: u64, egOffset: u64 ::
              && ReadU64(mem, Slot(tlsBase, offset)) == Ok(cache) && cache != 0
              && ReadU64(mem, egVar) == Ok(egOffset)
              && GlobalsA64(mem, tcbFn, Ok(tlsBase), egVar) == Ok(Add(cache, egOffset))
              && AccessorReturns(mem, tcbFn, offset)
  {
    hide Bits, Slot, ReadU64, Read, Add, A.Call, A.Words, Arm.TcbOffset;
    var code := Read(mem, tcbFn, BUFFER).value;
    var offset := Arm.TcbOffset(Bits(code)).value;
    forall pc: bv64, c: A.Cpu ensures A.Call(A.Words(Bits(code), 0), pc, c) == A.Returned(offset) {
      Arm.DecodedIsReturned(Bits(code), pc, c);
    }
    assert AccessorReturns(mem, tcbFn, offset);
    var cache := ReadU64(mem, Slot(tlsBase, offset)).value;
    var egOffset := ReadU64(mem, egVar).value;
    assert GlobalsA64(mem, tcbFn, Ok(tlsBase), egVar) == Ok(Add(cache, egOffset));
  }

  /** Running the accessor's code on the machine returns `offset`, from any address and any registers. */
  ghost predicate AccessorReturns(mem: Mem, tcbFn: nat, offset: bv64) {
    var code := Read(mem, tcbFn, BUFFER);
    code.Ok? && forall pc: bv64, c: A.Cpu :: A.Call(A.Words(Bits(code.value), 0), pc, c) == A.Returned(offset)
  }

  /** The same on x86_64. */
  lemma FoundGlobalsAreTheThreadsX86(mem: Mem, tcbFn: nat, tlsBase: u64, egVar: nat)
    requires ResolveX86(mem, tcbFn, Ok(tlsBase), egVar).Ok?
    ensures exists offset: bv64, cache: u64, egOffset: u64 ::
              && ReadU64(mem, Slot(tlsBase, offset)) == Ok(cache) && cache != 0
              && ReadU64(mem, egVar) == Ok(egOffset)
              && ResolveX86(mem, tcbFn, Ok(tlsBase), egVar) == Ok(Add(cache, egOffset))
              && AccessorReturnsX86(mem, tcbFn, offset)
  {
    hide Bits, Slot, ReadU64, Read, Add, X86.Call, X86.DecodeTcbOffsetBytes;
    var code := Read(mem, tcbFn, BUFFER).value;
    X86.TcbOffsetIsExact(Bits(code));
    var offset := X86.DecodeTcbOffsetBytes(Bits(code)).value;
    assert AccessorReturnsX86(mem, tcbFn, offset);
    var cache := ReadU64(mem, Slot(tlsBase, offset)).value;
    var egOffset := ReadU64(mem, egVar).value;
    assert ResolveX86(mem, tcbFn, Ok(tlsBase), egVar) == Ok(Add(cache, egOffset));
  }

  ghost predicate AccessorReturnsX86(mem: Mem, tcbFn: nat, offset: bv64) {
    var code := Read(mem, tcbFn, BUFFER);
    code.Ok? && forall rip: bv64, rax: bv64 :: X86.Call(Bits(code.value), rip, rax) == X86.Returned(offset)
  }

  /** Whatever cannot be read, decoded or is null is an error. */
  lemma FailuresAreErrors(mem: Mem, tcbFn: nat, tlsBase: Result<u64>, egVar: nat)
    requires tlsBase.Err? || !Readable(mem, tcbFn, 24) || !Readable(mem, egVar, 8)
    ensures GlobalsA64(mem, tcbFn, tlsBase, egVar) == Err && ResolveX86(mem, tcbFn, tlsBase, egVar) == Err
  {
    hide Bits, Arm.TcbOffset, X86.DecodeTcbOffsetBytes;
  }
}
