/** Abstract PHP call stacks laid out byte by byte in remote memory, and what a capture reads back. */
module CallStackLayout {
  import opened Wrappers
  import opened Frames
  import opened Memory
  import opened StackWalker

  /** A `zend_string` at a non-null address. */
  datatype Str = Str(ptr: u64, bytes: seq<byte>)

  /** A class entry at a non-null address; its name may be null. */
  datatype Class = Class(ptr: u64, name: Option<Str>)

  /** The current instruction: its line number, or none when the instruction cannot be read. */
  datatype Opline = Opline(ptr: u64, line: Option<nat>)

  datatype Func = Func(ptr: u64, ftype: byte, name: Option<Str>, scope: Option<Class>, file: Option<Str>,
                       lineStart: nat)

  datatype Call = Call(ex: u64, opline: Option<Opline>, func: Option<Func>)

  // ----- Laying a stack out -----

  // The offsets below are PHP's own, written out: the walker's constants have to agree with them.

  function StrPtr(s: Option<Str>): u64 {
    if s.Some? then s.value.ptr else 0
  }

  /** At most the first 4096 bytes of a string matter. */
  function Cut(bytes: seq<byte>): seq<byte> {
    if |bytes| <= 4096 then bytes else bytes[..4096]
  }

  ghost predicate StrHeld(mem: Mem, s: Option<Str>) {
    s.Some? ==>
      && s.value.ptr != 0 && |s.value.bytes| < U64
      && Holds64(mem, Add(s.value.ptr, 16), |s.value.bytes|)
      && Holds(mem, Add(s.value.ptr, 24), Cut(s.value.bytes))
  }

  ghost predicate ClassHeld(mem: Mem, c: Option<Class>) {
    c.Some? ==>
      && c.value.ptr != 0 && StrHeld(mem, c.value.name)
      && Holds64(mem, Add(c.value.ptr, 8), StrPtr(c.value.name))
  }

  ghost predicate OplineHeld(mem: Mem, o: Option<Opline>) {
    o.Some? ==>
      && o.value.ptr != 0
      && var addr := Add(o.value.ptr, 24);
      if o.value.line.Some? then Holds32(mem, addr, o.value.line.value) else !Readable(mem, addr, 4)
  }

  /** The op_array tail only exists for user functions; internal ones are just that many readable bytes. */
  ghost predicate FuncHeld(mem: Mem, layout: VersionLayout, f: Func)
    requires Fits(layout)
  {
    && f.ptr != 0 && Readable(mem, f.ptr, 192)
    && Holds(mem, f.ptr, [f.ftype])
    && StrHeld(mem, f.name) && Holds64(mem, f.ptr + 8, StrPtr(f.name))
    && ClassHeld(mem, f.scope) && Holds64(mem, f.ptr + 16, if f.scope.Some? then f.scope.value.ptr else 0)
    && (f.ftype == 2 ==>
          && StrHeld(mem, f.file) && Holds64(mem, f.ptr + layout.opArrayFilename, StrPtr(f.file))
          && Holds32(mem, f.ptr + layout.opArrayLineStart, f.lineStart))
  }

  ghost predicate CallHeld(mem: Mem, layout: VersionLayout, c: Call, prev: u64)
    requires Fits(layout)
  {
    && c.ex != 0 && Readable(mem, c.ex, 64)
    && OplineHeld(mem, c.opline)
    && Holds64(mem, c.ex, if c.opline.Some? then c.opline.value.ptr else 0)
    && Holds64(mem, c.ex + 24, if c.func.Some? then c.func.value.ptr else 0)
    && Holds64(mem, c.ex + 48, prev)
    && (c.func.Some? ==> FuncHeld(mem, layout, c.func.value))
  }

  function HeadOf(calls: seq<Call>): u64 {
    if calls == [] then 0 else calls[0].ex
  }

  /** The calls are linked, innermost first, and the last one's link is null. */
  ghost predicate CallsHeld(mem: Mem, layout: VersionLayout, calls: seq<Call>)
    requires Fits(layout)
  {
    calls != [] ==> CallHeld(mem, layout, calls[0], HeadOf(calls[1..])) && CallsHeld(mem, layout, calls[1..])
  }

  ghost predicate StackHeld(mem: Mem, layout: VersionLayout, eg: nat, calls: seq<Call>)
    requires Fits(layout)
  {
    Holds64(mem, Add(eg, layout.egCurrentExecuteData), HeadOf(calls)) && CallsHeld(mem, layout, calls)
  }

  // ----- What should be read back -----

  function Text(decode: Decoder, bytes: seq<byte>): string {
    if bytes == [] then "" else decode(Cut(bytes))
  }

  function TextOf(decode: Decoder, s: Option<Str>): Option<string> {
    if s.Some? then Some(Text(decode, s.value.bytes)) else None
  }

  /** The instruction's line if it can be read and is set, else the function's first line. */
  function LineShown(opline: Option<Opline>, lineStart: nat): nat {
    if opline.Some? && opline.value.line.GetOr(0) != 0 then opline.value.line.value else lineStart
  }

  /** A string as seen through a cache: a cached address shows what was cached. */
  function TextVia(decode: Decoder, cache: Cache, s: Option<Str>): Option<string> {
    if s.None? then None
    else if s.value.ptr in cache then Some(cache[s.value.ptr])
    else Some(Text(decode, s.value.bytes))
  }

  function Seen(decode: Decoder, cache: Cache, c: Call): Frame {
    if c.func.None? then Frame("<unknown>", None, None, 0)
    else
      var f := c.func.value;
      var cls := if f.scope.Some? then TextVia(decode, cache, f.scope.value.name) else None;
      var name := TextVia(decode, cache, f.name).GetOr("{main}");
      if f.ftype == 2 then Frame(name, cls, TextVia(decode, cache, f.file), LineShown(c.opline, f.lineStart))
      else Frame(name, cls, if f.ftype == 1 then Some("<internal>") else None, 0)
  }

  function SeenAll(decode: Decoder, cache: Cache, calls: seq<Call>): (frames: seq<Frame>)
    ensures |frames| == |calls| && forall i :: 0 <= i < |calls| ==> frames[i] == Seen(decode, cache, calls[i])
  {
    seq(|calls|, i requires 0 <= i < |calls| => Seen(decode, cache, calls[i]))
  }

  /** The frames as they are in memory, seen through no cache. */
  function ShownAll(decode: Decoder, calls: seq<Call>): (frames: seq<Frame>)
    ensures |frames| == |calls| && forall i :: 0 <= i < |calls| ==> frames[i] == Seen(decode, map[], calls[i])
  {
    SeenAll(decode, map[], calls)
  }

  function FirstOf(calls: seq<Call>, depth: nat): seq<Call> {
    calls[..if depth <= |calls| then depth else |calls|]
  }

  // ----- Reading it back -----

  lemma StrRead(mem: Mem, decode: Decoder, s: Str)
    requires StrHeld(mem, Some(s))
    ensures ReadZendString(mem, decode, s.ptr) == Ok(Text(decode, s.bytes))
  {
    hide LeBytes, LeValue;
    U64Held(mem, Add(s.ptr, ZSTR_LEN), |s.bytes|);
    ReadHeld(mem, Add(s.ptr, ZSTR_VAL), Cut(s.bytes));
  }

  lemma StrLookup(mem: Mem, decode: Decoder, cache: Cache, s: Option<Str>)
    requires StrHeld(mem, s)
    ensures LookupNonNull(mem, decode, cache, StrPtr(s)) == Ok(TextVia(decode, cache, s))
  {
    hide ReadZendString, StrHeld, Text;
    if s.Some? {
      StrRead(mem, decode, s.value);
      assert s.value.ptr != 0 by { StrNonNull(mem, s); }
    }
  }

  lemma StrNonNull(mem: Mem, s: Option<Str>)
    requires StrHeld(mem, s) && s.Some?
    ensures s.value.ptr != 0
  {
  }

  lemma ClassRead(mem: Mem, decode: Decoder, cache: Cache, c: Option<Class>)
    requires ClassHeld(mem, c)
    ensures ClassOf(mem, decode, cache, if c.Some? then c.value.ptr else 0) ==
            Ok(if c.Some? then TextVia(decode, cache, c.value.name) else None)
  {
    hide StrHeld, LookupNonNull, Holds64, ReadU64;
    if c.Some? {
      U64Held(mem, Add(c.value.ptr, CE_NAME), StrPtr(c.value.name));
      StrLookup(mem, decode, cache, c.value.name);
    }
  }

  lemma LineRead(mem: Mem, o: Option<Opline>, lineStart: nat)
    requires OplineHeld(mem, o)
    ensures LineOf(mem, if o.Some? then o.value.ptr else 0, lineStart) == LineShown(o, lineStart)
  {
    hide Holds32;
    if o.Some? && o.value.line.Some? {
      hide ReadU32;
      U32Held(mem, Add(o.value.ptr, OP_LINENO), o.value.line.value);
    }
  }

  lemma FuncFields(mem: Mem, layout: VersionLayout, f: Func)
    requires Fits(layout) && FuncHeld(mem, layout, f)
    ensures var buf := Read(mem, f.ptr, FUNC_BUF);
            && buf.Ok?
            && buf.value[FUNC_TYPE] == f.ftype
            && U64At(buf.value, FUNC_NAME) == StrPtr(f.name)
            && U64At(buf.value, FUNC_SCOPE) == (if f.scope.Some? then f.scope.value.ptr else 0)
            && (f.ftype == TYPE_USER ==>
                  && U64At(buf.value, layout.opArrayFilename) == StrPtr(f.file)
                  && U32At(buf.value, layout.opArrayLineStart) == f.lineStart)
  {
    hide Holds64, Holds32, U64At, U32At, StrHeld, ClassHeld;
    FieldHeld(mem, f.ptr, FUNC_BUF, FUNC_NAME, StrPtr(f.name));
    FieldHeld(mem, f.ptr, FUNC_BUF, FUNC_SCOPE, if f.scope.Some? then f.scope.value.ptr else 0);
    if f.ftype == TYPE_USER {
      FieldHeld(mem, f.ptr, FUNC_BUF, layout.opArrayFilename, StrPtr(f.file));
      Field32Held(mem, f.ptr, FUNC_BUF, layout.opArrayLineStart, f.lineStart);
    }
    assert mem[f.ptr] == f.ftype;
  }

  lemma ExFields(mem: Mem, layout: VersionLayout, c: Call, prev: u64)
    requires Fits(layout) && CallHeld(mem, layout, c, prev)
    ensures var buf := Read(mem, c.ex, EX_BUF);
            && buf.Ok?
            && U64At(buf.value, EX_OPLINE) == (if c.opline.Some? then c.opline.value.ptr else 0)
            && U64At(buf.value, EX_FUNC) == (if c.func.Some? then c.func.value.ptr else 0)
            && U64At(buf.value, EX_PREV) == prev
  {
    hide Holds64, U64At, FuncHeld, OplineHeld;
    FieldHeld(mem, c.ex, EX_BUF, EX_OPLINE, if c.opline.Some? then c.opline.value.ptr else 0);
    FieldHeld(mem, c.ex, EX_BUF, EX_FUNC, if c.func.Some? then c.func.value.ptr else 0);
    FieldHeld(mem, c.ex, EX_BUF, EX_PREV, prev);
  }

  /** One laid-out call reads back as its frame and the link to its caller. */
  lemma CallRead(mem: Mem, decode: Decoder, cache: Cache, layout: VersionLayout, c: Call, prev: u64)
    requires Fits(layout) && CallHeld(mem, layout, c, prev)
    ensures FrameVia(mem, decode, cache, layout, c.ex) == Ok((Seen(decode, cache, c), prev))
  {
    hide Holds64, Holds32, Holds, U64At, U32At, StrHeld, ClassHeld, OplineHeld, LookupNonNull, ClassOf, LineOf;
    hide TextVia, LineShown;
    ExFields(mem, layout, c, prev);
    if c.func.Some? {
      var f := c.func.value;
      FuncFields(mem, layout, f);
      StrLookup(mem, decode, cache, f.name);
      ClassRead(mem, decode, cache, f.scope);
      if f.ftype == TYPE_USER {
        StrLookup(mem, decode, cache, f.file);
        LineRead(mem, c.opline, f.lineStart);
      }
    }
  }

  lemma {:induction false} CallsRead(mem: Mem, decode: Decoder, cache: Cache, layout: VersionLayout, calls: seq<Call>,
                                     depth: nat)
    requires Fits(layout) && CallsHeld(mem, layout, calls)
    ensures WalkVia(mem, decode, cache, layout, HeadOf(calls), depth) == SeenAll(decode, cache, FirstOf(calls, depth))
  {
    hide FrameVia, Seen, CallHeld, WalkVia;
    var n := if depth <= |calls| then depth else |calls|;
    if n == 0 {
      WalkStops(mem, decode, cache, layout, HeadOf(calls), depth);
    } else {
      var prev := HeadOf(calls[1..]);
      CallRead(mem, decode, cache, layout, calls[0], prev);
      assert calls[0].ex != 0 by { CallNonNull(mem, layout, calls[0], prev); }
      WalkOne(mem, decode, cache, layout, calls[0].ex, depth);
      CallsRead(mem, decode, cache, layout, calls[1..], depth - 1);
      assert FirstOf(calls, depth) == [calls[0]] + FirstOf(calls[1..], depth - 1);
      SeenCons(decode, cache, calls[0], FirstOf(calls[1..], depth - 1));
    }
  }

  lemma CallNonNull(mem: Mem, layout: VersionLayout, c: Call, prev: u64)
    requires Fits(layout) && CallHeld(mem, layout, c, prev)
    ensures c.ex != 0
  {
  }

  lemma SeenCons(decode: Decoder, cache: Cache, c: Call, rest: seq<Call>)
    ensures SeenAll(decode, cache, [c] + rest) == [Seen(decode, cache, c)] + SeenAll(decode, cache, rest)
  {
    hide Seen;
  }

  /**
   * Through any cache, coherent or not, a laid-out call stack is captured as its first `maxDepth` frames,
   * with the cached text wherever a string's address is cached.
   */
  lemma CaptureSees(mem: Mem, decode: Decoder, cache: Cache, layout: VersionLayout, eg: nat, calls: seq<Call>,
                    maxDepth: nat)
    requires Fits(layout) && StackHeld(mem, layout, eg, calls)
    ensures CaptureVia(mem, decode, cache, layout, eg, maxDepth) == Ok(SeenAll(decode, cache, FirstOf(calls, maxDepth)))
  {
    hide Holds64, CallsHeld, WalkVia, ReadU64;
    U64Held(mem, Add(eg, layout.egCurrentExecuteData), HeadOf(calls));
    CallsRead(mem, decode, cache, layout, calls, maxDepth);
  }

  // ----- Whatever can be read is laid out -----

  function StrAt(mem: Mem, ptr: u64): Option<Str>
    requires ptr == 0 || StringReadable(mem, ptr)
  {
    if ptr == 0 then None
    else
      var len, n := Peek(mem, Add(ptr, 16)), StringLength(mem, ptr);
      Some(Str(ptr, BytesAt(mem, Add(ptr, 24), n) + seq(len - n, _ => 0)))
  }

  lemma StrAtHeld(mem: Mem, ptr: u64)
    requires ptr == 0 || StringReadable(mem, ptr)
    ensures StrHeld(mem, StrAt(mem, ptr)) && StrPtr(StrAt(mem, ptr)) == ptr
  {
    hide LeBytes, Peek, Holds64;
    if ptr != 0 {
      PeekHeld(mem, Add(ptr, 16));
      var bytes := StrAt(mem, ptr).value.bytes;
      assert Cut(bytes) == BytesAt(mem, Add(ptr, 24), StringLength(mem, ptr));
    }
  }

  function ClassAt(mem: Mem, scope: u64): Option<Class>
    requires ClassSeen(mem, map[], scope)
  {
    if scope == 0 then None else Some(Class(scope, StrAt(mem, Peek(mem, Add(scope, 8)))))
  }

  lemma ClassAtHeld(mem: Mem, scope: u64)
    requires ClassSeen(mem, map[], scope)
    ensures ClassHeld(mem, ClassAt(mem, scope))
  {
    hide StrAt, StringReadable, StrHeld, Peek, Holds64;
    if scope != 0 {
      PeekHeld(mem, Add(scope, 8));
      StrAtHeld(mem, Peek(mem, Add(scope, 8)));
    }
  }

  function OplineAt(mem: Mem, ptr: u64): Option<Opline> {
    if ptr == 0 then None else
    Some(Opline(ptr, match ReadU32(mem, Add(ptr, 24)) case Ok(line) => Some(line) case Err => None))
  }

  lemma OplineAtHeld(mem: Mem, ptr: u64)
    ensures OplineHeld(mem, OplineAt(mem, ptr))
  {
    hide Holds32, U32At;
    if ptr != 0 && Readable(mem, Add(ptr, 24), 4) { Peek32Held(mem, Add(ptr, 24)); }
  }

  function FuncAt(mem: Mem, layout: VersionLayout, func: u64): Func
    requires Fits(layout) && FunctionSeen(mem, map[], layout, func)
  {
    var user := mem[func] == 2;
    Func(func, mem[func], StrAt(mem, Peek(mem, func + 8)), ClassAt(mem, Peek(mem, func + 16)),
         if user then StrAt(mem, Peek(mem, func + layout.opArrayFilename)) else None,
         if user then ReadU32(mem, func + layout.opArrayLineStart).GetOr(0) else 0)
  }

  lemma FuncAtHeld(mem: Mem, layout: VersionLayout, func: u64)
    requires Fits(layout) && func != 0 && FunctionSeen(mem, map[], layout, func)
    ensures FuncHeld(mem, layout, FuncAt(mem, layout, func))
  {
    hide StrAt, ClassAt, ClassSeen, StringReadable, StrHeld, ClassHeld, Peek, Holds64, Holds32, ReadU32;
    PeekHeld(mem, func + 8);
    StrAtHeld(mem, Peek(mem, func + 8));
    PeekHeld(mem, func + 16);
    ClassAtHeld(mem, Peek(mem, func + 16));
    ClassAtPtr(mem, Peek(mem, func + 16));
    if mem[func] == 2 {
      PeekHeld(mem, func + layout.opArrayFilename);
      StrAtHeld(mem, Peek(mem, func + layout.opArrayFilename));
      Peek32Held(mem, func + layout.opArrayLineStart);
    }
  }

  lemma ClassAtPtr(mem: Mem, scope: u64)
    requires ClassSeen(mem, map[], scope)
    ensures var c := ClassAt(mem, scope);
            (if c.Some? then c.value.ptr else 0) == scope
  {
    hide StrAt;
  }

  function CallAt(mem: Mem, layout: VersionLayout, ex: u64): Call
    requires Fits(layout) && FrameReadable(mem, map[], layout, ex)
  {
    var func := Peek(mem, ex + 24);
    Call(ex, OplineAt(mem, Peek(mem, ex)), if func == 0 then None else Some(FuncAt(mem, layout, func)))
  }

  lemma CallAtHeld(mem: Mem, layout: VersionLayout, ex: u64)
    requires Fits(layout) && ex != 0 && FrameReadable(mem, map[], layout, ex)
    ensures CallHeld(mem, layout, CallAt(mem, layout, ex), Peek(mem, ex + 48))
  {
    hide FuncAt, FuncHeld, FunctionSeen, OplineHeld, Peek, Holds64, ReadU32;
    PeekHeld(mem, ex);
    PeekHeld(mem, ex + 24);
    PeekHeld(mem, ex + 48);
    OplineAtHeld(mem, Peek(mem, ex));
    if Peek(mem, ex + 24) != 0 {
      FuncAtHeld(mem, layout, Peek(mem, ex + 24));
      FuncAtPtr(mem, layout, Peek(mem, ex + 24));
    }
  }

  lemma FuncAtPtr(mem: Mem, layout: VersionLayout, func: u64)
    requires Fits(layout) && FunctionSeen(mem, map[], layout, func)
    ensures FuncAt(mem, layout, func).ptr == func
  {
    hide StrAt, ClassAt, ClassSeen;
  }

  /**
   * On any memory a frame whose strings are readable is the layout of some call, and through any cache it is read as
   * that call: nothing readable falls outside the layouts above.
   */
  lemma ReadableFrameIsACall(mem: Mem, decode: Decoder, cache: Cache, layout: VersionLayout, ex: u64)
    requires Fits(layout) && ex != 0 && FrameReadable(mem, map[], layout, ex)
    ensures var c, prev := CallAt(mem, layout, ex), Peek(mem, ex + 48);
            && CallHeld(mem, layout, c, prev)
            && FrameVia(mem, decode, cache, layout, ex) == Ok((Seen(decode, cache, c), prev))
  {
    hide CallHeld, FrameVia, Seen, Peek, FuncAt, FunctionSeen, OplineAt;
    CallAtHeld(mem, layout, ex);
    CallRead(mem, decode, cache, layout, CallAt(mem, layout, ex), Peek(mem, ex + 48));
  }

  // ----- Exactly when a cache is invisible to a capture -----

  /** If the string's address is cached, then with its present text. */
  predicate FreshText(decode: Decoder, cache: Cache, s: Option<Str>) {
    s.Some? && s.value.ptr in cache ==> cache[s.value.ptr] == Text(decode, s.value.bytes)
  }

  /** The function's name, its class's name and, for a user function, its file. */
  predicate FreshCall(decode: Decoder, cache: Cache, c: Call) {
    c.func.Some? ==>
      var f := c.func.value;
      && FreshText(decode, cache, f.name)
      && (f.scope.Some? ==> FreshText(decode, cache, f.scope.value.name))
      && (f.ftype == 2 ==> FreshText(decode, cache, f.file))
  }

  lemma FreshTextIsSeen(decode: Decoder, cache: Cache, s: Option<Str>)
    ensures TextVia(decode, cache, s) == TextVia(decode, map[], s) <==> FreshText(decode, cache, s)
    ensures TextVia(decode, cache, s).Some? <==> s.Some?
  {
    hide Text;
  }

  lemma FreshCallIsSeen(decode: Decoder, cache: Cache, c: Call)
    ensures Seen(decode, cache, c) == Seen(decode, map[], c) <==> FreshCall(decode, cache, c)
  {
    hide TextVia, FreshText, LineShown;
    if c.func.Some? {
      var f := c.func.value;
      FreshTextIsSeen(decode, cache, f.name);
      FreshTextIsSeen(decode, map[], f.name);
      if f.scope.Some? { FreshTextIsSeen(decode, cache, f.scope.value.name); }
      FreshTextIsSeen(decode, cache, f.file);
    }
  }

  /**
   * On a laid-out stack a capture through any cache equals the uncached capture if and only if every string that
   * the captured frames show is fresh: whatever else is cached, right or wrong, does not matter.
   */
  lemma CaptureIsUncachedIffFresh(mem: Mem, decode: Decoder, cache: Cache, layout: VersionLayout, eg: nat,
                                  calls: seq<Call>, maxDepth: nat)
    requires Fits(layout) && StackHeld(mem, layout, eg, calls)
    ensures CaptureVia(mem, decode, cache, layout, eg, maxDepth) == CaptureVia(mem, decode, map[], layout, eg, maxDepth)
       <==> forall c :: c in FirstOf(calls, maxDepth) ==> FreshCall(decode, cache, c)
  {
    hide StackHeld, CaptureVia, Seen, FreshCall, FirstOf;
    CaptureSees(mem, decode, cache, layout, eg, calls, maxDepth);
    CaptureSees(mem, decode, map[], layout, eg, calls, maxDepth);
    var first := FirstOf(calls, maxDepth);
    var seen, shown := SeenAll(decode, cache, first), SeenAll(decode, map[], first);
    forall i | 0 <= i < |first| ensures seen[i] == shown[i] <==> FreshCall(decode, cache, first[i]) {
      FreshCallIsSeen(decode, cache, first[i]);
    }
    if seen == shown {
      forall c | c in first ensures FreshCall(decode, cache, c) {
        var i :| 0 <= i < |first| && first[i] == c;
        assert seen[i] == shown[i];
      }
    } else {
      var i :| 0 <= i < |first| && seen[i] != shown[i];
      assert first[i] in first;
    }
  }

  /**
   * Byte-level representation: any call stack laid out under any layout that fits is captured as exactly
   * its first `maxDepth` frames, through any coherent cache: names cut at 4096 bytes, the instruction's
   * line falling back to the function's first line, null and internal functions shown as constants.
   */
  lemma CaptureReadsBack(mem: Mem, decode: Decoder, cache: Cache, layout: VersionLayout, eg: nat, calls: seq<Call>,
                         maxDepth: nat)
    requires Fits(layout) && StackHeld(mem, layout, eg, calls) && Coherent(mem, decode, cache)
    ensures CaptureVia(mem, decode, cache, layout, eg, maxDepth) == Ok(ShownAll(decode, FirstOf(calls, maxDepth)))
  {
    hide StackHeld, CaptureVia, Coherent;
    CoherentCaptureIsUncached(mem, decode, cache, layout, eg, maxDepth);
    CaptureSees(mem, decode, map[], layout, eg, calls, maxDepth);
  }
}
