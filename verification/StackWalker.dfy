/** Walking the remote Zend call stack through a bounded, never-evicting string cache. */
module StackWalker {
  import opened Wrappers
  import opened Frames
  import opened Memory

  const MAX_STR_LEN := 4096
  const EX_BUF := 64
  const FUNC_BUF := 192
  const MAX_CACHE := 8192

  // Offsets that are stable across the supported versions.
  const EX_OPLINE := 0
  const EX_FUNC := 24
  const EX_PREV := 48
  const FUNC_TYPE := 0
  const FUNC_NAME := 8
  const FUNC_SCOPE := 16
  const TYPE_INTERNAL := 1
  const TYPE_USER := 2
  const OP_LINENO := 24
  const ZSTR_LEN := 16
  const ZSTR_VAL := 24
  const CE_NAME := 8

  datatype VersionLayout = VersionLayout(name: string, egCurrentExecuteData: nat, egSymbolTable: nat,
                                         opArrayFilename: nat, opArrayLineStart: nat)

  const LAYOUT_8_0 := VersionLayout("8.0", 488, 304, 144, 152)
  const LAYOUT_8_1 := VersionLayout("8.1", 488, 304, 144, 152)
  const LAYOUT_8_2 := VersionLayout("8.2", 488, 304, 152, 160)
  const LAYOUT_8_3 := VersionLayout("8.3", 488, 304, 144, 152)
  const LAYOUT_8_4 := VersionLayout("8.4", 488, 304, 168, 176)
  const LAYOUT_8_5 := VersionLayout("8.5", 512, 304, 168, 176)

  /** Overriding the two EG offsets from the environment changes nothing here. */
  predicate Fits(layout: VersionLayout) {
    layout.opArrayFilename + 8 <= FUNC_BUF && layout.opArrayLineStart + 4 <= FUNC_BUF
  }

  const LAYOUTS := {LAYOUT_8_0, LAYOUT_8_1, LAYOUT_8_2, LAYOUT_8_3, LAYOUT_8_4, LAYOUT_8_5}

  /** The one layout of the table whose name the version starts with. */
  function Pick(version: string): (layout: Option<VersionLayout>)
    ensures forall l :: l in LAYOUTS && l.name <= version <==> layout == Some(l)
    ensures layout.Some? ==> Fits(layout.value)
    ensures layout.Some? <==> exists minor :: minor in {'0', '1', '2', '3', '4', '5'} && ['8', '.', minor] <= version
  {
    assert forall l :: l in LAYOUTS ==> |l.name| == 3 && (l.name <= version ==> l.name[2] == version[2]);
    if "8.0" <= version then Some(LAYOUT_8_0)
    else if "8.1" <= version then Some(LAYOUT_8_1)
    else if "8.2" <= version then Some(LAYOUT_8_2)
    else if "8.3" <= version then Some(LAYOUT_8_3)
    else if "8.4" <= version then Some(LAYOUT_8_4)
    else if "8.5" <= version then Some(LAYOUT_8_5)
    else None
  }

  /** The table, version by version: where the call stack, the globals, the file and the first line are. */
  lemma LayoutTable(patch: string)
    ensures Pick("8.0" + patch) == Some(VersionLayout("8.0", 488, 304, 144, 152))
    ensures Pick("8.1" + patch) == Some(VersionLayout("8.1", 488, 304, 144, 152))
    ensures Pick("8.2" + patch) == Some(VersionLayout("8.2", 488, 304, 152, 160))
    ensures Pick("8.3" + patch) == Some(VersionLayout("8.3", 488, 304, 144, 152))
    ensures Pick("8.4" + patch) == Some(VersionLayout("8.4", 488, 304, 168, 176))
    ensures Pick("8.5" + patch) == Some(VersionLayout("8.5", 512, 304, 168, 176))
  {
    assert LAYOUT_8_0 in LAYOUTS && LAYOUT_8_1 in LAYOUTS && LAYOUT_8_2 in LAYOUTS;
    assert LAYOUT_8_3 in LAYOUTS && LAYOUT_8_4 in LAYOUTS && LAYOUT_8_5 in LAYOUTS;
    hide Pick;
    assert "8.0" <= "8.0" + patch && "8.1" <= "8.1" + patch && "8.2" <= "8.2" + patch;
    assert "8.3" <= "8.3" + patch && "8.4" <= "8.4" + patch && "8.5" <= "8.5" + patch;
  }

  /** `String::from_utf8_lossy`, left uninterpreted: every result below holds for any decoding. */
  type Decoder = seq<byte> -> string

  type Cache = map<nat, string>

  // ----- Reads -----

  function ReadZendString(mem: Mem, decode: Decoder, addr: nat): Result<string> {
    var len :- ReadU64(mem, Add(addr, ZSTR_LEN));
    var len' := if len <= MAX_STR_LEN then len else MAX_STR_LEN;
    if len' == 0 then Ok("") else
    var bytes :- Read(mem, Add(addr, ZSTR_VAL), len');
    Ok(decode(bytes))
  }

  /** The string at `addr` as seen through a cache. */
  function Lookup(mem: Mem, decode: Decoder, cache: Cache, addr: nat): Result<string> {
    if addr in cache then Ok(cache[addr]) else ReadZendString(mem, decode, addr)
  }

  /** The cached string at a pointer that may be null. */
  function LookupNonNull(mem: Mem, decode: Decoder, cache: Cache, ptr: nat): Result<Option<string>> {
    if ptr == 0 then Ok(None) else
    var s :- Lookup(mem, decode, cache, ptr);
    Ok(Some(s))
  }

  function ClassOf(mem: Mem, decode: Decoder, cache: Cache, scopePtr: nat): Result<Option<string>> {
    if scopePtr == 0 then Ok(None) else
    var namePtr :- ReadU64(mem, Add(scopePtr, CE_NAME));
    LookupNonNull(mem, decode, cache, namePtr)
  }

  function LineOf(mem: Mem, oplinePtr: nat, lineStart: nat): nat {
    var line := if oplinePtr != 0 then ReadU32(mem, Add(oplinePtr, OP_LINENO)).GetOr(0) else 0;
    if line == 0 then lineStart else line
  }

  /**
   * One frame and the next `execute_data`, as seen through a fixed cache. With the empty cache this is
   * the uncached walk.
   */
  function FrameVia(mem: Mem, decode: Decoder, cache: Cache, layout: VersionLayout, ex: nat): Result<(Frame, nat)>
    requires Fits(layout)
  {
    var exBuf :- Read(mem, ex, EX_BUF);
    var oplinePtr, funcPtr, prev := U64At(exBuf, EX_OPLINE), U64At(exBuf, EX_FUNC), U64At(exBuf, EX_PREV);
    if funcPtr == 0 then Ok((Frame("<unknown>", None, None, 0), prev)) else
    var func :- Read(mem, funcPtr, FUNC_BUF);
    var name :- LookupNonNull(mem, decode, cache, U64At(func, FUNC_NAME));
    var cls :- ClassOf(mem, decode, cache, U64At(func, FUNC_SCOPE));
    if func[FUNC_TYPE] == TYPE_USER then
      var file :- LookupNonNull(mem, decode, cache, U64At(func, layout.opArrayFilename));
      var line := LineOf(mem, oplinePtr, U32At(func, layout.opArrayLineStart));
      Ok((Frame(name.GetOr("{main}"), cls, file, line), prev))
    else
      var file := if func[FUNC_TYPE] == TYPE_INTERNAL then Some("<internal>") else None;
      Ok((Frame(name.GetOr("{main}"), cls, file, 0), prev))
  }

  function WalkVia(mem: Mem, decode: Decoder, cache: Cache, layout: VersionLayout, ex: nat, depth: nat): seq<Frame>
    requires Fits(layout)
    decreases depth
  {
    if ex == 0 || depth == 0 then []
    else
      match FrameVia(mem, decode, cache, layout, ex)
      case Err => []
      case Ok((frame, prev)) => [frame] + WalkVia(mem, decode, cache, layout, prev, depth - 1)
  }

  function CaptureVia(mem: Mem, decode: Decoder, cache: Cache, layout: VersionLayout, eg: nat, maxDepth: nat)
    : Result<seq<Frame>>
    requires Fits(layout)
  {
    var head :- ReadU64(mem, Add(eg, layout.egCurrentExecuteData));
    Ok(WalkVia(mem, decode, cache, layout, head, maxDepth))
  }

  // ----- The cache -----

  /** What a read may do to the cache: nothing evicted, only true readings added, the bound respected. */
  ghost predicate CacheStep(mem: Mem, decode: Decoder, c: Cache, c': Cache) {
    && (forall a :: a in c ==> a in c' && c'[a] == c[a])
    && (forall a :: a in c' && a !in c ==> ReadZendString(mem, decode, a) == Ok(c'[a]))
    && (|c| <= 8192 ==> |c'| <= 8192)
  }

  /** Every cached string still reads the same. */
  ghost predicate Coherent(mem: Mem, decode: Decoder, c: Cache) {
    forall a :: a in c ==> ReadZendString(mem, decode, a) == Ok(c[a])
  }

  lemma StepKeepsView(mem: Mem, decode: Decoder, c: Cache, c': Cache, a: nat)
    requires CacheStep(mem, decode, c, c')
    ensures Lookup(mem, decode, c', a) == Lookup(mem, decode, c, a)
  {
  }

  lemma StepReflexive(mem: Mem, decode: Decoder, c: Cache)
    ensures CacheStep(mem, decode, c, c)
  {
  }

  lemma StepsCompose(mem: Mem, decode: Decoder, c0: Cache, c1: Cache, c2: Cache)
    requires CacheStep(mem, decode, c0, c1) && CacheStep(mem, decode, c1, c2)
    ensures CacheStep(mem, decode, c0, c2)
  {
  }

  /** A frame depends on its cache only through the strings seen through it. */
  lemma SameViewSameFrame(mem: Mem, decode: Decoder, c: Cache, c': Cache, layout: VersionLayout, ex: nat)
    requires Fits(layout)
    requires forall a: nat :: Lookup(mem, decode, c', a) == Lookup(mem, decode, c, a)
    ensures FrameVia(mem, decode, c', layout, ex) == FrameVia(mem, decode, c, layout, ex)
  {
    hide Lookup, ReadZendString, LineOf, U64At, U32At, ReadU64;
  }

  /** Growing the cache during a capture, in whatever frame and however the frame ended, is invisible. */
  lemma StepKeepsFrames(mem: Mem, decode: Decoder, c: Cache, c': Cache, layout: VersionLayout, ex: nat)
    requires Fits(layout) && CacheStep(mem, decode, c, c')
    ensures FrameVia(mem, decode, c', layout, ex) == FrameVia(mem, decode, c, layout, ex)
  {
    hide CacheStep, FrameVia;
    forall a: nat ensures Lookup(mem, decode, c', a) == Lookup(mem, decode, c, a) {
      StepKeepsView(mem, decode, c, c', a);
    }
    SameViewSameFrame(mem, decode, c, c', layout, ex);
  }

  lemma {:induction false} SameFramesSameWalk(mem: Mem, decode: Decoder, c: Cache, c': Cache, layout: VersionLayout,
                                              ex: nat, depth: nat)
    requires Fits(layout)
    requires forall x: nat :: FrameVia(mem, decode, c', layout, x) == FrameVia(mem, decode, c, layout, x)
    ensures WalkVia(mem, decode, c', layout, ex, depth) == WalkVia(mem, decode, c, layout, ex, depth)
    decreases depth
  {
    hide FrameVia;
    if ex != 0 && depth > 0 {
      match FrameVia(mem, decode, c, layout, ex)
      case Err =>
      case Ok((_, prev)) => SameFramesSameWalk(mem, decode, c, c', layout, prev, depth - 1);
    }
  }

  /** The cache is invisible at every address exactly if it is coherent. */
  lemma InvisibleIffCoherent(mem: Mem, decode: Decoder, c: Cache)
    ensures (forall a: nat :: Lookup(mem, decode, c, a) == ReadZendString(mem, decode, a)) <==> Coherent(mem, decode, c)
  {
    if forall a: nat :: Lookup(mem, decode, c, a) == ReadZendString(mem, decode, a) {
      forall a | a in c ensures ReadZendString(mem, decode, a) == Ok(c[a]) {
        assert Lookup(mem, decode, c, a) == Ok(c[a]);
      }
    }
  }

  /** Cache refinement, one capture: through a coherent cache the capture is the uncached one. */
  lemma CoherentCaptureIsUncached(mem: Mem, decode: Decoder, c: Cache, layout: VersionLayout, eg: nat, maxDepth: nat)
    requires Fits(layout) && Coherent(mem, decode, c)
    ensures CaptureVia(mem, decode, c, layout, eg, maxDepth) == CaptureVia(mem, decode, map[], layout, eg, maxDepth)
  {
    hide FrameVia, WalkVia;
    forall x: nat ensures FrameVia(mem, decode, c, layout, x) == FrameVia(mem, decode, map[], layout, x) {
      CoherentFrameIsUncached(mem, decode, c, layout, x);
    }
    match ReadU64(mem, Add(eg, layout.egCurrentExecuteData))
    case Err =>
    case Ok(head) => SameFramesSameWalk(mem, decode, map[], c, layout, head, maxDepth);
  }

  lemma CoherentFrameIsUncached(mem: Mem, decode: Decoder, c: Cache, layout: VersionLayout, ex: nat)
    requires Fits(layout) && Coherent(mem, decode, c)
    ensures FrameVia(mem, decode, c, layout, ex) == FrameVia(mem, decode, map[], layout, ex)
  {
    hide FrameVia;
    InvisibleIffCoherent(mem, decode, c);
    SameViewSameFrame(mem, decode, map[], c, layout, ex);
  }

  // ----- Whole runs of captures -----

  /**
   * A run: capture i happens in memory `mems[i]` with cache `caches[i]` and leaves `caches[i + 1]`,
   * starting from the empty cache. Everything else may change between captures.
   */
  ghost predicate IsRun(decode: Decoder, mems: seq<Mem>, caches: seq<Cache>) {
    && |caches| == |mems| + 1 && caches[0] == map[]
    && forall i :: 0 <= i < |mems| ==> CacheStep(mems[i], decode, caches[i], caches[i + 1])
  }

  /** Capture i was the one that cached the string at `a`. */
  predicate CachedBy(caches: seq<Cache>, i: nat, a: nat) {
    i + 1 < |caches| && a in caches[i + 1] && a !in caches[i]
  }

  /** At capture k every string cached before reads as it did when it was cached. */
  ghost predicate StringsKept(decode: Decoder, mems: seq<Mem>, caches: seq<Cache>, k: nat)
    requires k < |mems|
  {
    forall i: nat, a: nat :: i < k && CachedBy(caches, i, a) ==>
      ReadZendString(mems[k], decode, a) == ReadZendString(mems[i], decode, a)
  }

  /** Whatever is cached was read by exactly such a capture, and has stayed as it was. */
  lemma {:induction false} CachedOnce(decode: Decoder, mems: seq<Mem>, caches: seq<Cache>, k: nat, a: nat)
    returns (i: nat)
    requires IsRun(decode, mems, caches) && k <= |mems| && a in caches[k]
    ensures i < k && CachedBy(caches, i, a) && ReadZendString(mems[i], decode, a) == Ok(caches[k][a])
  {
    hide ReadZendString;
    assert CacheStep(mems[k - 1], decode, caches[k - 1], caches[k]);
    if a in caches[k - 1] {
      i := CachedOnce(decode, mems, caches, k - 1, a);
    } else {
      i := k - 1;
    }
  }

  lemma {:induction false} CachedStays(decode: Decoder, mems: seq<Mem>, caches: seq<Cache>, i: nat, k: nat, a: nat)
    requires IsRun(decode, mems, caches) && i < k <= |mems| && CachedBy(caches, i, a)
    ensures a in caches[k] && ReadZendString(mems[i], decode, a) == Ok(caches[k][a])
  {
    hide ReadZendString;
    assert CacheStep(mems[k - 1], decode, caches[k - 1], caches[k]);
    if i + 1 < k { CachedStays(decode, mems, caches, i, k - 1, a); }
  }

  lemma {:induction false} CachesStayBounded(decode: Decoder, mems: seq<Mem>, caches: seq<Cache>, k: nat)
    requires IsRun(decode, mems, caches) && k <= |mems|
    ensures |caches[k]| <= 8192
  {
    hide ReadZendString;
    if k > 0 {
      CachesStayBounded(decode, mems, caches, k - 1);
      assert CacheStep(mems[k - 1], decode, caches[k - 1], caches[k]);
    }
  }

  /** A reached cache is coherent at a capture if and only if the strings cached before it read as they did then. */
  lemma ReachableCachesAreCoherent(decode: Decoder, mems: seq<Mem>, caches: seq<Cache>, k: nat)
    requires IsRun(decode, mems, caches) && k < |mems|
    ensures Coherent(mems[k], decode, caches[k]) <==> StringsKept(decode, mems, caches, k)
    ensures |caches[k]| <= 8192
  {
    hide ReadZendString, CacheStep, CachedBy;
    CachesStayBounded(decode, mems, caches, k);
    if Coherent(mems[k], decode, caches[k]) {
      forall i: nat, a: nat | i < k && CachedBy(caches, i, a)
        ensures ReadZendString(mems[k], decode, a) == ReadZendString(mems[i], decode, a)
      {
        CachedStays(decode, mems, caches, i, k, a);
      }
    }
    if StringsKept(decode, mems, caches, k) {
      forall a | a in caches[k] ensures ReadZendString(mems[k], decode, a) == Ok(caches[k][a]) {
        var i := CachedOnce(decode, mems, caches, k, a);
      }
    }
  }

  /**
   * Cache refinement over whole runs: every capture of the run at which the strings cached before read as they
   * did then returns the same frames, or the same error, as an uncached capture of the same memory, whatever
   * happened in between. No cache ever exceeds its bound.
   */
  lemma RunRefinesUncached(decode: Decoder, mems: seq<Mem>, caches: seq<Cache>, k: nat, layout: VersionLayout,
                           eg: nat, maxDepth: nat)
    requires IsRun(decode, mems, caches) && k < |mems| && Fits(layout)
    ensures StringsKept(decode, mems, caches, k) ==>
              CaptureVia(mems[k], decode, caches[k], layout, eg, maxDepth) ==
              CaptureVia(mems[k], decode, map[], layout, eg, maxDepth)
    ensures |caches[k]| <= 8192
  {
    ReachableCachesAreCoherent(decode, mems, caches, k);
    if StringsKept(decode, mems, caches, k) {
      CoherentCaptureIsUncached(mems[k], decode, caches[k], layout, eg, maxDepth);
    }
  }

  // ----- What can be read -----

  /** A `zend_string`: its length, and its bytes up to 4096. */
  predicate StringReadable(mem: Mem, ptr: nat) {
    && Readable(mem, Add(ptr, 16), 8)
    && Readable(mem, Add(ptr, 24), StringLength(mem, ptr))
  }

  function StringLength(mem: Mem, ptr: nat): nat {
    var len := Peek(mem, Add(ptr, 16));
    if len <= 4096 then len else 4096
  }

  function BytesAt(mem: Mem, addr: nat, n: nat): (bytes: seq<byte>)
    requires Readable(mem, addr, n)
    ensures |bytes| == n && forall i :: 0 <= i < n ==> bytes[i] == mem[addr + i]
  {
    seq(n, i requires 0 <= i < n && Readable(mem, addr, n) => mem[addr + i])
  }

  function TextAt(mem: Mem, decode: Decoder, ptr: nat): string
    requires StringReadable(mem, ptr)
  {
    var n := StringLength(mem, ptr);
    if n == 0 then "" else decode(BytesAt(mem, Add(ptr, 24), n))
  }

  /** On any memory a string is read exactly if it is readable, and then it is its text. */
  lemma StringIsReadable(mem: Mem, decode: Decoder, ptr: nat)
    ensures ReadZendString(mem, decode, ptr) ==
            if StringReadable(mem, ptr) then Ok(TextAt(mem, decode, ptr)) else Err
  {
    hide U64At, Add;
    PeekReads(mem, Add(ptr, 16));
    var n := StringLength(mem, ptr);
    if StringReadable(mem, ptr) && n > 0 {
      assert Read(mem, Add(ptr, 24), n).value == BytesAt(mem, Add(ptr, 24), n);
    }
  }

  /** A string pointer that a frame can be shown with: null, cached, or readable. */
  predicate StringSeen(mem: Mem, cache: Cache, ptr: nat) {
    ptr == 0 || ptr in cache || StringReadable(mem, ptr)
  }

  lemma StringIsSeen(mem: Mem, decode: Decoder, cache: Cache, ptr: nat)
    ensures LookupNonNull(mem, decode, cache, ptr).Ok? <==> StringSeen(mem, cache, ptr)
  {
    hide ReadZendString, StringReadable, TextAt;
    StringIsReadable(mem, decode, ptr);
  }

  predicate ClassSeen(mem: Mem, cache: Cache, scope: nat) {
    scope == 0 || (Readable(mem, Add(scope, 8), 8) && StringSeen(mem, cache, Peek(mem, Add(scope, 8))))
  }

  lemma ClassIsSeen(mem: Mem, decode: Decoder, cache: Cache, scope: nat)
    ensures ClassOf(mem, decode, cache, scope).Ok? <==> ClassSeen(mem, cache, scope)
  {
    hide LookupNonNull, StringSeen, ReadU64, Add;
    PeekReads(mem, Add(scope, CE_NAME));
    StringIsSeen(mem, decode, cache, Peek(mem, Add(scope, 8)));
  }

  /** The function struct: its 192 bytes, its name, its class's name and, for a user function, its file. */
  predicate FunctionSeen(mem: Mem, cache: Cache, layout: VersionLayout, func: nat) {
    && Readable(mem, func, 192)
    && StringSeen(mem, cache, Peek(mem, func + 8))
    && ClassSeen(mem, cache, Peek(mem, func + 16))
    && (mem[func] == 2 ==> StringSeen(mem, cache, Peek(mem, func + layout.opArrayFilename)))
  }

  /** A frame: the 64 bytes of its `execute_data` and, unless its function pointer is null, its function. */
  predicate FrameReadable(mem: Mem, cache: Cache, layout: VersionLayout, ex: nat) {
    && Readable(mem, ex, 64)
    && (Peek(mem, ex + 24) != 0 ==> FunctionSeen(mem, cache, layout, Peek(mem, ex + 24)))
  }

  /** On any memory a frame is read exactly if it is readable, and links to the address at its offset 48. */
  lemma FrameIsReadable(mem: Mem, decode: Decoder, cache: Cache, layout: VersionLayout, ex: nat)
    requires Fits(layout)
    ensures FrameVia(mem, decode, cache, layout, ex).Ok? <==> FrameReadable(mem, cache, layout, ex)
    ensures FrameReadable(mem, cache, layout, ex) ==>
              FrameVia(mem, decode, cache, layout, ex).value.1 == Peek(mem, ex + 48)
  {
    hide LookupNonNull, ClassOf, LineOf, U64At, U32At, StringSeen, ClassSeen, Peek;
    if Readable(mem, ex, 64) {
      FieldIsPeek(mem, ex, 64, 24);
      FieldIsPeek(mem, ex, 64, 48);
      var func := Peek(mem, ex + 24);
      if func != 0 && Readable(mem, func, 192) {
        FieldIsPeek(mem, func, 192, 8);
        FieldIsPeek(mem, func, 192, 16);
        FieldIsPeek(mem, func, 192, layout.opArrayFilename);
        StringIsSeen(mem, decode, cache, Peek(mem, func + 8));
        ClassIsSeen(mem, decode, cache, Peek(mem, func + 16));
        StringIsSeen(mem, decode, cache, Peek(mem, func + layout.opArrayFilename));
        assert Read(mem, func, 192).value[0] == mem[func];
      }
    }
  }

  /** A capture fails exactly if the pointer to the innermost frame cannot be read. */
  lemma CaptureFailsIffHeadless(mem: Mem, decode: Decoder, cache: Cache, layout: VersionLayout, eg: nat, maxDepth: nat)
    requires Fits(layout)
    ensures CaptureVia(mem, decode, cache, layout, eg, maxDepth) ==
            if Readable(mem, Add(eg, layout.egCurrentExecuteData), 8)
            then Ok(WalkVia(mem, decode, cache, layout, Peek(mem, Add(eg, layout.egCurrentExecuteData)), maxDepth))
            else Err
  {
    hide WalkVia;
    PeekReads(mem, Add(eg, layout.egCurrentExecuteData));
  }

  // ----- The walk on arbitrary memory -----

  /** The k-th `execute_data` on the chain of links from `head`, if the k frames before it are readable. */
  function ChainAt(mem: Mem, cache: Cache, layout: VersionLayout, head: nat, k: nat): Option<nat> {
    if k == 0 then Some(head) else
    var ex :- ChainAt(mem, cache, layout, head, k - 1);
    if ex == 0 || !FrameReadable(mem, cache, layout, ex) then None else Some(Peek(mem, ex + 48))
  }

  lemma {:induction false} ChainFromSecond(mem: Mem, cache: Cache, layout: VersionLayout, head: nat, k: nat)
    requires head != 0 && FrameReadable(mem, cache, layout, head)
    ensures ChainAt(mem, cache, layout, head, k + 1) == ChainAt(mem, cache, layout, Peek(mem, head + 48), k)
  {
    hide FrameReadable, Peek;
    if k > 0 { ChainFromSecond(mem, cache, layout, head, k - 1); }
  }

  /** The i-th frame of the chain is readable and reads as `frame`. */
  ghost predicate IsFrameAt(mem: Mem, decode: Decoder, cache: Cache, layout: VersionLayout, head: nat, i: nat,
                            frame: Frame)
    requires Fits(layout)
  {
    var ex := ChainAt(mem, cache, layout, head, i);
    && ex.Some? && ex.value != 0 && FrameReadable(mem, cache, layout, ex.value)
    && FrameVia(mem, decode, cache, layout, ex.value) == Ok((frame, Peek(mem, ex.value + 48)))
  }

  /** The chain ends at its k-th link, which is null or leads to a frame that cannot be read. */
  predicate EndsAt(mem: Mem, cache: Cache, layout: VersionLayout, head: nat, k: nat) {
    var ex := ChainAt(mem, cache, layout, head, k);
    ex.Some? && (ex.value == 0 || !FrameReadable(mem, cache, layout, ex.value))
  }

  /**
   * On any memory, cyclic or unreadable, the walk is the longest readable prefix of the chain of length
   * at most `depth`: its frames are the chain's, and it stops early only at a null or unreadable frame.
   */
  lemma {:induction false} WalkIsLongestPrefix(mem: Mem, decode: Decoder, cache: Cache, layout: VersionLayout,
                                               head: nat, depth: nat)
    requires Fits(layout)
    ensures var frames := WalkVia(mem, decode, cache, layout, head, depth);
            && |frames| <= depth
            && (forall i :: 0 <= i < |frames| ==> IsFrameAt(mem, decode, cache, layout, head, i, frames[i]))
            && (|frames| < depth ==> EndsAt(mem, cache, layout, head, |frames|))
    decreases depth
  {
    hide FrameVia, FrameReadable, Peek;
    FrameIsReadable(mem, decode, cache, layout, head);
    if head == 0 || depth == 0 || !FrameReadable(mem, cache, layout, head) { return; }
    var (frame, prev) := FrameVia(mem, decode, cache, layout, head).value;
    WalkIsLongestPrefix(mem, decode, cache, layout, prev, depth - 1);
    var rest := WalkVia(mem, decode, cache, layout, prev, depth - 1);
    var frames := WalkVia(mem, decode, cache, layout, head, depth);
    assert frames == [frame] + rest;
    ChainFromSecond(mem, cache, layout, head, |rest|);
    ChainFirst(mem, cache, layout, head);
    hide ChainAt;
    forall i | 0 <= i < |frames| ensures IsFrameAt(mem, decode, cache, layout, head, i, frames[i]) {
      if i > 0 {
        ChainFromSecond(mem, cache, layout, head, i - 1);
        assert IsFrameAt(mem, decode, cache, layout, prev, i - 1, rest[i - 1]);
      }
    }
  }

  lemma ChainFirst(mem: Mem, cache: Cache, layout: VersionLayout, head: nat)
    ensures ChainAt(mem, cache, layout, head, 0) == Some(head)
  {
  }

  /** Capturing at a smaller depth gives a prefix. */
  lemma {:induction false} ShallowIsPrefix(mem: Mem, decode: Decoder, cache: Cache, layout: VersionLayout, ex: nat,
                                           small: nat, large: nat)
    requires Fits(layout) && small <= large
    ensures WalkVia(mem, decode, cache, layout, ex, small) <= WalkVia(mem, decode, cache, layout, ex, large)
    decreases small
  {
    hide FrameVia;
    if ex != 0 && small > 0 && FrameVia(mem, decode, cache, layout, ex).Ok? {
      ShallowIsPrefix(mem, decode, cache, layout, FrameVia(mem, decode, cache, layout, ex).value.1,
                      small - 1, large - 1);
    }
  }

  /** A chain that stays inside readable, non-null frames, such as a cycle, is cut at exactly `depth`. */
  lemma {:induction false} ClosedChainFillsDepth(mem: Mem, decode: Decoder, cache: Cache, layout: VersionLayout,
                                                 ex: nat, depth: nat, closed: set<nat>)
    requires Fits(layout) && ex in closed && 0 !in closed
    requires forall x :: x in closed ==> FrameReadable(mem, cache, layout, x) && Peek(mem, x + 48) in closed
    ensures |WalkVia(mem, decode, cache, layout, ex, depth)| == depth
    decreases depth
  {
    hide FrameVia, FrameReadable, Peek;
    if depth > 0 {
      FrameIsReadable(mem, decode, cache, layout, ex);
      ClosedChainFillsDepth(mem, decode, cache, layout, Peek(mem, ex + 48), depth - 1, closed);
    }
  }

  lemma WalkOne(mem: Mem, decode: Decoder, cache: Cache, layout: VersionLayout, ex: nat, depth: nat)
    requires Fits(layout) && ex != 0 && depth > 0
    ensures WalkVia(mem, decode, cache, layout, ex, depth) ==
            match FrameVia(mem, decode, cache, layout, ex) {
              case Err => []
              case Ok(f) => [f.0] + WalkVia(mem, decode, cache, layout, f.1, depth - 1)
            }
  {
    hide FrameVia;
  }

  lemma WalkStops(mem: Mem, decode: Decoder, cache: Cache, layout: VersionLayout, ex: nat, depth: nat)
    requires Fits(layout) && (ex == 0 || depth == 0)
    ensures WalkVia(mem, decode, cache, layout, ex, depth) == []
  {
  }

  // ----- The walker object -----

  class StackWalker {
    var stringCache: Cache
    const decode: Decoder

    constructor (decode: Decoder)
      ensures stringCache == map[] && this.decode == decode
    {
      stringCache := map[];
      this.decode := decode;
    }

    method ReadZstringCached(mem: Mem, addr: nat) returns (r: Result<string>)
      modifies this
      ensures r == Lookup(mem, decode, old(stringCache), addr)
      ensures CacheStep(mem, decode, old(stringCache), stringCache)
      ensures r.Ok? && |old(stringCache)| < 8192 ==> addr in stringCache
      ensures r.Err? ==> stringCache == old(stringCache)
    {
      if addr in stringCache {
        return Ok(stringCache[addr]);
      }
      r := ReadZendString(mem, decode, addr);
      if r.Ok? && |stringCache| < MAX_CACHE {
        stringCache := stringCache[addr := r.value];
      }
    }

    /** Whatever the frame's outcome, it is the one seen through the cache at entry. */
    method ReadFrame(mem: Mem, ex: nat, layout: VersionLayout) returns (r: Result<(Frame, nat)>)
      requires Fits(layout)
      modifies this
      ensures r == FrameVia(mem, decode, old(stringCache), layout, ex)
      ensures CacheStep(mem, decode, old(stringCache), stringCache)
    {
      hide CacheStep, Lookup, ReadZendString, U64At, U32At, ReadU64, ReadU32, Add;
      ghost var c0 := stringCache;
      assert CacheStep(mem, decode, c0, c0) by { StepReflexive(mem, decode, c0); }
      var ex' := Read(mem, ex, EX_BUF);
      if ex'.Err? { return Err; }
      var oplinePtr := U64At(ex'.value, EX_OPLINE);
      var funcPtr := U64At(ex'.value, EX_FUNC);
      var prev := U64At(ex'.value, EX_PREV);
      var frame := Frame("<unknown>", None, None, 0);
      if funcPtr == 0 {
        return Ok((frame, prev));
      }
      var func := Read(mem, funcPtr, FUNC_BUF);
      if func.Err? { return Err; }
      var ftype := func.value[FUNC_TYPE];
      var namePtr := U64At(func.value, FUNC_NAME);
      var scopePtr := U64At(func.value, FUNC_SCOPE);
      if namePtr == 0 {
        frame := frame.(func := "{main}");
      } else {
        var name := ReadZstringCached(mem, namePtr);
        if name.Err? { return Err; }
        frame := frame.(func := name.value);
      }
      ghost var c1 := stringCache;
      if scopePtr != 0 {
        var classNamePtr := ReadU64(mem, Add(scopePtr, CE_NAME));
        if classNamePtr.Err? { return Err; }
        if classNamePtr.value != 0 {
          StepKeepsView(mem, decode, c0, c1, classNamePtr.value);
          var cls := ReadZstringCached(mem, classNamePtr.value);
          StepsCompose(mem, decode, c0, c1, stringCache);
          if cls.Err? { return Err; }
          frame := frame.(cls := Some(cls.value));
        }
      }
      ghost var c2 := stringCache;
      if ftype == TYPE_USER {
        var filePtr := U64At(func.value, layout.opArrayFilename);
        if filePtr != 0 {
          StepKeepsView(mem, decode, c0, c2, filePtr);
          var file := ReadZstringCached(mem, filePtr);
          StepsCompose(mem, decode, c0, c2, stringCache);
          if file.Err? { return Err; }
          frame := frame.(file := Some(file.value));
        }
        var line := 0;
        if oplinePtr != 0 {
          line := ReadU32(mem, Add(oplinePtr, OP_LINENO)).GetOr(0);
        }
        if line == 0 {
          line := U32At(func.value, layout.opArrayLineStart);
        }
        assert line == LineOf(mem, oplinePtr, U32At(func.value, layout.opArrayLineStart));
        frame := frame.(line := line);
      } else if ftype == TYPE_INTERNAL {
        frame := frame.(file := Some("<internal>"));
      }
      return Ok((frame, prev));
    }

    /** `Target::capture_stack`: the capture is the one seen through the cache at entry. */
    method CaptureStack(mem: Mem, eg: nat, layout: VersionLayout, maxDepth: nat) returns (r: Result<seq<Frame>>)
      requires Fits(layout)
      modifies this
      ensures r == CaptureVia(mem, decode, old(stringCache), layout, eg, maxDepth)
      ensures CacheStep(mem, decode, old(stringCache), stringCache)
    {
      hide FrameVia, WalkVia, CacheStep;
      ghost var c0 := stringCache;
      assert CacheStep(mem, decode, c0, c0) by { StepReflexive(mem, decode, c0); }
      var head := ReadU64(mem, Add(eg, layout.egCurrentExecuteData));
      if head.Err? { return Err; }
      var frames: seq<Frame> := [];
      var ex: nat := head.value;
      var depth: nat := 0;
      ghost var whole := WalkVia(mem, decode, c0, layout, ex, maxDepth);
      while ex != 0 && depth < maxDepth
        invariant depth <= maxDepth
        invariant CacheStep(mem, decode, c0, stringCache)
        invariant whole == frames + WalkVia(mem, decode, c0, layout, ex, maxDepth - depth)
        decreases maxDepth - depth
      {
        StepKeepsFrames(mem, decode, c0, stringCache, layout, ex);
        WalkOne(mem, decode, c0, layout, ex, maxDepth - depth);
        ghost var before := stringCache;
        var step := ReadFrame(mem, ex, layout);
        StepsCompose(mem, decode, c0, before, stringCache);
        if step.Err? {
          assert whole == frames;
          break;
        }
        frames := frames + [step.value.0];
        ex := step.value.1;
        depth := depth + 1;
      }
      assert whole == frames by {
        if ex == 0 || depth == maxDepth { WalkStops(mem, decode, c0, layout, ex, maxDepth - depth); }
      }
      return Ok(frames);
    }
  }
}
