/** A process running one PHP function, word by word in memory, and what a stale cache makes of it. */
module SmallProcess {
  import opened Wrappers
  import opened Frames
  import opened Memory
  import opened MemoryImage
  import opened StackWalker
  import opened CallStackLayout

  /**
   * The executor globals at 0 point to a call at 512, and that to a user function at 576 whose first line
   * is 7. The function is nameless, or its one-byte name is at 768.
   */
  function WordAt(name: Option<byte>, i: nat): u64 {
    if i == 61 then 512
    else if i == 67 then 576
    else if i == 72 then TYPE_USER
    else if i == 73 && name.Some? then 768
    else if i == 91 then 7
    else if i == 98 then 1
    else if i == 99 then name.GetOr(0)
    else 0
  }

  function Words(name: Option<byte>): (words: seq<u64>)
    ensures |words| == 100 && forall i :: 0 <= i < 100 ==> words[i] == WordAt(name, i)
  {
    seq(100, i requires 0 <= i < 100 => WordAt(name, i))
  }

  function Process(name: Option<byte>): Mem {
    Image(Words(name))
  }

  function NameOf(name: Option<byte>): Option<Str> {
    if name.Some? then Some(Str(768, [name.value])) else None
  }

  function FunctionOf(name: Option<byte>): Func {
    Func(576, TYPE_USER, NameOf(name), None, None, 7)
  }

  function CallOf(name: Option<byte>): Call {
    Call(512, None, Some(FunctionOf(name)))
  }

  lemma FieldIn(name: Option<byte>, i: nat, v: u64)
    requires i < 100 && WordAt(name, i) == v
    ensures Holds64(Process(name), 8 * i, v)
    ensures v < 0x1_0000_0000 ==> Holds32(Process(name), 8 * i, v)
  {
    hide Holds64, Holds32, Image;
    WordHeld(Words(name), i);
  }

  lemma NameHeld(name: Option<byte>)
    ensures StrHeld(Process(name), NameOf(name))
  {
    if name.Some? {
      assert LeBytes(name.value, 1) == [name.value];
      hide LeBytes, Holds, Image;
      FieldIn(name, 98, 1);
      BytesHeld(Words(name), 99, 1);
    }
  }

  lemma FunctionHeld(name: Option<byte>)
    ensures FuncHeld(Process(name), LAYOUT_8_3, FunctionOf(name))
  {
    BytesHeld(Words(name), 72, 1);
    assert LeBytes(TYPE_USER, 1) == [TYPE_USER];
    AllReadable(Words(name), 576, FUNC_BUF);
    hide LeBytes, Holds, StrHeld, Image, Readable, WordAt;
    NameHeld(name);
    NamePointer(name);
    FieldIn(name, 73, StrPtr(NameOf(name)));
    ZeroIn(name, 74);
    ZeroIn(name, 90);
    LineIn(name);
  }

  lemma NamePointer(name: Option<byte>)
    ensures WordAt(name, 73) == StrPtr(NameOf(name))
  {
  }

  lemma ZeroIn(name: Option<byte>, i: nat)
    requires i in {64, 70, 74, 90}
    ensures Holds64(Process(name), 8 * i, 0)
  {
    hide Holds64, Holds32, Process;
    FieldIn(name, i, 0);
  }

  lemma LineIn(name: Option<byte>)
    ensures Holds32(Process(name), 728, 7)
  {
    hide Holds64, Holds32, Process;
    FieldIn(name, 91, 7);
  }

  lemma StackOf(name: Option<byte>)
    ensures StackHeld(Process(name), LAYOUT_8_3, 0, [CallOf(name)])
  {
    AllReadable(Words(name), 512, EX_BUF);
    hide Holds64, FuncHeld, Image, Readable;
    FunctionHeld(name);
    FieldIn(name, 61, 512);
    FieldIn(name, 67, 576);
    ZeroIn(name, 64);
    ZeroIn(name, 70);
    var calls := [CallOf(name)];
    assert calls[1..] == [] && CallsHeld(Process(name), LAYOUT_8_3, calls[1..]);
    assert CallHeld(Process(name), LAYOUT_8_3, calls[0], 0);
  }

  function FrameOf(func: string): Frame {
    Frame(func, None, None, 7)
  }

  lemma CaptureOf(decode: Decoder, cache: Cache, name: Option<byte>)
    ensures CaptureVia(Process(name), decode, cache, LAYOUT_8_3, 0, 64) ==
            Ok([FrameOf(TextVia(decode, cache, NameOf(name)).GetOr("{main}"))])
  {
    assert TextVia(decode, cache, None) == None;
    hide Process, StackHeld, CaptureVia, TextVia, CallsHeld, Text, NameOf;
    StackOf(name);
    var calls := [CallOf(name)];
    CaptureSees(Process(name), decode, cache, LAYOUT_8_3, 0, calls, 64);
    assert FirstOf(calls, 64) == calls;
    assert SeenAll(decode, cache, calls) == [Seen(decode, cache, CallOf(name))];
  }

  /** Laid-out stacks exist: this one is captured as its one frame, named or as top-level code. */
  lemma ScriptIsCaptured(decode: Decoder, name: Option<byte>)
    ensures StackHeld(Process(name), LAYOUT_8_3, 0, [CallOf(name)])
    ensures CaptureVia(Process(name), decode, map[], LAYOUT_8_3, 0, 64) ==
            Ok([FrameOf(if name.Some? then decode([name.value]) else "{main}")])
  {
    hide Process, StackHeld, CaptureVia;
    StackOf(name);
    CaptureOf(decode, map[], name);
  }

  /**
   * The stability of cached strings is needed: when the bytes at a cached address change between two captures,
   * the second one shows the first one's name, and the uncached walk the new one.
   */
  lemma ReusedAddressShowsOldName(decode: Decoder, before: byte, after: byte)
    requires decode([before]) != decode([after])
    ensures var mems := [Process(Some(before)), Process(Some(after))];
            var cache: Cache := map[768 := decode([before])];
            var caches: seq<Cache> := [map[], cache, cache];
            && IsRun(decode, mems, caches) && !StringsKept(decode, mems, caches, 1)
            && CaptureVia(mems[1], decode, cache, LAYOUT_8_3, 0, 64) == Ok([FrameOf(decode([before]))])
            && CaptureVia(mems[1], decode, map[], LAYOUT_8_3, 0, 64) == Ok([FrameOf(decode([after]))])
  {
    hide Process, CaptureVia, StrHeld, ReadZendString;
    var cache: Cache := map[768 := decode([before])];
    NameHeld(Some(before));
    NameHeld(Some(after));
    StrRead(Process(Some(before)), decode, Str(768, [before]));
    StrRead(Process(Some(after)), decode, Str(768, [after]));
    CaptureOf(decode, cache, Some(after));
    CaptureOf(decode, map[], Some(after));
    var mems := [Process(Some(before)), Process(Some(after))];
    var caches: seq<Cache> := [map[], cache, cache];
    assert CacheStep(mems[0], decode, caches[0], caches[1]);
    assert CacheStep(mems[1], decode, caches[1], caches[2]);
    assert CachedBy(caches, 0, 768);
    assert ReadZendString(mems[1], decode, 768) != ReadZendString(mems[0], decode, 768);
  }
}
