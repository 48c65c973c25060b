/** One sampling step, and what a whole run of them puts into the profile. */
module Sampler {
  import opened Wrappers
  import opened Frames
  import opened Tally
  import opened Memory
  import W = StackWalker
  import L = CallStackLayout
  import T = PprofTables
  import B = PprofBuilder

  /** Empty stacks and dropped leaves are not written. */
  predicate Kept(frames: seq<Frame>, dropLeaf: seq<string>) {
    frames != [] && !LeafIsAny(frames, dropLeaf)
  }

  /** The single-PID sampler writing to the pprof sink. */
  class Sampler {
    const walker: W.StackWalker
    const builder: B.PprofBuilder
    const layout: W.VersionLayout
    const executorGlobals: nat
    const maxDepth: nat
    const dropLeaf: seq<string>

    constructor (decode: W.Decoder, now: int, layout: W.VersionLayout, executorGlobals: nat, maxDepth: nat,
                 dropLeaf: seq<string>)
      ensures walker.stringCache == map[] && walker.decode == decode && builder.State() == T.Fresh(now)
      ensures fresh(walker) && fresh(builder)
      ensures this.layout == layout && this.executorGlobals == executorGlobals
      ensures this.maxDepth == maxDepth && this.dropLeaf == dropLeaf
    {
      this.walker := new W.StackWalker(decode);
      this.builder := new B.PprofBuilder(now);
      this.layout, this.executorGlobals := layout, executorGlobals;
      this.maxDepth, this.dropLeaf := maxDepth, dropLeaf;
    }

    /**
     * `run` and the final `finish` over the memories as they are at each sample: when each of them either holds
     * some call stack, its cached strings being as they were, or cannot be read, the profile reads back as exactly
     * those stacks, and the unreadable samples are counted and skipped.
     */
    method Run(mems: seq<Mem>, end: int) returns (p: T.Profile, taken: nat, errors: nat, ghost caches: seq<W.Cache>)
      requires W.Fits(layout) && walker.stringCache == map[] && builder.IsEmpty() && builder.Valid()
      modifies walker, builder
      ensures W.IsRun(walker.decode, mems, caches)
      ensures taken + errors == |mems|
      ensures var captures := Captures(walker.decode, mems, caches, layout, executorGlobals, maxDepth);
              && errors == Failures(captures)
              && T.IsProfileOf(p, SampledAll(old(builder.State()), captures, dropLeaf), end)
      ensures forall stacks | Observed(walker.decode, mems, caches, layout, executorGlobals, stacks) ::
                && errors == Missing(stacks)
                && T.Read(p.dict, p.samples).Some?
                && multiset(Expand(T.Read(p.dict, p.samples).value)) ==
                multiset(T.RenderAll(ExpectedAll(walker.decode, stacks, maxDepth, dropLeaf)))
      ensures builder.Valid() && builder.IsEmpty()
    {
      hide W.CacheStep, W.CaptureVia, T.Inv, T.IsProfileOf, T.Add, T.Read, T.RenderStack, Sampled;
      hide Observed, ExpectedAll;
      ghost var b0 := builder.State();
      taken, errors, caches := 0, 0, [map[]];
      for i := 0 to |mems|
        invariant |caches| == i + 1 && caches[i] == walker.stringCache
        invariant W.IsRun(walker.decode, mems[..i], caches)
        invariant builder.Valid() && taken + errors == i
        invariant var captures := Captures(walker.decode, mems[..i], caches, layout, executorGlobals, maxDepth);
                  errors == Failures(captures) && builder.State() == SampledAll(b0, captures, dropLeaf)
      {
        ghost var before := caches;
        var r := SampleOnce(mems[i]);
        if r.Ok? { taken := taken + 1; } else { errors := errors + 1; }
        caches := caches + [walker.stringCache];
        RunSnoc(walker.decode, mems, before, i, walker.stringCache);
        CapturesSnoc(walker.decode, mems, before, i, walker.stringCache, layout, executorGlobals, maxDepth);
      }
      assert mems[..|mems|] == mems;
      ghost var b := builder.State();
      var from, until;
      p, from, until := builder.TakeProfile(end);
      forall stacks | Observed(walker.decode, mems, caches, layout, executorGlobals, stacks)
        ensures errors == Missing(stacks)
        ensures T.Read(p.dict, p.samples).Some?
        ensures multiset(Expand(T.Read(p.dict, p.samples).value)) ==
                multiset(T.RenderAll(ExpectedAll(walker.decode, stacks, maxDepth, dropLeaf)))
      {
        ProfileShowsProcess(walker.decode, mems, caches, layout, executorGlobals, stacks, maxDepth, dropLeaf, b0, end,
                            p);
      }
    }

    /** `sample_once` against the memory as it is at that moment. */
    method SampleOnce(mem: Mem) returns (r: Result<()>)
      requires W.Fits(layout) && builder.Valid()
      modifies walker, builder
      ensures builder.Valid()
      ensures W.CacheStep(mem, walker.decode, old(walker.stringCache), walker.stringCache)
      ensures var cache := old(walker.stringCache);
              var captured := W.CaptureVia(mem, walker.decode, cache, layout, executorGlobals, maxDepth);
              && (r.Ok? <==> captured.Ok?)
              && builder.State() == Sampled(old(builder.State()), captured, dropLeaf)
    {
      hide W.CacheStep, W.CaptureVia, T.Inv, T.Add, T.Means;
      var captured := walker.CaptureStack(mem, executorGlobals, layout, maxDepth);
      if captured.Err? {
        return Err;
      }
      var frames := captured.value;
      if frames == [] || LeafIsAny(frames, dropLeaf) {
        return Ok(());
      }
      builder.Add(frames);
      return Ok(());
    }
  }

  /** The builder after one capture. */
  function Sampled(b: T.Builder, captured: Result<seq<Frame>>, dropLeaf: seq<string>): T.Builder {
    if captured.Ok? && Kept(captured.value, dropLeaf) then T.Add(b, captured.value) else b
  }

  function SampledAll(b: T.Builder, captures: seq<Result<seq<Frame>>>, dropLeaf: seq<string>): T.Builder {
    if captures == [] then b
    else Sampled(SampledAll(b, captures[..|captures| - 1], dropLeaf), captures[|captures| - 1], dropLeaf)
  }

  /** How many captures failed. */
  function Failures(captures: seq<Result<seq<Frame>>>): nat {
    if captures == [] then 0
    else Failures(captures[..|captures| - 1]) + if captures[|captures| - 1].Err? then 1 else 0
  }

  /** The captures of a run, each through the cache its predecessors left. */
  function Captures(decode: W.Decoder, mems: seq<Mem>, caches: seq<W.Cache>, layout: W.VersionLayout, eg: nat,
                    maxDepth: nat): (r: seq<Result<seq<Frame>>>)
    requires W.Fits(layout) && |caches| == |mems| + 1
    ensures |r| == |mems|
    ensures forall i :: 0 <= i < |r| ==> r[i] == W.CaptureVia(mems[i], decode, caches[i], layout, eg, maxDepth)
  {
    seq(|mems|, i requires 0 <= i < |mems| => W.CaptureVia(mems[i], decode, caches[i], layout, eg, maxDepth))
  }

  /** The first `maxDepth` frames of a PHP stack as they should be shown. */
  function Expected(decode: W.Decoder, calls: seq<L.Call>, maxDepth: nat): seq<Frame> {
    L.ShownAll(decode, L.FirstOf(calls, maxDepth))
  }

  /** What each sample finds: a call stack, or nothing readable. */
  type Found = Option<seq<L.Call>>

  /** The stacks that should end up in the profile. */
  function ExpectedAll(decode: W.Decoder, stacks: seq<Found>, maxDepth: nat, dropLeaf: seq<string>): seq<seq<Frame>> {
    if stacks == [] then []
    else
      var n := |stacks| - 1;
      ExpectedAll(decode, stacks[..n], maxDepth, dropLeaf) + ExpectedOne(decode, stacks[n], maxDepth, dropLeaf)
  }

  function ExpectedOne(decode: W.Decoder, found: Found, maxDepth: nat, dropLeaf: seq<string>): seq<seq<Frame>> {
    if found.None? then []
    else
      var frames := Expected(decode, found.value, maxDepth);
      if frames != [] && !LeafIsAny(frames, dropLeaf) then [frames] else []
  }

  function Missing(stacks: seq<Found>): nat {
    if stacks == [] then 0 else Missing(stacks[..|stacks| - 1]) + if stacks[|stacks| - 1].None? then 1 else 0
  }

  /** The captures that samples finding these stacks should give. */
  ghost predicate Faithful(captures: seq<Result<seq<Frame>>>, decode: W.Decoder, stacks: seq<Found>, maxDepth: nat) {
    |captures| == |stacks| &&
    forall i :: 0 <= i < |captures| ==>
      captures[i] == if stacks[i].Some? then Ok(Expected(decode, stacks[i].value, maxDepth)) else Err
  }

  lemma {:induction false} SampledMeans(b: T.Builder, captures: seq<Result<seq<Frame>>>, decode: W.Decoder,
                                        stacks: seq<Found>, maxDepth: nat, dropLeaf: seq<string>)
    requires T.Inv(b) && T.Means(b, []) && Faithful(captures, decode, stacks, maxDepth)
    ensures T.Inv(SampledAll(b, captures, dropLeaf)) && Failures(captures) == Missing(stacks)
    ensures T.Means(SampledAll(b, captures, dropLeaf), T.RenderAll(ExpectedAll(decode, stacks, maxDepth, dropLeaf)))
  {
    hide T.Inv, T.Means, T.Add, Expected, LeafIsAny, T.RenderStack;
    if captures == [] {
      assert T.RenderAll([]) == [];
    } else {
      var n := |captures| - 1;
      SampledMeans(b, captures[..n], decode, stacks[..n], maxDepth, dropLeaf);
      var before := ExpectedAll(decode, stacks[..n], maxDepth, dropLeaf);
      assert before + [] == before;
      if stacks[n].Some? && Kept(Expected(decode, stacks[n].value, maxDepth), dropLeaf) {
        var frames := Expected(decode, stacks[n].value, maxDepth);
        T.AddMeans(SampledAll(b, captures[..n], dropLeaf), frames, T.RenderAll(before));
        assert T.RenderAll(before + [frames]) == T.RenderAll(before) + [T.RenderStack(frames)];
      }
    }
  }

  lemma RunSnoc(decode: W.Decoder, mems: seq<Mem>, caches: seq<W.Cache>, i: nat, next: W.Cache)
    requires i < |mems| && W.IsRun(decode, mems[..i], caches) && W.CacheStep(mems[i], decode, caches[i], next)
    ensures W.IsRun(decode, mems[..i + 1], caches + [next])
  {
    hide W.CacheStep;
    var caches' := caches + [next];
    forall k | 0 <= k < i + 1 ensures W.CacheStep(mems[..i + 1][k], decode, caches'[k], caches'[k + 1]) {
      if k < i { assert W.CacheStep(mems[..i][k], decode, caches[k], caches[k + 1]); }
    }
  }

  lemma CapturesSnoc(decode: W.Decoder, mems: seq<Mem>, caches: seq<W.Cache>, i: nat, next: W.Cache,
                     layout: W.VersionLayout, eg: nat, maxDepth: nat)
    requires W.Fits(layout) && i < |mems| && |caches| == i + 1
    ensures var captures := Captures(decode, mems[..i + 1], caches + [next], layout, eg, maxDepth);
            && captures[..i] == Captures(decode, mems[..i], caches, layout, eg, maxDepth)
            && captures[i] == W.CaptureVia(mems[i], decode, caches[i], layout, eg, maxDepth)
  {
    hide W.CaptureVia;
  }

  /**
   * At each sample memory holds this call stack and the strings cached so far read as they did when they were
   * cached, or the head of the call stack is unreadable.
   */
  ghost predicate Observed(decode: W.Decoder, mems: seq<Mem>, caches: seq<W.Cache>, layout: W.VersionLayout, eg: nat,
                           stacks: seq<Found>)
    requires W.Fits(layout)
  {
    |stacks| == |mems| &&
    forall i :: 0 <= i < |mems| ==>
      match stacks[i]
      case Some(calls) => L.StackHeld(mems[i], layout, eg, calls) && W.StringsKept(decode, mems, caches, i)
      case None => ReadU64(mems[i], Add(eg, layout.egCurrentExecuteData)).Err?
  }

  /**
   * End to end: start from any empty builder and sample a process whose memory, at each readable sample, holds some
   * PHP call stack byte by byte and cached strings as they were. Then whatever order the samples drain in, the
   * profile taken at the end reads back as exactly the multiset of those stacks, each cut at `maxDepth`, less the
   * empty and dropped ones.
   */
  lemma ProfileShowsProcess(decode: W.Decoder, mems: seq<Mem>, caches: seq<W.Cache>, layout: W.VersionLayout, eg: nat,
                            stacks: seq<Found>, maxDepth: nat, dropLeaf: seq<string>, b: T.Builder, end: int,
                            p: T.Profile)
    requires W.Fits(layout) && W.IsRun(decode, mems, caches) && Observed(decode, mems, caches, layout, eg, stacks)
    requires T.Inv(b) && b.samples == map[]
    requires T.IsProfileOf(p, SampledAll(b, Captures(decode, mems, caches, layout, eg, maxDepth), dropLeaf), end)
    ensures Failures(Captures(decode, mems, caches, layout, eg, maxDepth)) == Missing(stacks)
    ensures T.Read(p.dict, p.samples).Some?
    ensures multiset(Expand(T.Read(p.dict, p.samples).value)) ==
            multiset(T.RenderAll(ExpectedAll(decode, stacks, maxDepth, dropLeaf)))
  {
    assert T.Means(b, []);
    hide T.Inv, T.Means, T.Read, T.IsProfileOf, W.StringsKept, W.Coherent, L.StackHeld, SampledAll, ExpectedAll;
    var captures := Captures(decode, mems, caches, layout, eg, maxDepth);
    forall i | 0 <= i < |mems|
      ensures captures[i] == if stacks[i].Some? then Ok(Expected(decode, stacks[i].value, maxDepth)) else Err
    {
      if stacks[i].Some? {
        W.ReachableCachesAreCoherent(decode, mems, caches, i);
        L.CaptureReadsBack(mems[i], decode, caches[i], layout, eg, stacks[i].value, maxDepth);
      }
    }
    SampledMeans(b, captures, decode, stacks, maxDepth, dropLeaf);
    T.ProfileMeans(p, SampledAll(b, captures, dropLeaf), end,
                   T.RenderAll(ExpectedAll(decode, stacks, maxDepth, dropLeaf)));
  }
}
