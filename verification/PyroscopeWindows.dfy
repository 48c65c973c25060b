/** Pyroscope push windows: every written stack ends up in exactly one window or is still live. */
module PyroscopeWindows {
  import opened Wrappers
  import opened Frames
  import opened Tally
  import T = PprofTables
  import B = PprofBuilder

  /** One written stack with the wall-clock time of its write. */
  datatype Stamp = Stamp(time: int, frames: seq<Frame>)

  /** A window that was taken: the tables it emptied, when it ended, and whether its POST succeeded. */
  datatype Window = Window(tables: T.Builder, end: int, delivered: bool, stamps: seq<Stamp>)

  /** `windows` and `live` record the history; the rest are the sink's fields. */
  datatype Sink = Sink(builder: T.Builder, lastPush: int, windows: seq<Window>, live: seq<Stamp>)

  /**
   * One call on the sink with every clock reading and the POST outcome left arbitrary. `time` and `wall`
   * are wall-clock readings, `mono` and `after` monotonic ones.
   */
  datatype Event =
    | Write(frames: seq<Frame>, time: int, mono: int, wall: int, after: int, posted: bool)
    | Finish(wall: int, after: int, posted: bool)

  // ----- The sink's transitions -----

  function Create(start: int, mono: int): Sink {
    Sink(T.Fresh(start), mono, [], [])
  }

  function AfterPush(s: Sink, wall: int, after: int, posted: bool): Sink {
    if s.builder.samples == map[] then s.(lastPush := after)
    else Sink(T.Fresh(wall), after, s.windows + [Window(s.builder, wall, posted, s.live)], [])
  }

  /** `last_push.elapsed() >= push_interval`; an elapsed time is never negative. */
  predicate Due(lastPush: int, mono: int, interval: nat) {
    (if mono >= lastPush then mono - lastPush else 0) >= interval
  }

  function Step(s: Sink, interval: nat, e: Event): Sink {
    match e
    case Write(frames, time, mono, wall, after, posted) =>
      var s1 := s.(builder := T.Add(s.builder, frames), live := s.live + [Stamp(time, frames)]);
      if Due(s.lastPush, mono, interval) then AfterPush(s1, wall, after, posted) else s1
    case Finish(wall, after, posted) => AfterPush(s, wall, after, posted)
  }

  function Run(s: Sink, interval: nat, events: seq<Event>): Sink {
    if events == [] then s
    else Step(Run(s, interval, events[..|events| - 1]), interval, events[|events| - 1])
  }

  // ----- When a window is pushed -----

  /**
   * A write pushes exactly if at least the push interval has passed on the monotonic clock since the last push;
   * a clock behind the last push counts as no time. A push takes everything, this write included, and the next
   * interval starts at the reading after it; without one the stack stays live.
   */
  lemma WritePushesIffDue(s: Sink, interval: nat, e: Event)
    requires e.Write?
    ensures var s', elapsed := Step(s, interval, e), if e.mono >= s.lastPush then e.mono - s.lastPush else 0;
            var grown := s.live + [Stamp(e.time, e.frames)];
            if elapsed < interval
            then s'.live == grown && s'.windows == s.windows && s'.lastPush == s.lastPush
            else
              && s'.live == [] && s'.lastPush == e.after && |s'.windows| == |s.windows| + 1
              && s'.windows[..|s.windows|] == s.windows
              && var w := s'.windows[|s.windows|];
              w.stamps == grown && w.end == e.wall && w.delivered == e.posted
  {
    hide T.Inv, T.Means, T.LocateAll;
    var (b1, ids) := T.LocateAll(s.builder, e.frames);
    assert ids in T.Add(s.builder, e.frames).samples;
  }

  /** Finishing pushes whatever is live, due or not. */
  lemma FinishPushesRest(start: int, s: Sink, interval: nat, e: Event)
    requires e.Finish? && SinkInv(start, s)
    ensures var s' := Step(s, interval, e);
            && s'.live == [] && s'.lastPush == e.after
            && (s.live == [] ==> s'.windows == s.windows)
            && (s.live != [] ==>
                  && |s'.windows| == |s.windows| + 1 && s'.windows[..|s.windows|] == s.windows
                  && var w := s'.windows[|s.windows|];
                  w.stamps == s.live && w.end == e.wall && w.delivered == e.posted)
  {
    hide T.Inv, T.Means, T.RenderStack;
    T.EmptyMeansNothing(s.builder, T.RenderAll(FramesOf(s.live)));
  }

  // ----- What a run must conserve -----

  function FramesOf(stamps: seq<Stamp>): (r: seq<seq<Frame>>)
    ensures |r| == |stamps|
  {
    seq(|stamps|, i requires 0 <= i < |stamps| => stamps[i].frames)
  }

  function Written(events: seq<Event>): seq<Stamp> {
    if events == [] then []
    else
      var e := events[|events| - 1];
      Written(events[..|events| - 1]) + if e.Write? then [Stamp(e.time, e.frames)] else []
  }

  function Windowed(windows: seq<Window>): seq<Stamp> {
    if windows == [] then [] else Windowed(windows[..|windows| - 1]) + windows[|windows| - 1].stamps
  }

  function StartOf(start: int, windows: seq<Window>, i: nat): int
    requires i <= |windows|
  {
    if i == 0 then start else windows[i - 1].end
  }

  ghost predicate TablesMean(tables: T.Builder, stamps: seq<Stamp>) {
    T.Inv(tables) && T.Means(tables, T.RenderAll(FramesOf(stamps)))
  }

  ghost predicate WindowOk(start: int, windows: seq<Window>, i: nat)
    requires i < |windows|
  {
    && TablesMean(windows[i].tables, windows[i].stamps)
    && windows[i].stamps != []
    && windows[i].tables.windowStart == StartOf(start, windows, i)
  }

  ghost predicate SinkInv(start: int, s: Sink) {
    && TablesMean(s.builder, s.live)
    && (forall i :: 0 <= i < |s.windows| ==> WindowOk(start, s.windows, i))
    && s.builder.windowStart == StartOf(start, s.windows, |s.windows|)
  }

  // ----- Every step conserves it -----

  lemma CreateInv(start: int, mono: int)
    ensures SinkInv(start, Create(start, mono))
  {
    T.FreshMeansNothing(start);
  }

  lemma AddInv(start: int, s: Sink, stamp: Stamp)
    requires SinkInv(start, s)
    ensures SinkInv(start, s.(builder := T.Add(s.builder, stamp.frames), live := s.live + [stamp]))
  {
    hide T.Inv, T.Means, T.Add, T.RenderStack, WindowOk;
    T.AddMeans(s.builder, stamp.frames, T.RenderAll(FramesOf(s.live)));
    assert T.RenderAll(FramesOf(s.live + [stamp])) ==
           T.RenderAll(FramesOf(s.live)) + [T.RenderStack(stamp.frames)];
  }

  lemma PushInv(start: int, s: Sink, wall: int, after: int, posted: bool)
    requires SinkInv(start, s)
    ensures var s' := AfterPush(s, wall, after, posted);
            && SinkInv(start, s')
            && Windowed(s'.windows) + s'.live == Windowed(s.windows) + s.live
            && s'.live == [] && s'.builder.samples == map[]
  {
    hide T.Inv, T.Means;
    T.EmptyMeansNothing(s.builder, T.RenderAll(FramesOf(s.live)));
    T.FreshMeansNothing(wall);
    var s' := AfterPush(s, wall, after, posted);
    if s'.windows != s.windows {
      var n := |s.windows|;
      assert s'.windows[..n] == s.windows;
      forall i | 0 <= i < |s'.windows| ensures WindowOk(start, s'.windows, i) {
        if i < n { assert WindowOk(start, s.windows, i); }
      }
      assert T.RenderAll(FramesOf([])) == [];
    }
  }

  lemma StepInv(start: int, s: Sink, interval: nat, e: Event)
    requires SinkInv(start, s)
    ensures var s' := Step(s, interval, e);
            && SinkInv(start, s')
            && Windowed(s'.windows) + s'.live ==
               Windowed(s.windows) + s.live + (if e.Write? then [Stamp(e.time, e.frames)] else [])
            && (e.Finish? ==> s'.live == [] && s'.builder.samples == map[])
  {
    hide SinkInv;
    match e
    case Write(frames, time, mono, wall, after, posted) =>
      var stamp := Stamp(time, frames);
      AddInv(start, s, stamp);
      var s1 := s.(builder := T.Add(s.builder, frames), live := s.live + [stamp]);
      assert Windowed(s.windows) + s1.live == Windowed(s.windows) + s.live + [stamp];
      if Due(s.lastPush, mono, interval) { PushInv(start, s1, wall, after, posted); }
    case Finish(wall, after, posted) =>
      PushInv(start, s, wall, after, posted);
  }

  /**
   * Window partition: after any run of writes, due pushes, failed or successful POSTs and finishes, the
   * windows taken so far followed by the live stacks are exactly the written stacks in order, so each
   * stack lies in one window or is live, never two. Windows are non-empty and abut, and any profile
   * emitted for a window reads back as exactly that window's stacks.
   */
  lemma {:induction false} WindowsPartitionRun(start: int, mono: int, interval: nat, events: seq<Event>)
    ensures var s := Run(Create(start, mono), interval, events);
            && SinkInv(start, s)
            && Windowed(s.windows) + s.live == Written(events)
            && (events != [] && events[|events| - 1].Finish? ==> s.live == [] && s.builder.samples == map[])
  {
    hide SinkInv;
    if events == [] {
      CreateInv(start, mono);
    } else {
      var rest, e := events[..|events| - 1], events[|events| - 1];
      WindowsPartitionRun(start, mono, interval, rest);
      StepInv(start, Run(Create(start, mono), interval, rest), interval, e);
    }
  }

  /** What the server is sent for a window is that window's stacks, no more and no fewer. */
  lemma WindowProfileMeans(start: int, s: Sink, i: nat, p: T.Profile)
    requires SinkInv(start, s) && i < |s.windows|
    requires T.IsProfileOf(p, s.windows[i].tables, s.windows[i].end)
    ensures var from, until := StartOf(start, s.windows, i), s.windows[i].end;
            p.timeNanos == from && p.durationNanos == if until <= from then 0 else until - from
    ensures T.Read(p.dict, p.samples).Some?
    ensures multiset(Expand(T.Read(p.dict, p.samples).value)) ==
            multiset(T.RenderAll(FramesOf(s.windows[i].stamps)))
  {
    hide T.Inv, T.Means, T.Read;
    var w := s.windows[i];
    assert WindowOk(start, s.windows, i);
    T.ProfileMeans(p, w.tables, w.end, T.RenderAll(FramesOf(w.stamps)));
  }

  // ----- Sample times -----

  /** The first wall-clock reading of a call. */
  function Entered(e: Event): int {
    if e.Write? then e.time else e.wall
  }

  /** The wall clock never steps back across the run that ends at reading `now`. */
  ghost predicate NonDecreasing(start: int, events: seq<Event>, now: int) {
    if events == [] then start <= now
    else
      var e := events[|events| - 1];
      Entered(e) <= e.wall <= now && NonDecreasing(start, events[..|events| - 1], Entered(e))
  }

  ghost predicate Within(stamps: seq<Stamp>, from: int, until: int) {
    from <= until && forall stamp :: stamp in stamps ==> from <= stamp.time <= until
  }

  ghost predicate TimesOk(start: int, s: Sink, now: int) {
    && (forall i :: 0 <= i < |s.windows| ==>
          Within(s.windows[i].stamps, StartOf(start, s.windows, i), s.windows[i].end))
    && Within(s.live, StartOf(start, s.windows, |s.windows|), now)
  }

  lemma PushTimes(start: int, s: Sink, wall: int, after: int, posted: bool)
    requires SinkInv(start, s) && TimesOk(start, s, wall)
    ensures TimesOk(start, AfterPush(s, wall, after, posted), wall)
  {
    hide TablesMean;
    var s' := AfterPush(s, wall, after, posted);
    forall i | 0 <= i < |s'.windows|
      ensures Within(s'.windows[i].stamps, StartOf(start, s'.windows, i), s'.windows[i].end)
    {
      if i < |s.windows| {
        assert Within(s.windows[i].stamps, StartOf(start, s.windows, i), s.windows[i].end);
      }
    }
  }

  lemma StepTimes(start: int, s: Sink, interval: nat, e: Event)
    requires SinkInv(start, s) && TimesOk(start, s, Entered(e)) && Entered(e) <= e.wall
    ensures TimesOk(start, Step(s, interval, e), e.wall)
  {
    hide SinkInv, T.Add;
    match e
    case Write(frames, time, mono, wall, after, posted) =>
      var s1 := s.(builder := T.Add(s.builder, frames), live := s.live + [Stamp(time, frames)]);
      AddInv(start, s, Stamp(time, frames));
      assert TimesOk(start, s1, wall);
      if Due(s.lastPush, mono, interval) { PushTimes(start, s1, wall, after, posted); }
    case Finish(wall, after, posted) =>
      PushTimes(start, s, wall, after, posted);
  }

  /** Under a non-decreasing wall clock every stack was written between its window's start and end. */
  lemma {:induction false} SamplesLieInTheirWindow(start: int, mono: int, interval: nat, events: seq<Event>, now: int)
    requires NonDecreasing(start, events, now)
    ensures TimesOk(start, Run(Create(start, mono), interval, events), now)
  {
    hide SinkInv, Step;
    if events != [] {
      var rest, e := events[..|events| - 1], events[|events| - 1];
      WindowsPartitionRun(start, mono, interval, rest);
      SamplesLieInTheirWindow(start, mono, interval, rest, Entered(e));
      StepTimes(start, Run(Create(start, mono), interval, rest), interval, e);
    }
  }

  // ----- The sink object -----

  /** The sink of `pyroscope_sink.rs`; `windows` and `live` are the history kept for the proof. */
  class PyroscopeSink {
    const builder: B.PprofBuilder
    const pushInterval: nat
    var lastPush: int
    ghost var windows: seq<Window>
    ghost var live: seq<Stamp>

    ghost function State(): Sink
      reads this, builder
    {
      Sink(builder.State(), lastPush, windows, live)
    }

    constructor (now: int, mono: int, interval: nat)
      ensures windows == [] && live == [] && lastPush == mono && builder.State() == T.Fresh(now)
      ensures State() == Create(now, mono) && builder.Valid() && pushInterval == interval && fresh(builder)
    {
      builder := new B.PprofBuilder(now);
      pushInterval := interval;
      lastPush := mono;
      windows, live := [], [];
    }

    /** Take the window and POST it; the POST's outcome is `posted`. The profile sent is one the window may emit. */
    method TryPush(now: int, posted: bool) returns (r: Result<()>, p: T.Profile, from: int, until: int)
      requires builder.Valid()
      modifies this`windows, this`live, builder
      ensures builder.Valid()
      ensures windows == old(windows) + [Window(old(builder.State()), now, posted, old(live))]
      ensures live == [] && builder.State() == T.Fresh(now)
      ensures T.IsProfileOf(p, old(builder.State()), now)
      ensures from == old(builder.windowStartNanos) && until == now
      ensures r.Ok? <==> posted
    {
      ghost var tables := builder.State();
      p, from, until := builder.TakeProfile(now);
      windows, live := windows + [Window(tables, now, posted, live)], [];
      r := if posted then Ok(()) else Err;
    }

    /** A failed POST is swallowed: the state moves on exactly as after a successful one. */
    method Push(now: int, after: int, posted: bool)
      requires builder.Valid()
      modifies this, builder
      ensures builder.Valid()
      ensures State() == AfterPush(old(State()), now, after, posted)
    {
      if builder.IsEmpty() {
        lastPush := after;
        return;
      }
      var _, _, _, _ := TryPush(now, posted);
      lastPush := after;
    }

    method WriteSample(frames: seq<Frame>, time: int, mono: int, wall: int, after: int, posted: bool)
      requires builder.Valid()
      modifies this, builder
      ensures builder.Valid()
      ensures var elapsed := if mono >= old(lastPush) then mono - old(lastPush) else 0;
              if elapsed < pushInterval
              then live == old(live) + [Stamp(time, frames)] && windows == old(windows) && lastPush == old(lastPush)
              else live == [] && |windows| == |old(windows)| + 1 && lastPush == after
      ensures State() == Step(old(State()), pushInterval, Write(frames, time, mono, wall, after, posted))
    {
      builder.Add(frames);
      live := live + [Stamp(time, frames)];
      var elapsed := if mono >= lastPush then mono - lastPush else 0;
      if elapsed >= pushInterval {
        Push(wall, after, posted);
      }
    }

    method FinishSink(wall: int, after: int, posted: bool)
      requires builder.Valid()
      modifies this, builder
      ensures builder.Valid()
      ensures State() == Step(old(State()), pushInterval, Finish(wall, after, posted))
    {
      Push(wall, after, posted);
    }
  }
}
