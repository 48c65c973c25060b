/**
 * The multi-PID runner as a transition system: the main thread spawning, reaping and draining, worker
 * threads sending, and one channel between them. A worker is a pid and a generation: the n-th one
 * spawned for that pid.
 */
module MultiRunner {
  import opened Wrappers
  import opened Frames
  import FoldedText

  datatype Worker = Worker(pid: nat, gen: nat)

  datatype Msg = Msg(from: Worker, frames: seq<Frame>, uri: Option<string>)

  /** What the sink is handed. */
  datatype Sample = Sample(frames: seq<Frame>, uri: Option<string>)

  datatype Phase = Running | Draining | Joining | Done

  /**
   * `workers` are the handles the main thread holds, `live` the threads still running, `busy` those of them
   * inside an iteration (past the check of their stop flag), `stopped` those told to stop, `spawned` how many
   * workers each pid has had. `sent` and `drainedAt` record history: every message in send order, and how
   * many were received before teardown.
   */
  datatype State = State(
    phase: Phase,
    workers: map<nat, Worker>,
    live: set<Worker>,
    busy: set<Worker>,
    stopped: set<Worker>,
    spawned: map<nat, nat>,
    mainSender: bool,
    queue: seq<Msg>,
    received: seq<Msg>,
    written: seq<Sample>,
    taken: nat,
    sent: seq<Msg>,
    drainedAt: nat)

  datatype Action =
    | Spawn(pid: nat)
    | Reap(pid: nat)
    | Check(w: Worker)
    | Skip(w: Worker)
    | Send(w: Worker, frames: seq<Frame>, uri: Option<string>)
    | Exit(w: Worker)
    | Recv
    | Disconnected
    | Teardown
    | DrainRecv
    | DrainTimeout
    | DrainDisconnected
    | Join(pid: nat)
    | End

  const INIT := State(Running, map[], {}, {}, {}, map[], true, [], [], [], 0, [], 0)

  function Spawned(s: State, pid: nat): nat {
    if pid in s.spawned then s.spawned[pid] else 0
  }

  /** `[pid N] uri`. */
  function Annotate(m: Msg): Sample {
    Sample(m.frames, if m.uri.Some? then Some("[pid " + FoldedText.Decimal(m.from.pid) + "] " + m.uri.value) else None)
  }

  function Plain(m: Msg): Sample {
    Sample(m.frames, m.uri)
  }

  /** No sender is left: the main thread dropped its own and every worker is gone. */
  predicate SendersGone(s: State) {
    !s.mainSender && s.live == {}
  }

  function Take(s: State, sample: Sample): State
    requires s.queue != []
  {
    s.(queue := s.queue[1..], received := s.received + [s.queue[0]],
       written := s.written + [sample], taken := s.taken + 1)
  }

  /** The next state, if the action can happen. */
  function Next(s: State, a: Action): Option<State> {
    match a
    case Spawn(pid) =>
      // Initial discovery and rediscovery: only pids without a handle get a worker, and attaching may fail.
      if s.phase.Running? && pid !in s.workers then
        var w := Worker(pid, Spawned(s, pid));
        Some(s.(workers := s.workers[pid := w], live := s.live + {w}, spawned := s.spawned[pid := w.gen + 1]))
      else None
    case Reap(pid) =>
      if s.phase.Running? && pid in s.workers && s.workers[pid] !in s.live then Some(s.(workers := s.workers - {pid}))
      else None
    case Check(w) =>
      // The head of a worker's loop: a stopped worker leaves, any other starts an iteration.
      if w !in s.live || w in s.busy then None
      else if w in s.stopped then Some(s.(live := s.live - {w}))
      else Some(s.(busy := s.busy + {w}))
    case Skip(w) =>
      // A failed capture, an empty stack or a dropped leaf: on to the next iteration.
      if w in s.busy then Some(s.(busy := s.busy - {w})) else None
    case Send(w, frames, uri) =>
      // An iteration ends with its one send, of a non-empty stack. The receiver lives until the runner returns.
      if w in s.busy && frames != [] then
        var m := Msg(w, frames, uri);
        Some(s.(queue := s.queue + [m], sent := s.sent + [m], busy := s.busy - {w}))
      else None
    case Exit(w) =>
      // The process is gone.
      if w in s.busy then Some(s.(live := s.live - {w}, busy := s.busy - {w})) else None
    case Recv => if s.phase.Running? && s.queue != [] then Some(Take(s, Annotate(s.queue[0]))) else None
    case Disconnected =>
      if s.phase.Running? && s.queue == [] && SendersGone(s) then Some(Tear(s)) else None
    case Teardown => if s.phase.Running? then Some(Tear(s)) else None
    case DrainRecv => if s.phase.Draining? && s.queue != [] then Some(Take(s, Plain(s.queue[0]))) else None
    case DrainTimeout =>
      if s.phase.Draining? && s.queue == [] then Some(s.(phase := Joining)) else None
    case DrainDisconnected =>
      if s.phase.Draining? && s.queue == [] && SendersGone(s) then Some(s.(phase := Joining)) else None
    case Join(pid) =>
      if s.phase.Joining? && pid in s.workers && s.workers[pid] !in s.live then Some(s.(workers := s.workers - {pid}))
      else None
    case End => if s.phase.Joining? && s.workers == map[] then Some(s.(phase := Done)) else None
  }

  /**
   * Leave the main loop: signal every worker held, drop the main sender, start draining. A worker that sees
   * its flag before the last one is signalled is one that exits just before.
   */
  function Tear(s: State): State {
    s.(phase := Draining, stopped := s.workers.Values, mainSender := false, drainedAt := s.taken)
  }

  function Run(actions: seq<Action>): Option<State> {
    if actions == [] then Some(INIT)
    else
      var s :- Run(actions[..|actions| - 1]);
      Next(s, actions[|actions| - 1])
  }

  // ----- Invariants -----

  /** The newest worker of a pid is the only one that can be held or live, and a live one is held. */
  ghost predicate WorkersInv(s: State) {
    && (forall pid :: pid in s.workers ==> s.workers[pid].pid == pid && s.workers[pid].gen + 1 == Spawned(s, pid))
    && (forall w :: w in s.live ==> w.pid in s.workers && s.workers[w.pid] == w)
    && s.busy <= s.live
    && (forall m :: m in s.sent ==> m.from.gen < Spawned(s, m.from.pid))
  }

  ghost predicate PhaseInv(s: State) {
    && (s.mainSender <==> s.phase.Running?)
    && (if s.phase.Running? then s.stopped == {} else s.live <= s.stopped)
    && (s.phase.Done? ==> s.workers == map[])
  }

  ghost predicate ChannelInv(s: State) {
    && s.sent == s.received + s.queue
    && s.taken == |s.received| == |s.written|
    && (if s.phase.Running? then s.drainedAt == 0 else s.drainedAt <= s.taken)
    && (forall i :: 0 <= i < |s.written| ==>
          s.written[i] == if s.phase.Running? || i < s.drainedAt then Annotate(s.received[i]) else Plain(s.received[i]))
  }

  ghost predicate Inv(s: State) {
    WorkersInv(s) && PhaseInv(s) && ChannelInv(s)
  }

  lemma SpawnWorkers(s: State, pid: nat)
    requires WorkersInv(s) && Next(s, Spawn(pid)).Some?
    ensures WorkersInv(Next(s, Spawn(pid)).value)
  {
  }

  lemma SendWorkers(s: State, w: Worker, frames: seq<Frame>, uri: Option<string>)
    requires WorkersInv(s) && Next(s, Send(w, frames, uri)).Some?
    ensures WorkersInv(Next(s, Send(w, frames, uri)).value)
  {
  }

  /** Dropping the handle of a finished worker. */
  lemma DropWorkers(s: State, pid: nat)
    requires WorkersInv(s) && pid in s.workers && s.workers[pid] !in s.live
    ensures WorkersInv(s.(workers := s.workers - {pid}))
  {
  }

  /** A worker moving on or leaving. */
  lemma MoveWorkers(s: State, s': State)
    requires WorkersInv(s) && s' == s.(live := s'.live, busy := s'.busy) && s'.live <= s.live && s'.busy <= s'.live
    ensures WorkersInv(s')
  {
  }

  lemma KeepWorkers(s: State, s': State)
    requires WorkersInv(s)
    requires s'.workers == s.workers && s'.live == s.live && s'.busy == s.busy
    requires s'.spawned == s.spawned && s'.sent == s.sent
    ensures WorkersInv(s')
  {
  }

  lemma BusyAreLive(s: State)
    requires WorkersInv(s)
    ensures s.busy <= s.live
  {
  }

  lemma StepWorkers(s: State, a: Action)
    requires WorkersInv(s) && Next(s, a).Some?
    ensures WorkersInv(Next(s, a).value)
  {
    hide WorkersInv, Annotate, Plain, SendersGone;
    var s' := Next(s, a).value;
    BusyAreLive(s);
    match a
    case Spawn(pid) => SpawnWorkers(s, pid);
    case Send(w, frames, uri) => SendWorkers(s, w, frames, uri);
    case Reap(pid) => DropWorkers(s, pid);
    case Join(pid) => DropWorkers(s, pid);
    case Check(_) => MoveWorkers(s, s');
    case Skip(_) => MoveWorkers(s, s');
    case Exit(_) => MoveWorkers(s, s');
    case _ => KeepWorkers(s, s');
  }

  lemma StepPhase(s: State, a: Action)
    requires WorkersInv(s) && PhaseInv(s) && Next(s, a).Some?
    ensures PhaseInv(Next(s, a).value)
  {
    hide Annotate;
    match a
    case Teardown => HeldAreStopped(s);
    case Disconnected => HeldAreStopped(s);
    case _ =>
  }

  /** Signalling the held workers signals every live one. */
  lemma HeldAreStopped(s: State)
    requires WorkersInv(s)
    ensures s.live <= s.workers.Values
  {
    forall w | w in s.live ensures w in s.workers.Values {
      assert s.workers[w.pid] == w;
    }
  }

  lemma TakeChannel(s: State, sample: Sample)
    requires ChannelInv(s) && s.queue != []
    requires sample == if s.phase.Running? then Annotate(s.queue[0]) else Plain(s.queue[0])
    ensures ChannelInv(Take(s, sample))
  {
    hide Annotate, Plain;
    assert s.queue == [s.queue[0]] + s.queue[1..];
  }

  lemma SendChannel(s: State, w: Worker, frames: seq<Frame>, uri: Option<string>)
    requires ChannelInv(s) && Next(s, Send(w, frames, uri)).Some?
    ensures ChannelInv(Next(s, Send(w, frames, uri)).value)
  {
    hide Annotate, Plain;
  }

  lemma TearChannel(s: State)
    requires ChannelInv(s) && s.phase.Running?
    ensures ChannelInv(Tear(s))
  {
    hide Annotate, Plain;
  }

  lemma KeepChannel(s: State, s': State)
    requires ChannelInv(s) && s.phase.Running? == s'.phase.Running?
    requires s' == s.(phase := s'.phase, workers := s'.workers, live := s'.live, busy := s'.busy, spawned := s'.spawned)
    ensures ChannelInv(s')
  {
    hide Annotate, Plain;
  }

  lemma StepChannel(s: State, a: Action)
    requires ChannelInv(s) && Next(s, a).Some?
    ensures ChannelInv(Next(s, a).value)
  {
    hide ChannelInv, Annotate, Plain, Take, Tear, SendersGone;
    match a
    case Recv => TakeChannel(s, Annotate(s.queue[0]));
    case DrainRecv => TakeChannel(s, Plain(s.queue[0]));
    case Send(w, frames, uri) => SendChannel(s, w, frames, uri);
    case Teardown => TearChannel(s);
    case Disconnected => TearChannel(s);
    case _ => KeepChannel(s, Next(s, a).value);
  }

  lemma {:induction false} RunInv(actions: seq<Action>)
    requires Run(actions).Some?
    ensures Inv(Run(actions).value)
  {
    hide Next, WorkersInv, PhaseInv, ChannelInv;
    if actions == [] {
      InitInv();
    } else {
      var rest, a := actions[..|actions| - 1], actions[|actions| - 1];
      RunInv(rest);
      var s := Run(rest).value;
      StepWorkers(s, a);
      StepPhase(s, a);
      StepChannel(s, a);
    }
  }

  lemma InitInv()
    ensures Inv(INIT)
  {
  }

  // ----- Safety over whole runs -----

  /** At most one live worker per pid, and no thread outlives the runner. */
  lemma OneLiveWorkerPerPid(actions: seq<Action>, v: Worker, w: Worker)
    requires Run(actions).Some?
    requires v in Run(actions).value.live && w in Run(actions).value.live && v.pid == w.pid
    ensures v == w && !Run(actions).value.phase.Done?
  {
    RunInv(actions);
  }

  /** `taken` counts the messages received, and nothing is lost or reordered on the channel. */
  lemma NothingLostOnChannel(actions: seq<Action>)
    requires Run(actions).Some?
    ensures var s := Run(actions).value;
            && s.sent == s.received + s.queue
            && s.taken == |s.received| == |s.written|
            && (forall i :: 0 <= i < |s.written| ==> s.written[i].frames == s.sent[i].frames)
  {
    hide Next;
    RunInv(actions);
    var s := Run(actions).value;
    forall i | 0 <= i < |s.written| ensures s.written[i].frames == s.sent[i].frames {
      assert s.received[i] == s.sent[i];
    }
  }

  /** The main loop's disconnect branch is dead: the main thread holds a sender until teardown. */
  lemma MainNeverDisconnects(actions: seq<Action>)
    ensures Run(actions + [Disconnected]).None?
  {
    hide Next;
    assert (actions + [Disconnected])[..|actions|] == actions;
    if Run(actions).Some? {
      RunInv(actions);
      RunningHasSender(Run(actions).value);
    }
  }

  lemma RunningHasSender(s: State)
    requires Inv(s)
    ensures Next(s, Disconnected).None?
  {
  }

  /**
   * The pid annotation is applied to exactly the samples received before teardown: those drained
   * afterwards reach the sink without it.
   */
  lemma DrainedSamplesAreNotAnnotated(actions: seq<Action>, i: nat)
    requires Run(actions).Some? && i < |Run(actions).value.written|
    ensures var s := Run(actions).value;
            && i < |s.sent|
            && s.written[i] == if s.phase.Running? || i < s.drainedAt then Annotate(s.sent[i]) else Plain(s.sent[i])
  {
    hide Next, Annotate, Plain;
    RunInv(actions);
    var s := Run(actions).value;
    assert s.received[i] == s.sent[i];
  }

  // ----- Each pid's successive workers -----

  function Of(msgs: seq<Msg>, pid: nat): seq<Msg> {
    if msgs == [] then []
    else
      var n := |msgs| - 1;
      Of(msgs[..n], pid) + if msgs[n].from.pid == pid then [msgs[n]] else []
  }

  function OfWorker(msgs: seq<Msg>, w: Worker): seq<Msg> {
    if msgs == [] then []
    else
      var n := |msgs| - 1;
      OfWorker(msgs[..n], w) + if msgs[n].from == w then [msgs[n]] else []
  }

  /** What the first `gens` workers of a pid sent, worker after worker. */
  function BySuccession(msgs: seq<Msg>, pid: nat, gens: nat): seq<Msg> {
    if gens == 0 then [] else BySuccession(msgs, pid, gens - 1) + OfWorker(msgs, Worker(pid, gens - 1))
  }

  lemma {:induction false} OfPrefix(a: seq<Msg>, b: seq<Msg>, pid: nat)
    ensures Of(a, pid) <= Of(a + b, pid)
  {
    if b == [] {
      assert a + b == a;
    } else {
      assert (a + b)[..|a + b| - 1] == a + b[..|b| - 1];
      OfPrefix(a, b[..|b| - 1], pid);
    }
  }

  lemma {:induction false} NothingFromFuture(msgs: seq<Msg>, w: Worker)
    requires forall m :: m in msgs ==> m.from != w
    ensures OfWorker(msgs, w) == []
  {
    if msgs != [] { NothingFromFuture(msgs[..|msgs| - 1], w); }
  }

  /** A message from the newest worker extends the succession at its end; from another pid, not at all. */
  lemma {:induction false} SuccessionSnoc(msgs: seq<Msg>, m: Msg, pid: nat, gens: nat)
    requires m.from.pid == pid ==> m.from.gen + 1 >= gens
    ensures BySuccession(msgs + [m], pid, gens) ==
            BySuccession(msgs, pid, gens) + if m.from.pid == pid && m.from.gen + 1 == gens then [m] else []
  {
    assert (msgs + [m])[..|msgs|] == msgs;
    if gens > 0 { SuccessionSnoc(msgs, m, pid, gens - 1); }
  }

  ghost predicate InSuccession(s: State, pid: nat) {
    Of(s.sent, pid) == BySuccession(s.sent, pid, Spawned(s, pid))
  }

  lemma StepSuccession(s: State, a: Action, pid: nat)
    requires Inv(s) && Next(s, a).Some? && InSuccession(s, pid)
    ensures InSuccession(Next(s, a).value, pid)
  {
    hide BySuccession, Of, OfWorker, Annotate, Plain;
    if a.Send? {
      var m := Msg(a.w, a.frames, a.uri);
      OfSnoc(s.sent, m, pid);
      SuccessionSnoc(s.sent, m, pid, Spawned(s, pid));
    } else if a.Spawn? && a.pid == pid {
      NothingFromFuture(s.sent, Worker(pid, Spawned(s, pid)));
      SuccessionOpens(s.sent, pid, Spawned(s, pid));
    }
  }

  lemma OfSnoc(msgs: seq<Msg>, m: Msg, pid: nat)
    ensures Of(msgs + [m], pid) == Of(msgs, pid) + if m.from.pid == pid then [m] else []
  {
    assert (msgs + [m])[..|msgs|] == msgs;
  }

  lemma SuccessionOpens(msgs: seq<Msg>, pid: nat, gens: nat)
    requires OfWorker(msgs, Worker(pid, gens)) == []
    ensures BySuccession(msgs, pid, gens + 1) == BySuccession(msgs, pid, gens)
  {
  }

  lemma {:induction false} RunSuccession(actions: seq<Action>, pid: nat)
    requires Run(actions).Some?
    ensures InSuccession(Run(actions).value, pid)
  {
    hide Next, Inv;
    if actions == [] {
      assert InSuccession(INIT, pid);
    } else {
      hide InSuccession;
      var rest, a := actions[..|actions| - 1], actions[|actions| - 1];
      RunSuccession(rest, pid);
      RunInv(rest);
      StepSuccession(Run(rest).value, a, pid);
    }
  }

  /**
   * For every pid the messages received are a prefix of what its successive workers sent, one worker
   * after the other in order, across reaping and respawning.
   */
  lemma ReceivedIsPrefixOfSuccession(actions: seq<Action>, pid: nat)
    requires Run(actions).Some?
    ensures var s := Run(actions).value;
            Of(s.received, pid) <= BySuccession(s.sent, pid, Spawned(s, pid))
  {
    hide Next;
    RunInv(actions);
    RunSuccession(actions, pid);
    var s := Run(actions).value;
    OfPrefix(s.received, s.queue, pid);
  }

  // ----- Drain completeness -----

  /** The drain loop ends: no message for 100 ms, or no sender left. */
  predicate EndsDrain(a: Action) {
    a.DrainTimeout? || a.DrainDisconnected?
  }

  lemma {:induction false} RunPrefix(actions: seq<Action>, more: seq<Action>)
    requires Run(actions + more).Some?
    ensures Run(actions).Some?
  {
    hide Next;
    if more == [] {
      assert actions + more == actions;
    } else {
      assert (actions + more)[..|actions + more| - 1] == actions + more[..|more| - 1];
      RunPrefix(actions, more[..|more| - 1]);
    }
  }

  /** Once the main loop is left, only the workers of `b` are inside an iteration, and no other starts one. */
  ghost predicate BusyWithin(s: State, b: set<Worker>) {
    !s.phase.Running? && s.live <= s.stopped && s.busy <= b
  }

  lemma BusyStaysWithin(s: State, a: Action, b: set<Worker>)
    requires BusyWithin(s, b) && s.busy <= s.live && Next(s, a).Some?
    ensures BusyWithin(Next(s, a).value, b)
  {
  }

  lemma {:induction false} AfterTeardown(before: seq<Action>, after: seq<Action>)
    requires Run(before + [Teardown] + after).Some?
    ensures Run(before).Some? && BusyWithin(Run(before + [Teardown] + after).value, Run(before).value.busy)
  {
    hide Next, BusyWithin;
    var actions := before + [Teardown] + after;
    if after == [] {
      assert actions[..|actions| - 1] == before && actions[|actions| - 1] == Teardown;
      RunInv(before);
      TeardownStops(Run(before).value);
    } else {
      var rest := before + [Teardown] + after[..|after| - 1];
      assert actions[..|actions| - 1] == rest;
      AfterTeardown(before, after[..|after| - 1]);
      RunInv(rest);
      assert Run(rest).value.busy <= Run(rest).value.live;
      BusyStaysWithin(Run(rest).value, after[|after| - 1], Run(before).value.busy);
    }
  }

  lemma TeardownStops(s: State)
    requires Inv(s) && Next(s, Teardown).Some?
    ensures BusyWithin(Next(s, Teardown).value, s.busy)
  {
    HeldAreStopped(s);
  }

  /** After the drain what is lost is one message each of some workers of `b` that are no longer busy. */
  ghost predicate LostFrom(s: State, b: set<Worker>) {
    && (s.phase.Joining? || s.phase.Done?) && BusyWithin(s, b)
    && (forall i :: 0 <= i < |s.queue| ==> s.queue[i].from in b && s.queue[i].from !in s.busy)
    && (forall i, j :: 0 <= i < j < |s.queue| ==> s.queue[i].from != s.queue[j].from)
  }

  lemma LostStays(s: State, a: Action, b: set<Worker>)
    requires LostFrom(s, b) && s.busy <= s.live && Next(s, a).Some?
    ensures LostFrom(Next(s, a).value, b)
  {
  }

  lemma {:induction false} AfterDrain(before: seq<Action>, end: Action, after: seq<Action>)
    requires EndsDrain(end) && Run(before + [end] + after).Some?
    ensures Run(before).Some? && LostFrom(Run(before + [end] + after).value, Run(before).value.busy)
  {
    hide Next, LostFrom, EndsDrain;
    var actions := before + [end] + after;
    if after == [] {
      assert actions[..|actions| - 1] == before && actions[|actions| - 1] == end;
      RunInv(before);
      DrainEnds(Run(before).value, end);
    } else {
      var rest := before + [end] + after[..|after| - 1];
      assert actions[..|actions| - 1] == rest;
      AfterDrain(before, end, after[..|after| - 1]);
      RunInv(rest);
      assert Run(rest).value.busy <= Run(rest).value.live;
      LostStays(Run(rest).value, after[|after| - 1], Run(before).value.busy);
    }
  }

  lemma DrainEnds(s: State, end: Action)
    requires Inv(s) && EndsDrain(end) && Next(s, end).Some?
    ensures LostFrom(Next(s, end).value, s.busy)
  {
  }

  /**
   * Drain completeness: if the drain loop ends because every sender is gone, then from there on every
   * message any worker ever sent has been handed to the sink exactly once, in order.
   */
  lemma DisconnectMeansComplete(before: seq<Action>, after: seq<Action>)
    requires Run(before + [DrainDisconnected] + after).Some?
    ensures var s := Run(before + [DrainDisconnected] + after).value;
            && s.received == s.sent && |s.written| == |s.sent|
            && forall i :: 0 <= i < |s.sent| ==> s.written[i].frames == s.sent[i].frames
  {
    hide Next;
    var actions := before + [DrainDisconnected] + after;
    AfterDrain(before, DrainDisconnected, after);
    NothingLostOnChannel(actions);
    assert Run(before).value.busy == {} by {
      RunPrefix(before + [DrainDisconnected], after);
      assert (before + [DrainDisconnected])[..|before|] == before;
      RunInv(before);
      DisconnectedIsIdle(Run(before).value);
    }
    DistinctFit(Run(actions).value.queue, {});
  }

  lemma DisconnectedIsIdle(s: State)
    requires Inv(s) && Next(s, DrainDisconnected).Some?
    ensures s.busy == {}
  {
  }

  /**
   * Ended by its timeout, the drain is complete on every continuation if and only if no worker was inside an
   * iteration at that moment; in particular it is if no worker was live.
   */
  lemma TimeoutIsCompleteIffIdle(before: seq<Action>)
    requires Run(before + [DrainTimeout]).Some?
    ensures Run(before).Some?
    ensures (forall after :: CompleteAfter(before + [DrainTimeout], after)) <==> Run(before).value.busy == {}
    ensures Run(before).value.live == {} ==> Run(before).value.busy == {}
  {
    hide Next;
    var ended := before + [DrainTimeout];
    assert ended[..|before|] == before;
    RunInv(before);
    var b := Run(before).value.busy;
    if b == {} {
      forall after ensures CompleteAfter(ended, after) {
        if Run(ended + after).Some? {
          AfterDrain(before, DrainTimeout, after);
          NothingLostOnChannel(ended + after);
          DistinctFit(Run(ended + after).value.queue, b);
        }
      }
    } else {
      var w :| w in b;
      var late := Send(w, [Frame("f", None, None, 1)], None);
      TimeoutThenSend(Run(before).value, late);
      var more := RunSnoc(ended, Run(ended).value, late);
      RunInv(more);
      assert !CompleteAfter(ended, [late]);
    }
  }

  /** If the run can continue like this, everything sent has then been received. */
  ghost predicate CompleteAfter(actions: seq<Action>, after: seq<Action>) {
    Run(actions + after).Some? ==> Run(actions + after).value.received == Run(actions + after).value.sent
  }

  lemma TimeoutThenSend(s: State, late: Action)
    requires Next(s, DrainTimeout).Some? && late.Send? && late.w in s.busy && late.frames != []
    ensures var s' := Next(Next(s, DrainTimeout).value, late);
            s'.Some? && s'.value.queue != []
  {
  }

  /**
   * Whatever is lost, at most one sample per worker is: the messages never received come from different workers,
   * all of which were inside an iteration both when the main loop was left and when the drain ended.
   */
  lemma LossIsOnePerWorker(before: seq<Action>, draining: seq<Action>, end: Action, after: seq<Action>)
    requires EndsDrain(end) && Run(before + [Teardown] + draining + [end] + after).Some?
    ensures Run(before).Some? && Run(before + [Teardown] + draining).Some?
    ensures var s := Run(before + [Teardown] + draining + [end] + after).value;
            var (torn, drained) := (Run(before).value, Run(before + [Teardown] + draining).value);
            && s.sent == s.received + s.queue
            && (forall i :: 0 <= i < |s.queue| ==> s.queue[i].from in torn.busy && s.queue[i].from in drained.busy)
            && (forall i, j :: 0 <= i < j < |s.queue| ==> s.queue[i].from != s.queue[j].from)
            && |s.queue| <= |drained.busy| <= |torn.busy| <= |torn.live|
  {
    hide Next;
    var drained := before + [Teardown] + draining;
    AfterDrain(drained, end, after);
    AfterTeardown(before, draining);
    RunInv(before);
    NothingLostOnChannel(drained + [end] + after);
    DistinctFit(Run(drained + [end] + after).value.queue, Run(drained).value.busy);
    SubsetSize(Run(drained).value.busy, Run(before).value.busy);
    SubsetSize(Run(before).value.busy, Run(before).value.live);
  }

  lemma {:induction false} DistinctFit(msgs: seq<Msg>, b: set<Worker>)
    requires forall i :: 0 <= i < |msgs| ==> msgs[i].from in b
    requires forall i, j :: 0 <= i < j < |msgs| ==> msgs[i].from != msgs[j].from
    ensures |msgs| <= |b|
  {
    if msgs != [] {
      var n := |msgs| - 1;
      DistinctFit(msgs[..n], b - {msgs[n].from});
    }
  }

  lemma {:induction false} SubsetSize<T>(a: set<T>, b: set<T>)
    requires a <= b
    ensures |a| <= |b|
  {
    if a != {} {
      var x :| x in a;
      SubsetSize(a - {x}, b - {x});
    }
  }

  lemma DrainTimesOut(w: Worker) returns (actions: seq<Action>, s: State)
    requires w == Worker(7, 0)
    ensures actions == [Spawn(7), Check(w), Teardown, DrainTimeout] && Run(actions) == Some(s)
    ensures s.phase.Joining? && s.workers == map[7 := w] && s.live == s.busy == s.stopped == {w}
    ensures s.queue == [] && s.sent == [] && s.written == []
  {
    var s1 := Next(INIT, Spawn(7)).value;
    var s2 := Next(s1, Check(w)).value;
    var s3 := Next(s2, Teardown).value;
    s := Next(s3, DrainTimeout).value;
    assert Run([]) == Some(INIT);
    hide Next, Run;
    var a1 := RunSnoc([], INIT, Spawn(7));
    var a2 := RunSnoc(a1, s1, Check(w));
    var a3 := RunSnoc(a2, s2, Teardown);
    actions := RunSnoc(a3, s3, DrainTimeout);
  }

  lemma LateSend(w: Worker, s: State, frames: seq<Frame>) returns (ends: State)
    requires s.phase.Joining? && s.workers == map[w.pid := w] && s.live == s.busy == s.stopped == {w}
    requires frames != []
    ensures var s1 := Next(s, Send(w, frames, None));
            && s1.Some?
            && var s2 := Next(s1.value, Check(w));
            && s2.Some?
            && var s3 := Next(s2.value, Join(w.pid));
            && s3.Some? && Next(s3.value, End) == Some(ends)
    ensures ends.phase == Done && ends.sent == s.sent + [Msg(w, frames, None)] && ends.written == s.written
  {
    var s1 := Next(s, Send(w, frames, None)).value;
    var s2 := Next(s1, Check(w)).value;
    var s3 := Next(s2, Join(w.pid)).value;
    assert s3.workers == map[];
    ends := Next(s3, End).value;
  }

  /** The runner does lose such a sample: here a worker is slow between its check of the flag and its send. */
  lemma TimeoutCanLose(frames: seq<Frame>)
    requires frames != []
    ensures var w := Worker(7, 0);
            var r := Run([Spawn(7), Check(w), Teardown, DrainTimeout, Send(w, frames, None), Check(w), Join(7), End]);
            r.Some? && r.value.phase == Done && r.value.sent == [Msg(w, frames, None)] && r.value.written == []
  {
    hide Next, Run;
    var w := Worker(7, 0);
    var a4, s4 := DrainTimesOut(w);
    var ends := LateSend(w, s4, frames);
    var s5 := Next(s4, Send(w, frames, None)).value;
    var s6 := Next(s5, Check(w)).value;
    var s7 := Next(s6, Join(7)).value;
    var a5 := RunSnoc(a4, s4, Send(w, frames, None));
    var a6 := RunSnoc(a5, s5, Check(w));
    var a7 := RunSnoc(a6, s6, Join(7));
    var a8 := RunSnoc(a7, s7, End);
    assert a8 == [Spawn(7), Check(w), Teardown, DrainTimeout, Send(w, frames, None), Check(w), Join(7), End];
  }

  lemma RunSnoc(actions: seq<Action>, s: State, a: Action) returns (more: seq<Action>)
    requires Run(actions) == Some(s)
    ensures more == actions + [a] && Run(more) == Next(s, a)
  {
    more := actions + [a];
    assert more[..|actions|] == actions;
  }

  // ----- When every sample carries its pid -----

  /** Annotating changes exactly the samples that have a URI. */
  lemma AnnotationShows(m: Msg)
    ensures Annotate(m) == Plain(m) <==> m.uri.None?
  {
    if m.uri.Some? { assert |Annotate(m).uri.value| > |m.uri.value|; }
  }

  ghost predicate AllAnnotated(s: State) {
    |s.written| == |s.received| && forall i :: 0 <= i < |s.written| ==> s.written[i] == Annotate(s.received[i])
  }

  /** If the run can continue like this, every sample handed on is annotated. */
  ghost predicate AnnotatedAfter(actions: seq<Action>, after: seq<Action>) {
    Run(actions + after).Some? ==> AllAnnotated(Run(actions + after).value)
  }

  /** Draining with nobody left to send and no URI left to annotate. */
  ghost predicate Quiet(s: State) {
    BusyWithin(s, {}) && AllAnnotated(s) && forall m :: m in s.queue ==> m.uri.None?
  }

  lemma TakeQuiet(s: State)
    requires Quiet(s) && s.queue != []
    ensures Quiet(Take(s, Plain(s.queue[0])))
  {
    hide Annotate, Plain;
    AnnotationShows(s.queue[0]);
  }

  lemma QuietStays(s: State, a: Action)
    requires Quiet(s) && s.busy <= s.live && Next(s, a).Some?
    ensures Quiet(Next(s, a).value)
  {
    hide Annotate, Plain, Take;
    if a.DrainRecv? { TakeQuiet(s); }
  }

  lemma {:induction false} QuietAfter(actions: seq<Action>, after: seq<Action>)
    requires Run(actions).Some? && Quiet(Run(actions).value) && Run(actions + after).Some?
    ensures Quiet(Run(actions + after).value)
  {
    hide Next, Quiet;
    if after == [] {
      assert actions + after == actions;
    } else {
      var rest := actions + after[..|after| - 1];
      assert (actions + after)[..|actions + after| - 1] == rest;
      QuietAfter(actions, after[..|after| - 1]);
      RunInv(rest);
      assert Run(rest).value.busy <= Run(rest).value.live;
      QuietStays(Run(rest).value, after[|after| - 1]);
    }
  }

  /** Draining up to a queued message with a URI hands that one on without its pid. */
  lemma {:induction false} DrainShowsPlain(actions: seq<Action>, s: State, k: nat) returns (after: seq<Action>)
    requires Run(actions) == Some(s) && s.phase.Draining? && |s.written| == |s.received|
    requires k < |s.queue| && s.queue[k].uri.Some?
    ensures !AnnotatedAfter(actions, after)
    decreases k
  {
    hide Annotate, Plain, Run;
    var s' := Next(s, DrainRecv).value;
    var more := RunSnoc(actions, s, DrainRecv);
    if k == 0 {
      after := [DrainRecv];
      AnnotationShows(s.queue[0]);
      assert s'.written[|s.written|] != Annotate(s'.received[|s.written|]);
    } else {
      var rest := DrainShowsPlain(more, s', k - 1);
      after := [DrainRecv] + rest;
      assert actions + after == more + rest;
    }
  }

  /** A worker still inside an iteration can send a URI into the drain. */
  lemma LateShowsPlain(actions: seq<Action>, s: State, w: Worker) returns (after: seq<Action>)
    requires Run(actions) == Some(s) && s.phase.Draining? && |s.written| == |s.received| && w in s.busy
    ensures !AnnotatedAfter(actions, after)
  {
    hide Annotate, Plain, Run;
    var late := Send(w, [Frame("f", None, None, 1)], Some("/"));
    var s' := Next(s, late).value;
    var more := RunSnoc(actions, s, late);
    var rest := DrainShowsPlain(more, s', |s.queue|);
    after := [late] + rest;
    assert actions + after == more + rest;
  }

  /**
   * At teardown: from then on every sample is handed on with its pid, on every continuation, if and only if no
   * worker is inside an iteration and no message with a URI is queued.
   */
  lemma AnnotatedIffQuiet(before: seq<Action>)
    requires Run(before + [Teardown]).Some?
    ensures Run(before).Some?
    ensures (forall after :: AnnotatedAfter(before + [Teardown], after)) <==>
            Run(before).value.busy == {} && forall m :: m in Run(before).value.queue ==> m.uri.None?
  {
    hide Next, Quiet, AllAnnotated;
    var torn := before + [Teardown];
    assert torn[..|before|] == before;
    RunInv(before);
    RunInv(torn);
    var s, t := Run(before).value, Run(torn).value;
    TeardownKeeps(s);
    if s.busy != {} {
      var w :| w in s.busy;
      var after := LateShowsPlain(torn, t, w);
    } else if k :| 0 <= k < |s.queue| && s.queue[k].uri.Some? {
      var after := DrainShowsPlain(torn, t, k);
    } else {
      TeardownQuiet(s);
      forall after ensures AnnotatedAfter(torn, after) {
        if Run(torn + after).Some? {
          QuietAfter(torn, after);
          QuietAnnotates(Run(torn + after).value);
        }
      }
    }
  }

  lemma TeardownKeeps(s: State)
    requires Next(s, Teardown).Some?
    ensures var t := Next(s, Teardown).value; t.phase.Draining? && t.busy == s.busy && t.queue == s.queue
  {
  }

  lemma TeardownQuiet(s: State)
    requires Inv(s) && Next(s, Teardown).Some? && s.busy == {}
    requires forall k :: 0 <= k < |s.queue| ==> s.queue[k].uri.None?
    ensures Quiet(Next(s, Teardown).value)
  {
    hide Annotate, Plain;
    HeldAreStopped(s);
  }

  lemma QuietAnnotates(s: State)
    requires Quiet(s)
    ensures AllAnnotated(s)
  {
  }

  lemma AnnotatedByHand(frames: seq<Frame>)
    ensures Annotate(Msg(Worker(7, 0), frames, Some("/"))) == Sample(frames, Some("[pid 7] /"))
  {
    assert FoldedText.Decimal(7) == "7";
    assert "[pid " + "7" + "] " + "/" == "[pid 7] /";
  }

  lemma QueuedAtTeardown(w: Worker, frames: seq<Frame>) returns (actions: seq<Action>, s: State)
    requires w == Worker(7, 0) && frames != []
    ensures actions == [Spawn(7), Check(w), Send(w, frames, Some("/")), Teardown] && Run(actions) == Some(s)
    ensures s.phase.Draining? && s.queue == [Msg(w, frames, Some("/"))] && s.received == [] && s.written == []
  {
    var s1 := Next(INIT, Spawn(7)).value;
    var s2 := Next(s1, Check(w)).value;
    var s3 := Next(s2, Send(w, frames, Some("/"))).value;
    s := Next(s3, Teardown).value;
    assert Run([]) == Some(INIT);
    hide Next, Run;
    var a1 := RunSnoc([], INIT, Spawn(7));
    var a2 := RunSnoc(a1, s1, Check(w));
    var a3 := RunSnoc(a2, s2, Send(w, frames, Some("/")));
    actions := RunSnoc(a3, s3, Teardown);
  }

  /** A run that hands on a sample without its pid: it was still queued at teardown. */
  lemma DrainedCanLackPid(frames: seq<Frame>)
    requires frames != []
    ensures var w := Worker(7, 0);
            var r := Run([Spawn(7), Check(w), Send(w, frames, Some("/")), Teardown, DrainRecv]);
            && r.Some? && r.value.received == [Msg(w, frames, Some("/"))]
            && r.value.written == [Sample(frames, Some("/"))]
            && Annotate(r.value.received[0]) == Sample(frames, Some("[pid 7] /"))
  {
    hide Run, Annotate;
    var w := Worker(7, 0);
    var a4, s4 := QueuedAtTeardown(w, frames);
    AnnotatedByHand(frames);
    var a5 := RunSnoc(a4, s4, DrainRecv);
    assert a5 == [Spawn(7), Check(w), Send(w, frames, Some("/")), Teardown, DrainRecv];
  }

  // ----- What can happen, and what it does -----

  /** A live worker that is neither inside an iteration nor told to stop can take and send a sample. */
  lemma WorkerSends(before: seq<Action>, w: Worker, frames: seq<Frame>, uri: Option<string>)
    requires Run(before).Some? && frames != []
    requires var s := Run(before).value; w in s.live && w !in s.busy && w !in s.stopped
    ensures var s, r := Run(before).value, Run(before + [Check(w)] + [Send(w, frames, uri)]);
            r == Some(s.(queue := s.queue + [Msg(w, frames, uri)], sent := s.sent + [Msg(w, frames, uri)]))
  {
    var s := Run(before).value;
    var s1 := Next(s, Check(w)).value;
    assert s.busy + {w} - {w} == s.busy;
    hide Run;
    var a1 := RunSnoc(before, s, Check(w));
    var a2 := RunSnoc(a1, s1, Send(w, frames, uri));
  }

  /** Or it can end the iteration without a sample, as if nothing had happened. */
  lemma WorkerSkips(before: seq<Action>, w: Worker)
    requires Run(before).Some?
    requires var s := Run(before).value; w in s.live && w !in s.busy && w !in s.stopped
    ensures Run(before + [Check(w)] + [Skip(w)]) == Run(before)
  {
    var s := Run(before).value;
    var s1 := Next(s, Check(w)).value;
    assert s.busy + {w} - {w} == s.busy;
    hide Run;
    var a1 := RunSnoc(before, s, Check(w));
    var a2 := RunSnoc(a1, s1, Skip(w));
  }

  /** The main loop hands the oldest queued message on, with its pid before its URI. */
  lemma RecvHandsOn(before: seq<Action>)
    requires Run(before).Some? && Run(before).value.phase.Running? && Run(before).value.queue != []
    ensures var s, r := Run(before).value, Run(before + [Recv]);
            && r.Some?
            && var m := s.queue[0];
            && var uri := if m.uri.None? then None
                          else Some("[pid " + FoldedText.Decimal(m.from.pid) + "] " + m.uri.value);
            && r.value.queue == s.queue[1..] && r.value.received == s.received + [m]
            && r.value.written == s.written + [Sample(m.frames, uri)] && r.value.taken == s.taken + 1
  {
    var more := RunSnoc(before, Run(before).value, Recv);
  }

  /** A pid whose worker's thread has ended is reaped, and gets a worker of the next generation if discovered again. */
  lemma ReapedIsRespawned(before: seq<Action>, pid: nat)
    requires Run(before).Some?
    requires var s := Run(before).value; s.phase.Running? && pid in s.workers && s.workers[pid] !in s.live
    ensures var s, r := Run(before).value, Run(before + [Reap(pid)] + [Spawn(pid)]);
            && r.Some?
            && var w := Worker(pid, s.workers[pid].gen + 1);
            && r.value.workers == s.workers[pid := w] && r.value.live == s.live + {w} && w !in s.live
            && r.value.busy == s.busy && r.value.stopped == s.stopped == {} && r.value.phase.Running?
            && r.value.queue == s.queue && r.value.sent == s.sent
            && r.value.received == s.received && r.value.written == s.written
  {
    RunInv(before);
    var s := Run(before).value;
    var s1 := Next(s, Reap(pid)).value;
    var w := Worker(pid, Spawned(s, pid));
    assert Next(s1, Spawn(pid)).Some?;
    assert (s.workers - {pid})[pid := w] == s.workers[pid := w];
    assert forall v :: v in s.live ==> s.workers[v.pid] == v;
    hide Run, Next;
    var a1 := RunSnoc(before, s, Reap(pid));
    var a2 := RunSnoc(a1, s1, Spawn(pid));
  }

  /** A pid without a worker gets one when discovered. */
  lemma DiscoveredIsSpawned(before: seq<Action>, pid: nat)
    requires Run(before).Some? && Run(before).value.phase.Running? && pid !in Run(before).value.workers
    ensures var s, r := Run(before).value, Run(before + [Spawn(pid)]);
            && r.Some?
            && exists w: Worker :: w.pid == pid && w !in s.live && r.value.live == s.live + {w} &&
                                   r.value.workers == s.workers[pid := w]
  {
    RunInv(before);
    var s := Run(before).value;
    var w := Worker(pid, Spawned(s, pid));
    assert w !in s.live;
    hide Run;
    var more := RunSnoc(before, s, Spawn(pid));
  }

  /** A worker whose process is gone leaves its loop. */
  lemma WorkerExits(before: seq<Action>, w: Worker)
    requires Run(before).Some?
    requires var s := Run(before).value; w in s.live && w !in s.busy && w !in s.stopped
    ensures var s := Run(before).value;
            Run(before + [Check(w)] + [Exit(w)]) == Some(s.(live := s.live - {w}))
  {
    var s := Run(before).value;
    var s1 := Next(s, Check(w)).value;
    assert s.busy + {w} - {w} == s.busy;
    hide Run;
    var a1 := RunSnoc(before, s, Check(w));
    var a2 := RunSnoc(a1, s1, Exit(w));
  }

  lemma FirstGeneration(v: Worker, first: seq<Frame>) returns (actions: seq<Action>, s: State)
    requires v == Worker(7, 0) && first != []
    ensures actions == [Spawn(7), Check(v), Send(v, first, None), Check(v), Exit(v)] && Run(actions) == Some(s)
    ensures s.phase.Running? && s.workers == map[7 := v] && s.live == s.busy == s.stopped == {}
    ensures s.queue == s.sent == [Msg(v, first, None)] && s.received == [] && s.written == []
  {
    assert Run([]) == Some(INIT);
    var s1 := Next(INIT, Spawn(7)).value;
    var a1 := RunSnoc([], INIT, Spawn(7));
    hide Run, Next;
    WorkerSends(a1, v, first, None);
    var a2 := a1 + [Check(v)] + [Send(v, first, None)];
    WorkerExits(a2, v);
    actions := a2 + [Check(v)] + [Exit(v)];
    s := Run(actions).value;
  }

  lemma SecondGeneration(before: seq<Action>, s: State, v: Worker, w: Worker, second: seq<Frame>) returns (t: State)
    requires Run(before) == Some(s) && v == Worker(7, 0) && w == Worker(7, 1) && second != []
    requires s.phase.Running? && s.workers == map[7 := v] && s.live == s.busy == s.stopped == {}
    ensures Run(before + [Reap(7)] + [Spawn(7)] + [Check(w)] + [Send(w, second, None)]) == Some(t)
    ensures t.phase.Running? && t.live == {w} && t.queue == s.queue + [Msg(w, second, None)]
    ensures t.sent == s.sent + [Msg(w, second, None)] && t.received == s.received && t.written == s.written
  {
    hide Run, Next;
    ReapedIsRespawned(before, 7);
    var a4 := before + [Reap(7)] + [Spawn(7)];
    WorkerSends(a4, w, second, None);
    t := Run(a4 + [Check(w)] + [Send(w, second, None)]).value;
  }

  /** Two generations of one pid: the first sends and dies, is reaped and replaced; both samples are handed on. */
  lemma BothGenerationsAreReceived(first: seq<Frame>, second: seq<Frame>) returns (actions: seq<Action>)
    requires first != [] && second != []
    ensures var v, w := Worker(7, 0), Worker(7, 1);
            actions == [Spawn(7), Check(v), Send(v, first, None), Check(v), Exit(v), Reap(7), Spawn(7),
                        Check(w), Send(w, second, None), Recv, Recv]
    ensures var r, v, w := Run(actions), Worker(7, 0), Worker(7, 1);
            && r.Some? && r.value.received == r.value.sent == [Msg(v, first, None), Msg(w, second, None)]
            && r.value.written == [Sample(first, None), Sample(second, None)] && r.value.live == {w}
  {
    hide Run, Next;
    var v, w := Worker(7, 0), Worker(7, 1);
    var a3, s3 := FirstGeneration(v, first);
    var s5 := SecondGeneration(a3, s3, v, w, second);
    var a5 := a3 + [Reap(7)] + [Spawn(7)] + [Check(w)] + [Send(w, second, None)];
    actions := a5 + [Recv] + [Recv];
    TwoReceived(a5, Msg(v, first, None), Msg(w, second, None));
  }

  lemma TwoReceived(before: seq<Action>, m: Msg, n: Msg)
    requires Run(before).Some? && m.uri.None? && n.uri.None?
    requires var s := Run(before).value; s.phase.Running? && s.queue == [m, n] && s.received == [] && s.written == []
    ensures var s, r := Run(before).value, Run(before + [Recv] + [Recv]);
            && r.Some? && r.value.received == [m, n] && r.value.sent == s.sent && r.value.live == s.live
            && r.value.written == [Sample(m.frames, None), Sample(n.frames, None)]
  {
    var s := Run(before).value;
    var s1 := Next(s, Recv).value;
    assert s1.queue == [n];
    hide Run;
    var a1 := RunSnoc(before, s, Recv);
    var a2 := RunSnoc(a1, s1, Recv);
  }

  // ----- Every run can finish -----

  /** After teardown every worker can leave, if need be after its current iteration. */
  lemma {:induction false} AllCanLeave(actions: seq<Action>, s: State) returns (after: seq<Action>)
    requires Run(actions) == Some(s) && (s.phase.Draining? || s.phase.Joining?)
    ensures Run(actions + after) == Some(s.(live := {}, busy := {}))
    decreases |s.live|
  {
    hide Run, Next, Inv;
    RunInv(actions);
    if s.live == {} {
      after := [];
      assert actions + after == actions;
      NobodyIsBusy(s);
    } else {
      var w :| w in s.live;
      var leave := if w in s.busy then Exit(w) else Check(w);
      var s' := s.(live := s.live - {w}, busy := s.busy - {w});
      WorkerLeaves(s, w);
      var more := RunSnoc(actions, s, leave);
      var rest := AllCanLeave(more, s');
      after := [leave] + rest;
      assert actions + after == more + rest;
    }
  }

  lemma NobodyIsBusy(s: State)
    requires Inv(s) && s.live == {}
    ensures s.busy == {}
  {
  }

  lemma WorkerLeaves(s: State, w: Worker)
    requires Inv(s) && !s.phase.Running? && w in s.live
    ensures Next(s, if w in s.busy then Exit(w) else Check(w)) ==
            Some(s.(live := s.live - {w}, busy := s.busy - {w}))
  {
    if w !in s.busy { assert s.busy - {w} == s.busy; }
  }

  lemma DrainTakes(s: State)
    requires s.phase.Draining? && s.queue != []
    ensures var r := Next(s, DrainRecv);
            && r.Some? && r.value.phase.Draining? && r.value.queue == s.queue[1..]
            && r.value.live == s.live && r.value.sent == s.sent
  {
  }

  lemma {:induction false} QueueCanDrain(actions: seq<Action>, s: State) returns (after: seq<Action>, t: State)
    requires Run(actions) == Some(s) && s.phase.Draining?
    ensures Run(actions + after) == Some(t) && t.phase.Draining? && t.queue == []
    ensures t.live == s.live && t.sent == s.sent
    decreases |s.queue|
  {
    hide Run, Next;
    if s.queue == [] {
      after, t := [], s;
      assert actions + after == actions;
    } else {
      DrainTakes(s);
      var s' := Next(s, DrainRecv).value;
      var more := RunSnoc(actions, s, DrainRecv);
      var rest;
      rest, t := QueueCanDrain(more, s');
      after := [DrainRecv] + rest;
      assert actions + after == more + rest;
    }
  }

  lemma {:induction false} AllCanBeJoined(actions: seq<Action>, s: State) returns (after: seq<Action>)
    requires Run(actions) == Some(s) && s.phase.Joining? && s.live == {}
    ensures Run(actions + after) == Some(s.(phase := Done, workers := map[]))
    decreases |s.workers|
  {
    hide Run, Next;
    if s.workers == map[] {
      after := [End];
      RunnerEnds(s);
      var more := RunSnoc(actions, s, End);
    } else {
      var pid :| pid in s.workers;
      var s' := s.(workers := s.workers - {pid});
      WorkerIsJoined(s, pid);
      var more := RunSnoc(actions, s, Join(pid));
      var rest := AllCanBeJoined(more, s');
      after := [Join(pid)] + rest;
      assert actions + after == more + rest;
    }
  }

  lemma WorkerIsJoined(s: State, pid: nat)
    requires s.phase.Joining? && s.live == {} && pid in s.workers
    ensures Next(s, Join(pid)) == Some(s.(workers := s.workers - {pid})) && |s.workers - {pid}| < |s.workers|
  {
    assert s.workers.Keys == (s.workers - {pid}).Keys + {pid};
    assert |(s.workers - {pid}).Keys| == |s.workers - {pid}| && |s.workers.Keys| == |s.workers|;
  }

  lemma RunnerEnds(s: State)
    requires s.phase.Joining? && s.workers == map[]
    ensures Next(s, End) == Some(s.(phase := Done))
  {
  }

  /** From teardown on: the workers leave, the queue drains, the last sender is gone, everything is handed on. */
  lemma DrainCanFinish(actions: seq<Action>, s: State) returns (after: seq<Action>, t: State)
    requires Run(actions) == Some(s) && s.phase.Draining?
    ensures Run(actions + after) == Some(t) && t.phase.Done? && t.received == t.sent && s.sent <= t.sent
  {
    hide Run, Next;
    var a1 := AllCanLeave(actions, s);
    var s1 := s.(live := {}, busy := {});
    var a2, s2 := QueueCanDrain(actions + a1, s1);
    RunInv(actions + a1 + a2);
    var s3 := s2.(phase := Joining);
    SendersGoneEnds(s2);
    var more := RunSnoc(actions + a1 + a2, s2, DrainDisconnected);
    var a3 := AllCanBeJoined(more, s3);
    t := s3.(phase := Done, workers := map[]);
    after := a1 + a2 + [DrainDisconnected] + a3;
    assert actions + after == more + a3;
  }

  lemma SendersGoneEnds(s: State)
    requires Inv(s) && s.phase.Draining? && s.queue == [] && s.live == {}
    ensures Next(s, DrainDisconnected) == Some(s.(phase := Joining)) && s.received == s.sent
  {
  }

  /**
   * Progress: from every reachable state the runner can return, and unless the drain is already over, with every
   * sample ever sent handed to the sink.
   */
  lemma EveryRunCanFinish(actions: seq<Action>) returns (after: seq<Action>)
    requires Run(actions).Some?
    ensures Run(actions + after).Some? && Run(actions + after).value.phase.Done?
    ensures var s, t := Run(actions).value, Run(actions + after).value;
            s.phase.Running? || s.phase.Draining? ==> t.received == t.sent && s.sent <= t.sent
  {
    hide Run, Next;
    var s := Run(actions).value;
    match s.phase
    case Running =>
      var torn := TearsDown(actions, s);
      var rest, t := DrainCanFinish(torn, Tear(s));
      after := [Teardown] + rest;
      assert actions + after == torn + rest;
    case Draining =>
      var t;
      after, t := DrainCanFinish(actions, s);
    case Joining =>
      var a1 := AllCanLeave(actions, s);
      var a2 := AllCanBeJoined(actions + a1, s.(live := {}, busy := {}));
      after := a1 + a2;
      assert actions + after == actions + a1 + a2;
    case Done =>
      after := [];
      assert actions + after == actions;
  }

  /** The main loop can be left at any time. */
  lemma TearsDown(actions: seq<Action>, s: State) returns (torn: seq<Action>)
    requires Run(actions) == Some(s) && s.phase.Running?
    ensures torn == actions + [Teardown] && Run(torn) == Some(Tear(s))
  {
    torn := RunSnoc(actions, s, Teardown);
  }
}
