/** The sampling loop's pacing over arbitrary monotone clock readings and sleeps that may overrun. */
module Pacing {

  /**
   * The clock during one iteration: at its top, after the optional sleep, at the lag check, at the second
   * reading of a snap, and when the sample attempt starts.
   */
  datatype Reading = Reading(now: int, awake: int, check: int, recheck: int, attempt: int)

  /** More than four intervals behind the next deadline. */
  predicate Late(deadline: int, interval: nat, r: Reading) {
    r.check > deadline + interval + 4 * interval
  }

  /** `k` intervals. */
  function Times(k: int, interval: int): int {
    k * interval
  }

  lemma TimesAdd(a: int, b: int, interval: int)
    ensures Times(a + b, interval) == Times(a, interval) + Times(b, interval)
  {
  }

  lemma TimesSmall(interval: int)
    ensures Times(0, interval) == 0 && Times(1, interval) == interval
    ensures Times(4, interval) == 4 * interval && Times(-4, interval) == -4 * interval
    ensures Times(5, interval) == 5 * interval && Times(-5, interval) == -5 * interval
  {
  }

  lemma TimesMonotone(a: int, b: int, interval: nat)
    requires a <= b
    ensures Times(a, interval) <= Times(b, interval)
  {
    assert (b - a) * interval >= 0;
    assert b * interval == a * interval + (b - a) * interval;
  }

  function NextDeadline(deadline: int, interval: nat, r: Reading): int {
    if Late(deadline, interval, r) then r.recheck + interval else deadline + interval
  }

  /** The deadline before iteration k. */
  function Deadline(start: int, interval: nat, rs: seq<Reading>, k: nat): int
    requires k <= |rs|
  {
    if k == 0 then start else NextDeadline(Deadline(start, interval, rs, k - 1), interval, rs[k - 1])
  }

  /** Time never goes back, and a sleep lasts at least until the deadline it was asked for. */
  predicate IterationOk(deadline: int, r: Reading) {
    && r.now <= r.awake <= r.check <= r.recheck <= r.attempt
    && (r.now < deadline ==> r.awake >= deadline)
  }

  predicate IsRun(start: int, interval: nat, rs: seq<Reading>) {
    && (forall k :: 0 <= k < |rs| ==> IterationOk(Deadline(start, interval, rs, k), rs[k]))
    && (forall k :: 0 < k < |rs| ==> rs[k - 1].attempt <= rs[k].now)
  }

  lemma IterationBounds(start: int, interval: nat, rs: seq<Reading>, k: nat)
    requires IsRun(start, interval, rs) && k < |rs|
    ensures var d := Deadline(start, interval, rs, k);
            && rs[k].check <= rs[k].attempt && rs[k].attempt >= d
            && Deadline(start, interval, rs, k + 1) == NextDeadline(d, interval, rs[k])
            && Deadline(start, interval, rs, k + 1) >= d + interval
            && Deadline(start, interval, rs, k + 1) >= rs[k].check - 4 * interval
  {
    assert IterationOk(Deadline(start, interval, rs, k), rs[k]);
  }

  /** The loop of `run`: the deadlines it computes, each at least an interval after the one before. */
  method Pace(start: int, interval: nat, rs: seq<Reading>) returns (deadlines: seq<int>)
    requires IsRun(start, interval, rs)
    ensures |deadlines| == |rs| + 1 && deadlines[0] == start
    ensures forall k :: 0 <= k < |rs| ==> deadlines[k + 1] >= deadlines[k] + interval
    ensures forall k :: 0 <= k < |rs| ==> rs[k].attempt >= deadlines[k]
    ensures forall k :: 0 <= k <= |rs| ==> deadlines[k] == Deadline(start, interval, rs, k)
    ensures forall k :: 0 <= k < |rs| ==>
              deadlines[k + 1] == if rs[k].check > deadlines[k] + interval + 4 * interval then rs[k].recheck + interval
                                  else deadlines[k] + interval
  {
    hide Deadline, IsRun;
    var next := start;
    deadlines := [next];
    DeadlineStart(start, interval, rs);
    for k := 0 to |rs|
      invariant |deadlines| == k + 1 && deadlines[k] == next && deadlines[0] == start
      invariant forall i :: 0 <= i <= k ==> deadlines[i] == Deadline(start, interval, rs, i)
      invariant forall i :: 0 <= i < k ==> deadlines[i + 1] >= deadlines[i] + interval
      invariant forall i :: 0 <= i < k ==> rs[i].attempt >= deadlines[i]
      invariant forall i :: 0 <= i < k ==>
                  deadlines[i + 1] == if rs[i].check > deadlines[i] + interval + 4 * interval
                                      then rs[i].recheck + interval
                                      else deadlines[i] + interval
    {
      IterationBounds(start, interval, rs, k);
      next := next + interval;
      if rs[k].check > next + interval * 4 {
        next := rs[k].recheck + interval;
      }
      deadlines := deadlines + [next];
    }
  }

  lemma DeadlineStart(start: int, interval: nat, rs: seq<Reading>)
    ensures Deadline(start, interval, rs, 0) == start
  {
  }

  lemma {:induction false} DeadlinesGrow(start: int, interval: nat, rs: seq<Reading>, j: nat, k: nat)
    requires IsRun(start, interval, rs) && j <= k <= |rs|
    ensures Deadline(start, interval, rs, k) >= Deadline(start, interval, rs, j) + Times(k - j, interval)
    decreases k
  {
    hide Times, Deadline, IsRun;
    TimesSmall(interval);
    if j < k {
      DeadlinesGrow(start, interval, rs, j, k - 1);
      IterationBounds(start, interval, rs, k - 1);
      TimesAdd(k - 1 - j, 1, interval);
    }
  }

  /** Sample k starts no earlier than k intervals after the start. */
  lemma NeverEarly(start: int, interval: nat, rs: seq<Reading>, k: nat)
    requires IsRun(start, interval, rs) && k < |rs|
    ensures rs[k].attempt >= start + Times(k, interval)
  {
    hide Times, IsRun;
    DeadlinesGrow(start, interval, rs, 0, k);
    IterationBounds(start, interval, rs, k);
  }

  /** Catch-up is bounded: from lag check j to attempt k at least (k - j - 5) intervals pass. */
  lemma CatchUpIsBounded(start: int, interval: nat, rs: seq<Reading>, j: nat, k: nat)
    requires IsRun(start, interval, rs) && j <= k < |rs|
    ensures Times(k - j - 5, interval) <= rs[k].attempt - rs[j].check
  {
    hide Times, Deadline, IsRun;
    TimesSmall(interval);
    IterationBounds(start, interval, rs, j);
    IterationBounds(start, interval, rs, k);
    if j < k {
      DeadlinesGrow(start, interval, rs, j + 1, k);
      TimesAdd(k - j - 1, -4, interval);
    }
  }

  /** A burst: within less than n intervals after a lag check, fewer than n + 5 further attempts start. */
  lemma BurstIsBounded(start: int, interval: nat, rs: seq<Reading>, j: nat, k: nat, n: nat)
    requires IsRun(start, interval, rs) && j <= k < |rs|
    requires rs[k].attempt - rs[j].check < Times(n, interval)
    ensures k - j < n + 5
  {
    hide Times, Deadline, IsRun;
    CatchUpIsBounded(start, interval, rs, j, k);
    if n <= k - j - 5 { TimesMonotone(n, k - j - 5, interval); }
  }

  /** The lag bound is tight: five more attempts can follow a check within no time at all. */
  lemma FiveAttemptsInNoTime(interval: nat)
    ensures var t := Times(5, interval);
            var rs := seq(6, _ => Reading(t, t, t, t, t));
            IsRun(0, interval, rs) && rs[5].attempt - rs[0].check == 0
  {
    hide Times;
    var t := Times(5, interval);
    var rs := seq(6, _ => Reading(t, t, t, t, t));
    forall k | 0 <= k < 6 ensures Deadline(0, interval, rs, k) <= t {
      CrowdedDeadline(interval, t, rs, k);
      TimesMonotone(k, 5, interval);
    }
  }

  lemma {:induction false} CrowdedDeadline(interval: nat, t: int, rs: seq<Reading>, k: nat)
    requires t == Times(5, interval) && k <= |rs| && forall i :: 0 <= i < |rs| ==> rs[i] == Reading(t, t, t, t, t)
    ensures Deadline(0, interval, rs, k) == Times(k, interval)
  {
    hide Times;
    TimesSmall(interval);
    if k > 0 {
      CrowdedDeadline(interval, t, rs, k - 1);
      TimesAdd(k - 1, 1, interval);
      TimesMonotone(0, k - 1, interval);
    }
  }

  /** Without lateness there is no drift: the deadlines are exactly the multiples of the interval. */
  lemma {:induction false} NoDrift(start: int, interval: nat, rs: seq<Reading>, k: nat)
    requires k <= |rs|
    requires forall i :: 0 <= i < k ==> rs[i].check <= start + Times(i + 5, interval)
    ensures Deadline(start, interval, rs, k) == start + Times(k, interval)
  {
    hide Times;
    TimesSmall(interval);
    if k > 0 {
      NoDrift(start, interval, rs, k - 1);
      TimesAdd(k - 1, 1, interval);
      TimesAdd(k - 1, 5, interval);
    }
  }

  /** Once more than four intervals behind, the backlog is dropped: the next sample waits a full interval. */
  lemma LateSnapsForward(start: int, interval: nat, rs: seq<Reading>, k: nat)
    requires IsRun(start, interval, rs) && k + 1 < |rs|
    requires rs[k].check > Deadline(start, interval, rs, k) + 5 * interval
    ensures Deadline(start, interval, rs, k + 1) == rs[k].recheck + interval
    ensures rs[k + 1].attempt >= rs[k].recheck + interval
  {
    IterationBounds(start, interval, rs, k + 1);
  }
}
