/**
 * Shortest-Job-First, non-preemptive: at each decision point the shortest
 * arrived, unfinished job runs to completion (lowest index on ties); when no
 * job has arrived the clock advances one unit at a time.
 */
module Sjf {
  import opened Processes

  /** INT_MAX, the largest 32-bit C++ int, which the scan takes as its starting minimum. */
  const IntMax: int := 0x7fff_ffff

  predicate Concluded(flag: bool) {
    flag
  }

  /** Job j has arrived by time and has not finished. */
  predicate Ready(ps: seq<Process>, done: seq<bool>, time: int, j: nat)
    requires j < |ps| && |done| == |ps|
  {
    !done[j] && ps[j].arrival <= time
  }

  /** Job i wins against job j: strictly shorter, or equally long and not after j in input order. */
  predicate Shorter(ps: seq<Process>, i: nat, j: nat)
    requires i < |ps| && j < |ps|
  {
    ps[i].duration < ps[j].duration || (ps[i].duration == ps[j].duration && i <= j)
  }

  /** An upper bound on every arrival time (0 for no processes). */
  function LatestArrival(ps: seq<Process>): (r: int)
    ensures forall j :: 0 <= j < |ps| ==> ps[j].arrival <= r
  {
    if ps == [] then 0
    else
      var rest := LatestArrival(ps[..|ps| - 1]);
      if rest < ps[|ps| - 1].arrival then ps[|ps| - 1].arrival else rest
  }

  /**
   * One pass over all processes picking the ready one of least duration;
   * strict < keeps the first one found among equals. -1 when none is ready.
   */
  method ShortestReady(ps: seq<Process>, done: seq<bool>, time: int) returns (best: int)
    requires |done| == |ps|
    ensures best == -1 <==> forall j :: 0 <= j < |ps| ==> !Ready(ps, done, time, j)
    ensures best != -1 ==>
      && 0 <= best < |ps|
      && Ready(ps, done, time, best)
      && forall j :: 0 <= j < |ps| && Ready(ps, done, time, j) ==> Shorter(ps, best, j)
  {
    best := -1;
    var shortest := 0;
    for i := 0 to |ps|
      invariant best == -1 <==> forall j :: 0 <= j < i ==> !Ready(ps, done, time, j)
      invariant best != -1 ==>
        && 0 <= best < i
        && Ready(ps, done, time, best)
        && shortest == ps[best].duration
        && forall j :: 0 <= j < i && Ready(ps, done, time, j) ==> Shorter(ps, best, j)
    {
      if Ready(ps, done, time, i) {
        if best == -1 || ps[i].duration < shortest {
          shortest := ps[i].duration;
          best := i;
        }
      }
    }
  }

  /**
   * The same pass exactly as the source writes it: the running minimum starts
   * at INT_MAX, so a ready job whose duration is INT_MAX is never picked.
   */
  method ShortestReadyAsWritten(ps: seq<Process>, done: seq<bool>, time: int) returns (best: int)
    requires |done| == |ps|
    ensures best == -1 <==>
      forall j :: 0 <= j < |ps| && Ready(ps, done, time, j) ==> ps[j].duration >= IntMax
    ensures best != -1 ==>
      && 0 <= best < |ps|
      && Ready(ps, done, time, best)
      && forall j :: 0 <= j < |ps| && Ready(ps, done, time, j) ==> Shorter(ps, best, j)
  {
    best := -1;
    var shortest := IntMax;
    for i := 0 to |ps|
      invariant best == -1 <==>
        forall j :: 0 <= j < i && Ready(ps, done, time, j) ==> ps[j].duration >= IntMax
      invariant best == -1 ==> shortest == IntMax
      invariant best != -1 ==>
        && 0 <= best < i
        && Ready(ps, done, time, best)
        && shortest == ps[best].duration
        && forall j :: 0 <= j < i && Ready(ps, done, time, j) ==> Shorter(ps, best, j)
    {
      if Ready(ps, done, time, i) {
        if ps[i].duration < shortest {
          shortest := ps[i].duration;
          best := i;
        }
      }
    }
  }

  /**
   * A single job (0, INT_MAX) is ready at time 0, yet the scan as written
   * reports that nothing is ready, so the source's loop idles forever.
   */
  method LongestJobNeverPicked() returns (asWritten: int, corrected: int)
    ensures asWritten == -1
    ensures corrected == 0
  {
    var ps := [Process(0, IntMax)];
    asWritten := ShortestReadyAsWritten(ps, [false], 0);
    corrected := ShortestReady(ps, [false], 0);
    assert Ready(ps, [false], 0, 0);
  }

  /**
   * The SJF promise for the k-th dispatched job. Its start is arrival + wait;
   * it starts no earlier than the previous completion (time 0 for the first
   * job), later only if every unfinished job arrives at or after that start
   * (the clock idled up to the earliest arrival); among the unfinished jobs
   * arrived by its start it is the shortest, lowest index first; response
   * equals wait, and turnaround is wait plus service.
   */
  ghost predicate SjfEntry(ps: seq<Process>, run: seq<nat>,
                           response: seq<int>, wait: seq<int>, turnaround: seq<int>, k: nat)
  {
    && k < |run| && k < |response| && k < |wait| && k < |turnaround|
    && run[k] < |ps| && (k > 0 ==> run[k - 1] < |ps|)
    && response[k] == wait[k]
    && wait[k] >= 0
    && turnaround[k] == wait[k] + ps[run[k]].duration
    && var start := ps[run[k]].arrival + wait[k];
       var previous := if k == 0 then 0 else ps[run[k - 1]].arrival + turnaround[k - 1];
       && start >= previous
       && (start > previous ==>
             forall j :: 0 <= j < |ps| && j !in run[..k] ==> ps[j].arrival >= start)
       && forall j :: 0 <= j < |ps| && j !in run[..k] && ps[j].arrival <= start ==>
             Shorter(ps, run[k], j)
  }

  /** SJF as a whole: every process dispatched exactly once, one entry per dispatch. */
  ghost predicate IsSjfSchedule(ps: seq<Process>, run: seq<nat>, m: Metrics) {
    && IsPermutation(run, |ps|)
    && m.HasLength(|ps|)
    && forall k :: 0 <= k < |ps| ==> SjfEntry(ps, run, m.response, m.wait, m.turnaround, k)
  }

  /** Appending a dispatch leaves the entries of earlier dispatches as they were. */
  lemma EntriesKept(ps: seq<Process>, run: seq<nat>, response: seq<int>, wait: seq<int>, turnaround: seq<int>,
                    x: nat, r: int, w: int, t: int)
    requires |response| == |run| && |wait| == |run| && |turnaround| == |run|
    requires forall k :: 0 <= k < |run| ==> SjfEntry(ps, run, response, wait, turnaround, k)
    ensures forall k :: 0 <= k < |run| ==>
      SjfEntry(ps, run + [x], response + [r], wait + [w], turnaround + [t], k)
  {
    forall k | 0 <= k < |run|
      ensures SjfEntry(ps, run + [x], response + [r], wait + [w], turnaround + [t], k)
    {
      assert (run + [x])[..k] == run[..k];
      assert SjfEntry(ps, run, response, wait, turnaround, k);
    }
  }

  /** The job the scan picks, dispatched at the current time, meets the SJF promise. */
  lemma NewEntry(ps: seq<Process>, run: seq<nat>, response: seq<int>, wait: seq<int>, turnaround: seq<int>,
                 done: seq<bool>, time: int, lastEnd: int, best: nat)
    requires |done| == |ps| && |response| == |run| && |wait| == |run| && |turnaround| == |run|
    requires forall j :: 0 <= j < |ps| ==> (done[j] <==> j in run)
    requires forall k :: 0 <= k < |run| ==> run[k] < |ps|
    requires lastEnd == if run == [] then 0 else ps[run[|run| - 1]].arrival + turnaround[|run| - 1]
    requires time >= lastEnd
    requires time > lastEnd ==> forall j :: 0 <= j < |ps| && !done[j] ==> ps[j].arrival >= time
    requires best < |ps| && Ready(ps, done, time, best)
    requires forall j :: 0 <= j < |ps| && Ready(ps, done, time, j) ==> Shorter(ps, best, j)
    ensures best !in run
    ensures SjfEntry(ps, run + [best], response + [time - ps[best].arrival], wait + [time - ps[best].arrival],
                     turnaround + [time + ps[best].duration - ps[best].arrival], |run|)
  {
    assert (run + [best])[..|run|] == run;
    forall j | 0 <= j < |ps| && j !in run && ps[j].arrival <= time
      ensures Shorter(ps, best, j)
    {
      assert Ready(ps, done, time, j);
    }
  }

  /**
   * What holds between iterations of Sjf's loop: done marks exactly the
   * dispatched jobs, each dispatched once, every entry so far meets the SJF
   * promise, and the clock is at the last completion or has idled past it
   * only while no unfinished job had arrived.
   */
  ghost predicate Progress(ps: seq<Process>, time: int, done: seq<bool>, run: seq<nat>,
                           response: seq<int>, wait: seq<int>, turnaround: seq<int>, lastEnd: int)
  {
    && |done| == |ps|
    && |response| == |run| && |wait| == |run| && |turnaround| == |run|
    && (forall j :: 0 <= j < |ps| ==> (done[j] <==> j in run))
    && (forall k :: 0 <= k < |run| ==> run[k] < |ps|)
    && (forall k, l :: 0 <= k < l < |run| ==> run[k] != run[l])
    && (forall k :: 0 <= k < |run| ==> SjfEntry(ps, run, response, wait, turnaround, k))
    && lastEnd == (if run == [] then 0 else ps[run[|run| - 1]].arrival + turnaround[|run| - 1])
    && time >= lastEnd
    && (time > lastEnd ==> forall j :: 0 <= j < |ps| && !done[j] ==> ps[j].arrival >= time)
  }

  /** An idle step: nothing is ready, the clock moves on by one and nothing else changes. */
  lemma IdleStep(ps: seq<Process>, time: int, done: seq<bool>, run: seq<nat>,
                 response: seq<int>, wait: seq<int>, turnaround: seq<int>, lastEnd: int)
    requires Progress(ps, time, done, run, response, wait, turnaround, lastEnd)
    requires forall j :: 0 <= j < |ps| ==> !Ready(ps, done, time, j)
    ensures Progress(ps, time + 1, done, run, response, wait, turnaround, lastEnd)
    ensures Count(done, Concluded) < |ps| ==> LatestArrival(ps) > time
  {
    if Count(done, Concluded) < |ps| {
      // Nothing has arrived: some unfinished job arrives later than now.
      CountFull(done, Concluded);
      var j :| 0 <= j < |ps| && !done[j];
      assert !Ready(ps, done, time, j);
    }
    forall j | 0 <= j < |ps| && !done[j] ensures ps[j].arrival >= time + 1 {
      assert !Ready(ps, done, time, j);
    }
  }

  /** A dispatch step: the picked job runs to completion and its entry is appended. */
  lemma DispatchStep(ps: seq<Process>, time: int, done: seq<bool>, run: seq<nat>,
                     response: seq<int>, wait: seq<int>, turnaround: seq<int>, lastEnd: int, best: nat)
    requires Progress(ps, time, done, run, response, wait, turnaround, lastEnd)
    requires best < |ps| && Ready(ps, done, time, best)
    requires forall j :: 0 <= j < |ps| && Ready(ps, done, time, j) ==> Shorter(ps, best, j)
    ensures best !in run
    ensures
      var arrival := ps[best].arrival;
      var finish := time + ps[best].duration;
      Progress(ps, finish, done[best := true], run + [best], response + [time - arrival],
               wait + [time - arrival], turnaround + [finish - arrival], finish)
  {
    var arrival := ps[best].arrival;
    var finish := time + ps[best].duration;
    EntriesKept(ps, run, response, wait, turnaround, best, time - arrival, time - arrival, finish - arrival);
    NewEntry(ps, run, response, wait, turnaround, done, time, lastEnd, best);
    var run' := run + [best];
    assert forall k :: 0 <= k < |run| ==> run'[k] == run[k];
    forall j | 0 <= j < |ps| ensures (done[best := true][j] <==> j in run') {
      if j != best { assert j in run' <==> j in run; }
    }
  }

  /** The SJF simulation; metrics are listed in dispatch order, run says which job each entry is. */
  method Sjf(ps: seq<Process>) returns (run: seq<nat>, m: Metrics)
    ensures IsSjfSchedule(ps, run, m)
  {
    var n := |ps|;
    var time := 0;
    var done := seq(n, _ => false);
    var finished := 0;
    var response, wait, turnaround := [], [], [];
    run := [];
    ghost var lastEnd := 0;
    CountEmpty(done, Concluded);
    while finished < n
      invariant Progress(ps, time, done, run, response, wait, turnaround, lastEnd)
      invariant finished == |run| == Count(done, Concluded)
      decreases n - finished, LatestArrival(ps) - time
    {
      var best := ShortestReady(ps, done, time);
      if best == -1 {
        IdleStep(ps, time, done, run, response, wait, turnaround, lastEnd);
        time := time + 1;
      } else {
        var arrival := ps[best].arrival;
        var duration := ps[best].duration;
        var finish := time + duration;
        DispatchStep(ps, time, done, run, response, wait, turnaround, lastEnd, best);
        CountUpdate(done, best, true, Concluded);
        response := response + [time - arrival];
        wait := wait + [time - arrival];
        turnaround := turnaround + [finish - arrival];
        run := run + [best];
        done := done[best := true];
        time := finish;
        lastEnd := finish;
        finished := finished + 1;
      }
    }
    CountFull(done, Concluded);
    m := Metrics(response, wait, turnaround);
    AllDispatched(ps, time, done, run, m, lastEnd);
  }

  /** Once every job is done, the entries gathered form a complete SJF schedule. */
  lemma AllDispatched(ps: seq<Process>, time: int, done: seq<bool>, run: seq<nat>, m: Metrics, lastEnd: int)
    requires Progress(ps, time, done, run, m.response, m.wait, m.turnaround, lastEnd)
    requires |run| == |ps|
    requires forall j :: 0 <= j < |done| ==> done[j]
    ensures IsSjfSchedule(ps, run, m)
  {
  }

  /** The SJF promise pins the schedule down: at most one run and one metrics triple meet it. */
  lemma SjfScheduleUnique(ps: seq<Process>, r1: seq<nat>, m1: Metrics, r2: seq<nat>, m2: Metrics)
    requires IsSjfSchedule(ps, r1, m1) && IsSjfSchedule(ps, r2, m2)
    ensures r1 == r2 && m1 == m2
  {
    SjfPrefixUnique(ps, r1, m1, r2, m2, |ps|);
    assert r1 == r1[..|ps|] && r2 == r2[..|ps|];
    assert m1.response == m1.response[..|ps|] && m2.response == m2.response[..|ps|];
    assert m1.wait == m1.wait[..|ps|] && m2.wait == m2.wait[..|ps|];
    assert m1.turnaround == m1.turnaround[..|ps|] && m2.turnaround == m2.turnaround[..|ps|];
  }

  /** Two schedules meeting the SJF promise agree on every prefix. */
  lemma {:induction false} SjfPrefixUnique(ps: seq<Process>, r1: seq<nat>, m1: Metrics, r2: seq<nat>, m2: Metrics, k: nat)
    requires IsSjfSchedule(ps, r1, m1) && IsSjfSchedule(ps, r2, m2)
    requires k <= |ps|
    ensures r1[..k] == r2[..k]
    ensures m1.response[..k] == m2.response[..k]
    ensures m1.wait[..k] == m2.wait[..k]
    ensures m1.turnaround[..k] == m2.turnaround[..k]
  {
    if k > 0 {
      var i := k - 1;
      SjfPrefixUnique(ps, r1, m1, r2, m2, i);
      assert SjfEntry(ps, r1, m1.response, m1.wait, m1.turnaround, i);
      assert SjfEntry(ps, r2, m2.response, m2.wait, m2.turnaround, i);
      assert r1[..i] == r2[..i];
      assert i > 0 ==> r1[i - 1] == r1[..i][i - 1] == r2[..i][i - 1] == r2[i - 1];
      assert i > 0 ==> m1.turnaround[i - 1] == m1.turnaround[..i][i - 1] == m2.turnaround[..i][i - 1] == m2.turnaround[i - 1];
      var p1, p2 := r1[i], r2[i];
      var s1 := ps[p1].arrival + m1.wait[i];
      var s2 := ps[p2].arrival + m2.wait[i];
      // Neither pick was dispatched before position i.
      assert p1 !in r1[..i] by {
        forall l | 0 <= l < i ensures r1[..i][l] != p1 { assert r1[l] != r1[i]; }
      }
      assert p2 !in r2[..i] by {
        forall l | 0 <= l < i ensures r2[..i][l] != p2 { assert r2[l] != r2[i]; }
      }
      // Both picks start at the same time, so they face the same ready jobs.
      assert s1 == s2;
      assert Shorter(ps, p1, p2) && Shorter(ps, p2, p1);
      assert p1 == p2;
      assert r1[..k] == r1[..i] + [r1[i]] && r2[..k] == r2[..i] + [r2[i]];
      assert m1.response[..k] == m1.response[..i] + [m1.response[i]];
      assert m2.response[..k] == m2.response[..i] + [m2.response[i]];
      assert m1.wait[..k] == m1.wait[..i] + [m1.wait[i]];
      assert m2.wait[..k] == m2.wait[..i] + [m2.wait[i]];
      assert m1.turnaround[..k] == m1.turnaround[..i] + [m1.turnaround[i]];
      assert m2.turnaround[..k] == m2.turnaround[..i] + [m2.turnaround[i]];
    }
  }

  /**
   * Two jobs arriving together, (0, 5) then (0, 3): SJF runs the second one
   * first, so the turnarounds in dispatch order are 3 and 8.
   */
  method ShorterJobFirst() returns (run: seq<nat>, m: Metrics)
    ensures run == [1, 0]
    ensures m == Metrics([0, 3], [0, 3], [3, 8])
  {
    var ps := [Process(0, 5), Process(0, 3)];
    run, m := Sjf(ps);
    assert SjfEntry(ps, run, m.response, m.wait, m.turnaround, 0);
    assert SjfEntry(ps, run, m.response, m.wait, m.turnaround, 1);
  }
}
