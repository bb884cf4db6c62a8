/**
 * First-Come-First-Served: jobs run to completion in stable arrival order;
 * the clock jumps to a job's arrival when the processor would otherwise idle.
 */
module Fcfs {
  import opened Processes
  import opened Ordering

  function Max(a: int, b: int): (r: int)
    ensures r >= a && r >= b && (r == a || r == b)
  {
    if a < b then b else a
  }

  /**
   * The FCFS promise for the k-th job in processing order: it starts at its
   * arrival (first job) or at the later of its arrival and the previous
   * completion; its response equals its wait, which is never negative; its
   * turnaround is its wait plus its service time.
   */
  ghost predicate FcfsEntry(ps: seq<Process>, order: seq<nat>,
                            response: seq<int>, wait: seq<int>, turnaround: seq<int>, k: nat)
  {
    && k < |order| && k < |response| && k < |wait| && k < |turnaround|
    && order[k] < |ps| && (k > 0 ==> order[k - 1] < |ps|)
    && response[k] == wait[k]
    && wait[k] >= 0
    && turnaround[k] == wait[k] + ps[order[k]].duration
    && ps[order[k]].arrival + response[k] ==
         (if k == 0 then ps[order[k]].arrival
          else Max(ps[order[k - 1]].arrival + turnaround[k - 1], ps[order[k]].arrival))
  }

  /** FCFS as a whole: stable arrival order, one entry per process, each entry as above. */
  ghost predicate IsFcfsSchedule(ps: seq<Process>, order: seq<nat>, m: Metrics) {
    && IsStableArrivalOrder(ps, order)
    && m.HasLength(|ps|)
    && forall k :: 0 <= k < |ps| ==> FcfsEntry(ps, order, m.response, m.wait, m.turnaround, k)
  }

  /** The FCFS simulation; metrics are listed in processing order. */
  method Fcfs(ps: seq<Process>) returns (order: seq<nat>, m: Metrics)
    ensures IsFcfsSchedule(ps, order, m)
  {
    order := StableArrivalOrder(ps);
    var time := 0;
    var response, wait, turnaround := [], [], [];
    for i := 0 to |ps|
      invariant |response| == i && |wait| == i && |turnaround| == i
      invariant forall k :: 0 <= k < i ==> FcfsEntry(ps, order, response, wait, turnaround, k)
      invariant i > 0 ==> time == ps[order[i - 1]].arrival + turnaround[i - 1]
    {
      var arrival := ps[order[i]].arrival;
      var duration := ps[order[i]].duration;
      if i == 0 || arrival > time {
        time := arrival;
      }
      var finish := time + duration;
      JobFacts(ps, order, response, wait, turnaround, i, time - arrival, finish - arrival - duration, finish - arrival);
      response := response + [time - arrival];
      wait := wait + [finish - arrival - duration];
      turnaround := turnaround + [finish - arrival];
      time := finish;
    }
    m := Metrics(response, wait, turnaround);
  }

  /** The invariant of Fcfs's loop survives appending the i-th job's entries. */
  lemma JobFacts(ps: seq<Process>, order: seq<nat>, response: seq<int>, wait: seq<int>, turnaround: seq<int>,
                 i: nat, r: int, w: int, t: int)
    requires i < |order| && forall k :: 0 <= k <= i ==> order[k] < |ps|
    requires |response| == i && |wait| == i && |turnaround| == i
    requires forall k :: 0 <= k < i ==> FcfsEntry(ps, order, response, wait, turnaround, k)
    requires r == w >= 0 && t == w + ps[order[i]].duration
    requires ps[order[i]].arrival + r ==
      (if i == 0 then ps[order[i]].arrival else Max(ps[order[i - 1]].arrival + turnaround[i - 1], ps[order[i]].arrival))
    ensures forall k :: 0 <= k <= i ==> FcfsEntry(ps, order, response + [r], wait + [w], turnaround + [t], k)
  {
    forall k | 0 <= k <= i ensures FcfsEntry(ps, order, response + [r], wait + [w], turnaround + [t], k) {
      if k < i {
        assert FcfsEntry(ps, order, response, wait, turnaround, k);
      }
    }
  }

  /** Input already sorted by arrival is processed in input order. */
  lemma FcfsKeepsSortedInput(ps: seq<Process>, order: seq<nat>, m: Metrics)
    requires IsFcfsSchedule(ps, order, m)
    requires forall i, j :: 0 <= i < j < |ps| ==> ps[i].arrival <= ps[j].arrival
    ensures forall k :: 0 <= k < |ps| ==> order[k] == k
  {
    var identity: seq<nat> := seq(|ps|, k requires 0 <= k < |ps| => k);
    forall j | 0 <= j < |ps| ensures j in identity {
      assert identity[j] == j;
    }
    assert IsStableArrivalOrder(ps, identity);
    StableOrderUnique(ps, order, identity);
  }

  /** With positive durations, jobs complete strictly one after another in processing order. */
  lemma {:induction false} FcfsCompletesInOrder(ps: seq<Process>, order: seq<nat>, m: Metrics, k: nat, l: nat)
    requires IsFcfsSchedule(ps, order, m) && PositiveDurations(ps)
    requires k < l < |ps|
    ensures CompletionTime(ps, order, m, k) < CompletionTime(ps, order, m, l)
    decreases l - k
  {
    if k + 1 < l {
      FcfsCompletesInOrder(ps, order, m, k + 1, l);
    }
    assert FcfsEntry(ps, order, m.response, m.wait, m.turnaround, k + 1);
    assert StartTime(ps, order, m, k + 1) >= CompletionTime(ps, order, m, k);
  }

  /**
   * Two jobs arriving together, (0, 5) then (0, 3): FCFS keeps input order,
   * so their turnarounds are 5 and 8.
   */
  method TieKeepsInputOrder() returns (order: seq<nat>, m: Metrics)
    ensures order == [0, 1]
    ensures m == Metrics([0, 5], [0, 5], [5, 8])
  {
    var ps := [Process(0, 5), Process(0, 3)];
    order, m := Fcfs(ps);
    assert Before(ps, order[0], order[1]);
    assert FcfsEntry(ps, order, m.response, m.wait, m.turnaround, 0);
    assert FcfsEntry(ps, order, m.response, m.wait, m.turnaround, 1);
  }
}
