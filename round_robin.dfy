/**
 * Round-Robin with a quantum of 2. A ready queue of process indices is served
 * from the head; each dispatch runs min(2, remaining) units, then admits the
 * arrivals due by the new time, and only then puts the unfinished process back
 * at the tail. With the queue empty the clock jumps to the next arrival.
 */
module RoundRobin {
  import opened Processes
  import opened Ordering

  const Quantum: int := 2

  /** The "not yet" sentinel of first-run and completion times. */
  const Unset: int := -1

  function Min(a: int, b: int): (r: int)
    ensures r <= a && r <= b && (r == a || r == b)
  {
    if a < b then a else b
  }

  predicate Drained(left: int) {
    left == 0
  }

  /**
   * The simulator's variables: the clock, the ready queue, the admission
   * cursor into the arrival order, and per process its remaining service,
   * first-run time and completion time, plus the count of finished processes.
   */
  datatype RrState = RrState(
    time: int,
    queue: seq<nat>,
    idx: nat,
    remaining: seq<int>,
    firstRun: seq<int>,
    finish: seq<int>,
    finished: nat)

  /** Where index q sits in a permutation. */
  ghost function Position(order: seq<nat>, q: nat): (k: nat)
    requires q in order
    ensures k < |order| && order[k] == q
  {
    var k :| 0 <= k < |order| && order[k] == q; k
  }

  /** A slice of a permutation holds exactly the indices whose position falls in its range. */
  lemma InSlice(order: seq<nat>, n: nat, lo: nat, hi: nat, q: nat)
    requires IsPermutation(order, n) && lo <= hi <= n && q < n
    ensures q in order[lo..hi] <==> lo <= Position(order, q) < hi
  {
    var k := Position(order, q);
    if lo <= k < hi {
      assert order[lo..hi][k - lo] == q;
    }
  }

  /**
   * What holds of process p in every state the loop reaches. Admitted means
   * its position in the arrival order is before the cursor. It is in the
   * ready queue exactly when admitted and unfinished; not admitted means not
   * yet served; the first-run time is set exactly when some service has been
   * given, and is no earlier than the arrival; the service given so far fits
   * between the first run and now; the completion time is set exactly when
   * nothing remains, and is at least first run plus duration.
   */
  ghost predicate JobState(ps: seq<Process>, order: seq<nat>, s: RrState, p: nat)
    requires IsPermutation(order, |ps|) && p < |ps|
    requires |s.remaining| == |ps| && |s.firstRun| == |ps| && |s.finish| == |ps|
  {
    var admitted := Position(order, p) < s.idx;
    var served := ps[p].duration - s.remaining[p];
    && 0 <= s.remaining[p] <= ps[p].duration
    && (admitted ==> ps[p].arrival <= s.time)
    && (!admitted ==> served == 0)
    && (p in s.queue <==> admitted && s.remaining[p] > 0)
    && (s.firstRun[p] == Unset <==> served == 0)
    && (s.firstRun[p] != Unset ==>
          0 <= s.firstRun[p] && ps[p].arrival <= s.firstRun[p] && s.firstRun[p] + served <= s.time)
    && (s.finish[p] == Unset <==> s.remaining[p] > 0)
    && (s.finish[p] != Unset ==> s.firstRun[p] + ps[p].duration <= s.finish[p] <= s.time)
  }

  /**
   * The loop invariant: vectors of the right size, the finished counter
   * equals the number of drained processes, the queue holds valid indices
   * each at most once, the cursor has admitted every arrival due by now and
   * nothing later, and every process is in a consistent state.
   */
  ghost predicate Valid(ps: seq<Process>, order: seq<nat>, s: RrState) {
    var n := |ps|;
    && IsPermutation(order, n)
    && |s.remaining| == n && |s.firstRun| == n && |s.finish| == n
    && s.idx <= n
    && s.time >= 0
    && s.finished == Count(s.remaining, Drained)
    && (forall k :: 0 <= k < |s.queue| ==> s.queue[k] < n)
    && Distinct(s.queue)
    && (forall k :: 0 <= k < s.idx ==> ps[order[k]].arrival <= s.time)
    && (s.idx < n ==> ps[order[s.idx]].arrival > s.time)
    && forall p :: 0 <= p < n ==> JobState(ps, order, s, p)
  }

  /**
   * The cursor position admission stops at: the first position from idx on
   * whose process arrives after time, or the end of the order.
   */
  function NextPending(ps: seq<Process>, order: seq<nat>, idx: nat, time: int): (k: nat)
    requires |order| == |ps| && idx <= |ps|
    requires forall k :: 0 <= k < |order| ==> order[k] < |ps|
    ensures idx <= k <= |ps|
    ensures forall j :: idx <= j < k ==> ps[order[j]].arrival <= time
    ensures k < |ps| ==> ps[order[k]].arrival > time
    decreases |ps| - idx
  {
    if idx < |ps| && ps[order[idx]].arrival <= time then NextPending(ps, order, idx + 1, time) else idx
  }

  /** The stopping position is the only one with the properties NextPending ensures. */
  lemma NextPendingUnique(ps: seq<Process>, order: seq<nat>, idx: nat, time: int, k: nat)
    requires |order| == |ps| && idx <= k <= |ps|
    requires forall k :: 0 <= k < |order| ==> order[k] < |ps|
    requires forall j :: idx <= j < k ==> ps[order[j]].arrival <= time
    requires k < |ps| ==> ps[order[k]].arrival > time
    ensures k == NextPending(ps, order, idx, time)
  {
  }

  /**
   * Admission (the inner while loops): append to the queue, in arrival order,
   * every not-yet-admitted process whose arrival is at or before time.
   */
  method Admit(ps: seq<Process>, order: seq<nat>, queue: seq<nat>, idx: nat, time: int)
    returns (queue': seq<nat>, idx': nat)
    requires |order| == |ps| && idx <= |ps|
    requires forall k :: 0 <= k < |order| ==> order[k] < |ps|
    ensures idx <= idx' <= |ps|
    ensures queue' == queue + order[idx..idx']
    ensures forall k :: idx <= k < idx' ==> ps[order[k]].arrival <= time
    ensures idx' < |ps| ==> ps[order[idx']].arrival > time
    ensures idx' == NextPending(ps, order, idx, time)
  {
    queue', idx' := queue, idx;
    while idx' < |ps| && ps[order[idx']].arrival <= time
      invariant idx <= idx' <= |ps|
      invariant NextPending(ps, order, idx', time) == NextPending(ps, order, idx, time)
      invariant queue' == queue + order[idx..idx']
      invariant forall k :: idx <= k < idx' ==> ps[order[k]].arrival <= time
    {
      assert order[idx..idx' + 1] == order[idx..idx'] + [order[idx']];
      queue' := queue' + [order[idx']];
      idx' := idx' + 1;
    }
  }

  /**
   * The state before the main loop: clock at 0, every process with its full
   * duration remaining and no first run or completion, and the arrivals at
   * or before time 0 admitted in order.
   */
  method Start(ps: seq<Process>, order: seq<nat>) returns (s: RrState)
    requires PositiveDurations(ps) && IsArrivalOrder(ps, order)
    ensures Valid(ps, order, s)
    ensures s.time == 0 && s.finished == 0
    ensures s.queue == order[0..s.idx]
    ensures forall p :: 0 <= p < |ps| ==>
      s.remaining[p] == ps[p].duration && s.firstRun[p] == Unset && s.finish[p] == Unset
    ensures s == Initial(ps, order)
  {
    var n := |ps|;
    var remaining := Durations(ps);
    var queue, idx := Admit(ps, order, [], 0, 0);
    s := RrState(0, queue, idx, remaining, seq(n, _ => Unset), seq(n, _ => Unset), 0);
    StartValid(ps, order, s);
  }

  /** The state Start produces, as a value. */
  ghost function Initial(ps: seq<Process>, order: seq<nat>): (s: RrState)
    requires PositiveDurations(ps) && IsPermutation(order, |ps|)
    ensures Valid(ps, order, s)
  {
    var n := |ps|;
    var idx := NextPending(ps, order, 0, 0);
    var s := RrState(0, [] + order[0..idx], idx, Durations(ps), seq(n, _ => Unset), seq(n, _ => Unset), 0);
    StartValid(ps, order, s);
    s
  }

  /** The initial state, with the arrivals due at time 0 admitted, is valid. */
  lemma StartValid(ps: seq<Process>, order: seq<nat>, s: RrState)
    requires PositiveDurations(ps) && IsPermutation(order, |ps|)
    requires s.time == 0 && s.finished == 0 && s.idx <= |ps| && s.queue == [] + order[0..s.idx]
    requires |s.remaining| == |ps| && |s.firstRun| == |ps| && |s.finish| == |ps|
    requires forall p :: 0 <= p < |ps| ==>
      s.remaining[p] == ps[p].duration && s.firstRun[p] == Unset && s.finish[p] == Unset
    requires forall k :: 0 <= k < s.idx ==> ps[order[k]].arrival <= 0
    requires s.idx < |ps| ==> ps[order[s.idx]].arrival > 0
    ensures Valid(ps, order, s)
  {
    CountEmpty(s.remaining, Drained);
    assert Distinct(order[0..s.idx]);
    forall p | 0 <= p < |ps| ensures JobState(ps, order, s, p) {
      InSlice(order, |ps|, 0, s.idx, p);
    }
  }

  /**
   * One dispatch from s to t (the queue is non-empty): the head p runs for
   * min(2, remaining) units, the clock moves by the same amount, p's first
   * run is recorded if this is its first dispatch, the arrivals now due are
   * admitted behind the rest of the queue, and only then p goes back to the
   * tail if it still has work; otherwise its completion time is the new
   * clock and the finished count grows by one.
   */
  predicate IsDispatch(ps: seq<Process>, order: seq<nat>, s: RrState, t: RrState)
    requires IsPermutation(order, |ps|)
    requires s.queue != [] && s.queue[0] < |s.remaining| == |s.firstRun| == |s.finish|
  {
    var p := s.queue[0];
    var slice := t.time - s.time;
    && slice == Min(Quantum, s.remaining[p])
    && t.remaining == s.remaining[p := s.remaining[p] - slice]
    && t.firstRun == (if s.firstRun[p] == Unset then s.firstRun[p := s.time] else s.firstRun)
    && s.idx <= t.idx <= |order| == |ps|
    && t.queue == s.queue[1..] + order[s.idx..t.idx] + (if t.remaining[p] > 0 then [p] else [])
    && (forall k :: s.idx <= k < t.idx ==> ps[order[k]].arrival <= t.time)
    && (t.idx < |ps| ==> ps[order[t.idx]].arrival > t.time)
    && t.finish == (if t.remaining[p] == 0 then s.finish[p := t.time] else s.finish)
    && t.finished == s.finished + (if t.remaining[p] == 0 then 1 else 0)
  }

  /** The dispatch step of the main loop; it runs between one and two units. */
  method Dispatch(ps: seq<Process>, order: seq<nat>, s: RrState) returns (t: RrState)
    requires PositiveDurations(ps) && Valid(ps, order, s) && s.queue != []
    ensures Valid(ps, order, t)
    ensures IsDispatch(ps, order, s, t)
    ensures 1 <= t.time - s.time <= Quantum
    ensures 0 <= t.remaining[s.queue[0]] < s.remaining[s.queue[0]]
    ensures t == Step(ps, order, s)
  {
    var p := s.queue[0];
    assert p in s.queue && JobState(ps, order, s, p);
    var queue := s.queue[1..];
    var firstRun := s.firstRun;
    if firstRun[p] == Unset {
      firstRun := firstRun[p := s.time];
    }
    var slice := Min(Quantum, s.remaining[p]);
    var remaining := s.remaining[p := s.remaining[p] - slice];
    var time := s.time + slice;
    var idx;
    queue, idx := Admit(ps, order, queue, s.idx, time);
    var finish, finished := s.finish, s.finished;
    if remaining[p] > 0 {
      queue := queue + [p];
    } else {
      finish := finish[p := time];
      finished := finished + 1;
    }
    t := RrState(time, queue, idx, remaining, firstRun, finish, finished);
    DispatchKeepsValid(ps, order, s, t);
    DispatchUnique(ps, order, s, t, Step(ps, order, s));
  }

  /** After a dispatch the queue still holds valid indices, none twice. */
  lemma DispatchQueue(ps: seq<Process>, order: seq<nat>, s: RrState, t: RrState)
    requires PositiveDurations(ps) && Valid(ps, order, s) && s.queue != []
    requires IsDispatch(ps, order, s, t)
    ensures forall k :: 0 <= k < |t.queue| ==> t.queue[k] < |ps|
    ensures Distinct(t.queue)
  {
    var n := |ps|;
    var p := s.queue[0];
    assert p in s.queue && JobState(ps, order, s, p);
    var rest := s.queue[1..];
    var arrivals := order[s.idx..t.idx];
    // The old tail holds admitted processes, the new arrivals were not
    // admitted before, and p is in neither.
    forall k | 0 <= k < |rest| ensures rest[k] !in arrivals {
      assert rest[k] in s.queue;
      assert JobState(ps, order, s, rest[k]);
      InSlice(order, n, s.idx, t.idx, rest[k]);
    }
    DistinctConcat(rest, arrivals);
    assert p !in rest by {
      forall k | 0 <= k < |rest| ensures rest[k] != p {
        assert s.queue[k + 1] != s.queue[0];
      }
    }
    InSlice(order, n, s.idx, t.idx, p);
    if t.remaining[p] > 0 {
      DistinctConcat(rest + arrivals, [p]);
    } else {
      assert t.queue == rest + arrivals;
    }
  }

  /** After a dispatch every process is still in a consistent state. */
  lemma DispatchJob(ps: seq<Process>, order: seq<nat>, s: RrState, t: RrState, q: nat)
    requires PositiveDurations(ps) && Valid(ps, order, s) && s.queue != []
    requires IsDispatch(ps, order, s, t) && q < |ps|
    ensures JobState(ps, order, t, q)
  {
    var n := |ps|;
    var p := s.queue[0];
    assert p in s.queue && JobState(ps, order, s, p);
    assert JobState(ps, order, s, q);
    var rest := s.queue[1..];
    assert s.queue == [p] + rest;
    InSlice(order, n, s.idx, t.idx, q);
    if q == p {
      assert p !in rest by {
        forall k | 0 <= k < |rest| ensures rest[k] != p {
          assert s.queue[k + 1] != s.queue[0];
        }
      }
    } else {
      assert q in rest <==> q in s.queue;
    }
  }

  /** The facts a dispatch establishes about its new state make that state valid. */
  lemma DispatchKeepsValid(ps: seq<Process>, order: seq<nat>, s: RrState, t: RrState)
    requires PositiveDurations(ps) && Valid(ps, order, s) && s.queue != []
    requires IsDispatch(ps, order, s, t)
    ensures Valid(ps, order, t)
  {
    var p := s.queue[0];
    assert p in s.queue && JobState(ps, order, s, p);
    CountUpdate(s.remaining, p, t.remaining[p], Drained);
    DispatchQueue(ps, order, s, t);
    forall q | 0 <= q < |ps| ensures JobState(ps, order, t, q) {
      DispatchJob(ps, order, s, t, q);
    }
  }

  /**
   * The idle branch (the queue is empty): if some process is still to be
   * admitted, the clock jumps to its arrival and every arrival due by then is
   * admitted; with nothing left to admit the state is unchanged.
   */
  method FastForward(ps: seq<Process>, order: seq<nat>, s: RrState) returns (t: RrState)
    requires PositiveDurations(ps) && Valid(ps, order, s) && s.queue == []
    ensures Valid(ps, order, t)
    ensures s.idx == |ps| ==> t == s
    ensures s.idx < |ps| ==>
      && t.time == ps[order[s.idx]].arrival > s.time
      && s.idx < t.idx
      && t.queue == order[s.idx..t.idx]
      && t == s.(time := t.time, queue := t.queue, idx := t.idx)
    ensures t == Step(ps, order, s)
  {
    t := s;
    if s.idx < |ps| {
      var time := ps[order[s.idx]].arrival;
      var queue, idx := Admit(ps, order, [], s.idx, time);
      t := s.(time := time, queue := queue, idx := idx);
      FastForwardValid(ps, order, s, t);
    }
  }

  /** Jumping to the next arrival and admitting what is due then keeps the state valid. */
  lemma FastForwardValid(ps: seq<Process>, order: seq<nat>, s: RrState, t: RrState)
    requires PositiveDurations(ps) && Valid(ps, order, s) && s.queue == [] && s.idx < |ps|
    requires t.time == ps[order[s.idx]].arrival
    requires s.idx <= t.idx <= |ps| && t.queue == [] + order[s.idx..t.idx]
    requires forall k :: s.idx <= k < t.idx ==> ps[order[k]].arrival <= t.time
    requires t.idx < |ps| ==> ps[order[t.idx]].arrival > t.time
    requires t == s.(time := t.time, queue := t.queue, idx := t.idx)
    ensures Valid(ps, order, t)
  {
    assert Distinct(order[s.idx..t.idx]);
    forall q | 0 <= q < |ps| ensures JobState(ps, order, t, q) {
      assert JobState(ps, order, s, q);
      InSlice(order, |ps|, s.idx, t.idx, q);
    }
  }

  /** An unfinished process outside an empty queue has not been admitted, so the cursor has not reached the end. */
  lemma WaitingForArrival(ps: seq<Process>, order: seq<nat>, s: RrState)
    requires Valid(ps, order, s) && s.queue == [] && s.finished < |ps|
    ensures s.idx < |ps|
  {
    CountFull(s.remaining, Drained);
    var p :| 0 <= p < |ps| && !Drained(s.remaining[p]);
    assert JobState(ps, order, s, p);
  }

  /**
   * One iteration of the main loop as a value: a dispatch when the queue
   * holds a process, otherwise the jump to the next arrival, or no change
   * when nothing is left to admit.
   */
  ghost function Step(ps: seq<Process>, order: seq<nat>, s: RrState): (t: RrState)
    requires PositiveDurations(ps) && Valid(ps, order, s)
    ensures Valid(ps, order, t)
    ensures s.queue != [] ==> IsDispatch(ps, order, s, t)
    ensures s.queue == [] && s.idx == |ps| ==> t == s
    ensures s.queue == [] && s.idx < |ps| ==>
      && t.time == ps[order[s.idx]].arrival
      && t.idx == NextPending(ps, order, s.idx, t.time)
      && t == s.(time := t.time, queue := order[s.idx..t.idx], idx := t.idx)
  {
    if s.queue != [] then
      DispatchExists(ps, order, s);
      var t :| IsDispatch(ps, order, s, t);
      DispatchKeepsValid(ps, order, s, t);
      t
    else if s.idx < |ps| then
      var time := ps[order[s.idx]].arrival;
      var idx := NextPending(ps, order, s.idx, time);
      var t := s.(time := time, queue := [] + order[s.idx..idx], idx := idx);
      FastForwardValid(ps, order, s, t);
      t
    else
      s
  }

  /** Some state is the dispatch successor of s. */
  lemma DispatchExists(ps: seq<Process>, order: seq<nat>, s: RrState)
    requires PositiveDurations(ps) && Valid(ps, order, s) && s.queue != []
    ensures exists t :: IsDispatch(ps, order, s, t)
  {
    var p := s.queue[0];
    var slice := Min(Quantum, s.remaining[p]);
    var remaining := s.remaining[p := s.remaining[p] - slice];
    var time := s.time + slice;
    var idx := NextPending(ps, order, s.idx, time);
    var firstRun := if s.firstRun[p] == Unset then s.firstRun[p := s.time] else s.firstRun;
    var queue := s.queue[1..] + order[s.idx..idx] + (if remaining[p] > 0 then [p] else []);
    var finish := if remaining[p] == 0 then s.finish[p := time] else s.finish;
    var finished := s.finished + (if remaining[p] == 0 then 1 else 0);
    var t := RrState(time, queue, idx, remaining, firstRun, finish, finished);
    assert IsDispatch(ps, order, s, t);
  }

  /** The dispatch successor is unique. */
  lemma DispatchUnique(ps: seq<Process>, order: seq<nat>, s: RrState, t1: RrState, t2: RrState)
    requires IsPermutation(order, |ps|)
    requires s.queue != [] && s.queue[0] < |s.remaining| == |s.firstRun| == |s.finish|
    requires IsDispatch(ps, order, s, t1) && IsDispatch(ps, order, s, t2)
    ensures t1 == t2
  {
    NextPendingUnique(ps, order, s.idx, t1.time, t1.idx);
    NextPendingUnique(ps, order, s.idx, t2.time, t2.idx);
  }

  /**
   * While some process is unfinished, a step strictly lowers the remaining
   * service plus the number of processes still to be admitted, which is
   * never negative.
   */
  lemma StepProgress(ps: seq<Process>, order: seq<nat>, s: RrState)
    requires PositiveDurations(ps) && Valid(ps, order, s) && s.finished < |ps|
    ensures 0 <= Sum(Step(ps, order, s).remaining) + (|ps| - Step(ps, order, s).idx)
              < Sum(s.remaining) + (|ps| - s.idx)
  {
    var t := Step(ps, order, s);
    RemainingNonNegative(ps, order, t);
    if s.queue != [] {
      var p := s.queue[0];
      assert p in s.queue && JobState(ps, order, s, p);
      SumUpdate(s.remaining, p, t.remaining[p]);
    } else {
      WaitingForArrival(ps, order, s);
      assert ps[order[s.idx]].arrival <= t.time;
    }
  }

  /** Remaining service is never negative, nor is its sum. */
  lemma RemainingNonNegative(ps: seq<Process>, order: seq<nat>, s: RrState)
    requires Valid(ps, order, s)
    ensures Sum(s.remaining) >= 0
  {
    forall p | 0 <= p < |ps| ensures s.remaining[p] >= 0 {
      assert JobState(ps, order, s, p);
    }
    SumNonNegative(s.remaining);
  }

  /** With every process finished, each has a first run and a completion time. */
  lemma AllCompleted(ps: seq<Process>, order: seq<nat>, s: RrState)
    requires PositiveDurations(ps) && Valid(ps, order, s) && s.finished == |ps|
    ensures forall p :: 0 <= p < |ps| ==> s.firstRun[p] != Unset && s.finish[p] != Unset
  {
    CountFull(s.remaining, Drained);
    forall p | 0 <= p < |ps| ensures s.firstRun[p] != Unset && s.finish[p] != Unset {
      assert JobState(ps, order, s, p);
    }
  }

  /**
   * The main loop from s as a value: steps until every process has
   * finished. The state reached has a first run and a completion time for
   * every process.
   */
  ghost function Run(ps: seq<Process>, order: seq<nat>, s: RrState): (r: RrState)
    requires PositiveDurations(ps) && Valid(ps, order, s)
    ensures Valid(ps, order, r) && r.finished == |ps|
    ensures forall p :: 0 <= p < |ps| ==> r.firstRun[p] != Unset && r.finish[p] != Unset
    decreases Sum(s.remaining) + (|ps| - s.idx)
  {
    if s.finished < |ps| then
      StepProgress(ps, order, s);
      Run(ps, order, Step(ps, order, s))
    else
      AllCompleted(ps, order, s);
      s
  }

  /** Run from a state that is not final is Run from its successor. */
  lemma RunStep(ps: seq<Process>, order: seq<nat>, s: RrState, t: RrState)
    requires PositiveDurations(ps) && Valid(ps, order, s) && s.finished < |ps|
    requires t == Step(ps, order, s)
    ensures Valid(ps, order, t) && Run(ps, order, s) == Run(ps, order, t)
  {
  }

  /** Run from a final state is that state. */
  lemma RunDone(ps: seq<Process>, order: seq<nat>, s: RrState)
    requires PositiveDurations(ps) && Valid(ps, order, s) && s.finished == |ps|
    ensures Run(ps, order, s) == s
  {
  }

  /**
   * Run from a state of a trace, each of whose states but the last is
   * unfinished and steps to the next, is the last state of the trace.
   */
  lemma {:induction false} RunAlong(ps: seq<Process>, order: seq<nat>, trace: seq<RrState>, i: nat)
    requires PositiveDurations(ps) && i < |trace| && Valid(ps, order, trace[i])
    requires forall k :: i <= k < |trace| - 1 ==> trace[k].finished < |ps|
    requires forall k :: i <= k < |trace| - 1 ==>
      Valid(ps, order, trace[k]) ==> Step(ps, order, trace[k]) == trace[k + 1]
    requires trace[|trace| - 1].finished == |ps|
    ensures Run(ps, order, trace[i]) == trace[|trace| - 1]
    decreases |trace| - i
  {
    if i == |trace| - 1 {
      RunDone(ps, order, trace[i]);
    } else {
      RunStep(ps, order, trace[i], trace[i + 1]);
      RunAlong(ps, order, trace, i + 1);
    }
  }

  /**
   * What the simulation reports, by input index: turnaround is completion
   * minus arrival, response is first run minus arrival, and wait is
   * turnaround minus duration, all taken from the state the main loop ends
   * in when started from the initial state.
   */
  ghost predicate IsRoundRobinOutcome(ps: seq<Process>, order: seq<nat>, m: Metrics)
    requires PositiveDurations(ps) && IsPermutation(order, |ps|)
  {
    var r := Run(ps, order, Initial(ps, order));
    && m.HasLength(|ps|)
    && forall i :: 0 <= i < |ps| ==>
         && m.turnaround[i] == r.finish[i] - ps[i].arrival
         && m.response[i] == r.firstRun[i] - ps[i].arrival
         && m.wait[i] == m.turnaround[i] - ps[i].duration
  }

  /**
   * The metrics, by original index (the final loop): turnaround is completion
   * minus arrival, response is first run minus arrival, wait is turnaround
   * minus duration.
   */
  method DeriveMetrics(ps: seq<Process>, firstRun: seq<int>, finish: seq<int>) returns (m: Metrics)
    requires |firstRun| == |ps| && |finish| == |ps|
    ensures m.HasLength(|ps|)
    ensures forall i :: 0 <= i < |ps| ==>
      && m.turnaround[i] == finish[i] - ps[i].arrival
      && m.response[i] == firstRun[i] - ps[i].arrival
      && m.wait[i] == m.turnaround[i] - ps[i].duration
  {
    var response, wait, turnaround := [], [], [];
    for i := 0 to |ps|
      invariant |response| == i && |wait| == i && |turnaround| == i
      invariant forall k :: 0 <= k < i ==>
        && turnaround[k] == finish[k] - ps[k].arrival
        && response[k] == firstRun[k] - ps[k].arrival
        && wait[k] == turnaround[k] - ps[k].duration
    {
      turnaround := turnaround + [finish[i] - ps[i].arrival];
      response := response + [firstRun[i] - ps[i].arrival];
      wait := wait + [turnaround[i] - ps[i].duration];
    }
    m := Metrics(response, wait, turnaround);
  }

  /**
   * The Round-Robin simulation. order is the index order the sort by arrival
   * produced (any order of equal arrivals). The metrics are those of the
   * state the loop ends in, where every process has completed; turnaround is
   * wait plus duration, and response is never negative and never exceeds
   * wait, that is, a process first runs no earlier than its arrival and at
   * least its duration before its completion.
   */
  method RoundRobin(ps: seq<Process>, order: seq<nat>) returns (m: Metrics)
    requires PositiveDurations(ps) && IsArrivalOrder(ps, order)
    ensures IsRoundRobinOutcome(ps, order, m)
    ensures forall i :: 0 <= i < |ps| ==> m.turnaround[i] == m.wait[i] + ps[i].duration
    ensures forall i :: 0 <= i < |ps| ==> 0 <= m.response[i] <= m.wait[i]
  {
    var s := Start(ps, order);
    while s.finished < |ps|
      invariant Valid(ps, order, s)
      invariant Run(ps, order, s) == Run(ps, order, Initial(ps, order))
      decreases Sum(s.remaining) + (|ps| - s.idx)
    {
      StepProgress(ps, order, s);
      if s.queue != [] {
        s := Dispatch(ps, order, s);
      } else {
        WaitingForArrival(ps, order, s);
        s := FastForward(ps, order, s);
      }
    }
    assert Run(ps, order, s) == s;
    m := DeriveMetrics(ps, s.firstRun, s.finish);
    forall i | 0 <= i < |ps| ensures 0 <= m.response[i] <= m.wait[i] {
      assert JobState(ps, order, s, i);
    }
  }

  /** Round-Robin on the order a stable sort by arrival yields, one of the orders the sort may produce. */
  method RoundRobinInStableOrder(ps: seq<Process>) returns (order: seq<nat>, m: Metrics)
    requires PositiveDurations(ps)
    ensures IsStableArrivalOrder(ps, order) && IsRoundRobinOutcome(ps, order, m)
  {
    order := StableArrivalOrder(ps);
    StableIsArrivalOrder(ps, order);
    m := RoundRobin(ps, order);
  }

  /** The sample input of two equal jobs. */
  const TwoJobs: seq<Process> := [Process(0, 4), Process(0, 4)]

  /** The two orders a sort by arrival may give TwoJobs: as given, and with the tie swapped. */
  const InputOrder: seq<nat> := [0, 1]
  const SwappedOrder: seq<nat> := [1, 0]

  /** The states the loop passes through on TwoJobs, before and after each of its four dispatches. */
  const InputTrace: seq<RrState> := [
    RrState(0, [0, 1], 2, [4, 4], [Unset, Unset], [Unset, Unset], 0),
    RrState(2, [1, 0], 2, [2, 4], [0, Unset], [Unset, Unset], 0),
    RrState(4, [0, 1], 2, [2, 2], [0, 2], [Unset, Unset], 0),
    RrState(6, [1], 2, [0, 2], [0, 2], [6, Unset], 1),
    RrState(8, [], 2, [0, 0], [0, 2], [6, 8], 2)]
  const SwappedTrace: seq<RrState> := [
    RrState(0, [1, 0], 2, [4, 4], [Unset, Unset], [Unset, Unset], 0),
    RrState(2, [0, 1], 2, [4, 2], [Unset, 0], [Unset, Unset], 0),
    RrState(4, [1, 0], 2, [2, 2], [2, 0], [Unset, Unset], 0),
    RrState(6, [0], 2, [2, 0], [2, 0], [Unset, 6], 1),
    RrState(8, [], 2, [0, 0], [2, 0], [8, 6], 2)]

  /** In input order, [0, 1], is an arrival order of TwoJobs, and Start admits both jobs at time 0. */
  lemma InputStart()
    ensures IsArrivalOrder(TwoJobs, InputOrder)
    ensures Initial(TwoJobs, InputOrder) == InputTrace[0]
  {
    assert 0 in InputOrder && 1 in InputOrder;
    assert NextPending(TwoJobs, InputOrder, 0, 0) == 2 by {
      assert NextPending(TwoJobs, InputOrder, 2, 0) == 2;
      assert NextPending(TwoJobs, InputOrder, 1, 0) == 2;
    }
    assert Durations(TwoJobs) == [4, 4];
  }

  /** In swapped order, [1, 0], is an arrival order of TwoJobs, and Start admits both jobs at time 0. */
  lemma SwappedStart()
    ensures IsArrivalOrder(TwoJobs, SwappedOrder)
    ensures Initial(TwoJobs, SwappedOrder) == SwappedTrace[0]
  {
    assert 0 in SwappedOrder && 1 in SwappedOrder;
    assert NextPending(TwoJobs, SwappedOrder, 0, 0) == 2 by {
      assert NextPending(TwoJobs, SwappedOrder, 2, 0) == 2;
      assert NextPending(TwoJobs, SwappedOrder, 1, 0) == 2;
    }
    assert Durations(TwoJobs) == [4, 4];
  }

  /** Each dispatch on TwoJobs in input order leads from one trace state to the next. */
  lemma InputDispatch(i: nat, t: RrState)
    requires i < 4
    requires IsPermutation(InputOrder, 2)
    requires IsDispatch(TwoJobs, InputOrder, InputTrace[i], t)
    ensures t == InputTrace[i + 1]
  {
  }

  /** Each dispatch on TwoJobs in swapped order leads from one trace state to the next. */
  lemma SwappedDispatch(i: nat, t: RrState)
    requires i < 4
    requires IsPermutation(SwappedOrder, 2)
    requires IsDispatch(TwoJobs, SwappedOrder, SwappedTrace[i], t)
    ensures t == SwappedTrace[i + 1]
  {
  }

  /** In input order, a loop step from a valid trace state, other than the last, leads to the next one. */
  lemma InputStep(i: nat)
    requires i < 4 && Valid(TwoJobs, InputOrder, InputTrace[i])
    ensures InputTrace[i].finished < 2
    ensures Step(TwoJobs, InputOrder, InputTrace[i]) == InputTrace[i + 1]
  {
    assert InputTrace[i].queue != [];
    InputDispatch(i, Step(TwoJobs, InputOrder, InputTrace[i]));
  }

  /** In swapped order, a loop step from a valid trace state, other than the last, leads to the next one. */
  lemma SwappedStep(i: nat)
    requires i < 4 && Valid(TwoJobs, SwappedOrder, SwappedTrace[i])
    ensures SwappedTrace[i].finished < 2
    ensures Step(TwoJobs, SwappedOrder, SwappedTrace[i]) == SwappedTrace[i + 1]
  {
    assert SwappedTrace[i].queue != [];
    SwappedDispatch(i, Step(TwoJobs, SwappedOrder, SwappedTrace[i]));
  }

  /** In input order the loop runs from the initial state to the last trace state. */
  lemma InputRun()
    ensures IsArrivalOrder(TwoJobs, InputOrder)
    ensures Run(TwoJobs, InputOrder, Initial(TwoJobs, InputOrder)) == InputTrace[4]
  {
    InputStart();
    forall k | 0 <= k < 4
      ensures InputTrace[k].finished < 2
      ensures Valid(TwoJobs, InputOrder, InputTrace[k]) ==> Step(TwoJobs, InputOrder, InputTrace[k]) == InputTrace[k + 1]
    {
      if Valid(TwoJobs, InputOrder, InputTrace[k]) {
        InputStep(k);
      }
    }
    RunAlong(TwoJobs, InputOrder, InputTrace, 0);
  }

  /** In swapped order the loop runs from the initial state to the last trace state. */
  lemma SwappedRun()
    ensures IsArrivalOrder(TwoJobs, SwappedOrder)
    ensures Run(TwoJobs, SwappedOrder, Initial(TwoJobs, SwappedOrder)) == SwappedTrace[4]
  {
    SwappedStart();
    forall k | 0 <= k < 4
      ensures SwappedTrace[k].finished < 2
      ensures Valid(TwoJobs, SwappedOrder, SwappedTrace[k]) ==> Step(TwoJobs, SwappedOrder, SwappedTrace[k]) == SwappedTrace[k + 1]
    {
      if Valid(TwoJobs, SwappedOrder, SwappedTrace[k]) {
        SwappedStep(k);
      }
    }
    RunAlong(TwoJobs, SwappedOrder, SwappedTrace, 0);
  }

  /**
   * Two jobs (0, 4) and (0, 4) in the order [0, 1]: the dispatches run P0
   * over 0-2, P1 over 2-4, P0 over 4-6 (done at 6) and P1 over 6-8 (done at
   * 8); response is 0 and 2, wait 2 and 4, turnaround 6 and 8.
   */
  method TwoEqualJobs() returns (m: Metrics)
    ensures m == Metrics([0, 2], [2, 4], [6, 8])
  {
    InputRun();
    m := RoundRobin(TwoJobs, InputOrder);
    assert m.response[0] == 0 && m.response[1] == 2;
    assert m.turnaround[0] == 6 && m.turnaround[1] == 8;
  }

  /**
   * The same jobs in the order [1, 0], which the unstable sort may also
   * produce: the two processes trade places and so do their metrics, so
   * only the totals agree with TwoEqualJobs.
   */
  method TwoEqualJobsSwapped() returns (m: Metrics)
    ensures m == Metrics([2, 0], [4, 2], [8, 6])
  {
    SwappedRun();
    m := RoundRobin(TwoJobs, SwappedOrder);
    assert m.response[0] == 2 && m.response[1] == 0;
    assert m.turnaround[0] == 8 && m.turnaround[1] == 6;
  }
}
