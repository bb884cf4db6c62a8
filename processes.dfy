/** The shared input and output of the three scheduling simulators. */
module Processes {

  /** One record of the process list: when it arrives and how long it runs. */
  datatype Process = Process(arrival: int, duration: int)

  /** The three per-process timing vectors a policy produces. */
  datatype Metrics = Metrics(response: seq<int>, wait: seq<int>, turnaround: seq<int>)
  {
    predicate HasLength(n: nat) {
      |response| == n && |wait| == n && |turnaround| == n
    }
  }

  /** Every process needs at least one unit of service. */
  predicate PositiveDurations(ps: seq<Process>) {
    forall i :: 0 <= i < |ps| ==> ps[i].duration >= 1
  }

  /** No index occurs twice. */
  predicate Distinct(s: seq<nat>) {
    forall k, l :: 0 <= k < l < |s| ==> s[k] != s[l]
  }

  /** Joining two index lists with no common element keeps them duplicate-free. */
  lemma DistinctConcat(a: seq<nat>, b: seq<nat>)
    requires Distinct(a) && Distinct(b)
    requires forall k :: 0 <= k < |a| ==> a[k] !in b
    ensures Distinct(a + b)
  {
    forall k, l | 0 <= k < l < |a + b| ensures (a + b)[k] != (a + b)[l] {
      if k < |a| && l >= |a| {
        assert (a + b)[l] == b[l - |a|];
        assert a[k] !in b;
      }
    }
  }

  /** order lists every index of a collection of n items exactly once. */
  predicate IsPermutation(order: seq<nat>, n: nat) {
    && |order| == n
    && (forall k :: 0 <= k < n ==> order[k] < n)
    && Distinct(order)
    && (forall j :: 0 <= j < n ==> j in order)
  }

  /** Durations of ps listed in the order given by run. */
  function DurationsIn(ps: seq<Process>, run: seq<nat>): (d: seq<int>)
    requires forall k :: 0 <= k < |run| ==> run[k] < |ps|
    ensures |d| == |run|
    ensures forall k :: 0 <= k < |run| ==> d[k] == ps[run[k]].duration
  {
    seq(|run|, k requires 0 <= k < |run| => ps[run[k]].duration)
  }

  /** Durations of ps in input order. */
  function Durations(ps: seq<Process>): (d: seq<int>)
    ensures |d| == |ps|
    ensures forall k :: 0 <= k < |ps| ==> d[k] == ps[k].duration
  {
    seq(|ps|, k requires 0 <= k < |ps| => ps[k].duration)
  }

  /** Non-preemptive schedules: the k-th dispatched job starts at arrival + response. */
  function StartTime(ps: seq<Process>, run: seq<nat>, m: Metrics, k: nat): (t: int)
    requires k < |run| && run[k] < |ps| && k < |m.response|
  {
    ps[run[k]].arrival + m.response[k]
  }

  /** The k-th dispatched job completes at arrival + turnaround. */
  function CompletionTime(ps: seq<Process>, run: seq<nat>, m: Metrics, k: nat): (t: int)
    requires k < |run| && run[k] < |ps| && k < |m.turnaround|
  {
    ps[run[k]].arrival + m.turnaround[k]
  }

  /** Sum of a sequence, accumulated front to back. */
  function Sum(s: seq<int>): (total: int) {
    if s == [] then 0 else Sum(s[..|s| - 1]) + s[|s| - 1]
  }

  lemma {:induction false} SumNonNegative(s: seq<int>)
    requires forall k :: 0 <= k < |s| ==> s[k] >= 0
    ensures Sum(s) >= 0
  {
    if s != [] {
      SumNonNegative(s[..|s| - 1]);
    }
  }

  /** Replacing one element changes the sum by the difference. */
  lemma {:induction false} SumUpdate(s: seq<int>, i: nat, v: int)
    requires i < |s|
    ensures Sum(s[i := v]) == Sum(s) - s[i] + v
  {
    var last := |s| - 1;
    if i < last {
      assert s[i := v][..last] == s[..last][i := v];
      SumUpdate(s[..last], i, v);
    } else {
      assert s[i := v][..last] == s[..last];
    }
  }

  /** Sums are additive element by element. */
  lemma {:induction false} SumPointwise(a: seq<int>, b: seq<int>, c: seq<int>)
    requires |a| == |b| == |c|
    requires forall k :: 0 <= k < |a| ==> a[k] == b[k] + c[k]
    ensures Sum(a) == Sum(b) + Sum(c)
  {
    if a != [] {
      var last := |a| - 1;
      SumPointwise(a[..last], b[..last], c[..last]);
    }
  }

  /** Number of elements of s that satisfy f. */
  function Count<T>(s: seq<T>, f: T -> bool): (c: nat)
    ensures c <= |s|
  {
    if s == [] then 0 else Count(s[..|s| - 1], f) + (if f(s[|s| - 1]) then 1 else 0)
  }

  /** Replacing one element moves the count by at most the change in that element's status. */
  lemma {:induction false} CountUpdate<T>(s: seq<T>, i: nat, v: T, f: T -> bool)
    requires i < |s|
    ensures Count(s[i := v], f) + (if f(s[i]) then 1 else 0) == Count(s, f) + (if f(v) then 1 else 0)
  {
    var last := |s| - 1;
    if i < last {
      assert s[i := v][..last] == s[..last][i := v];
      CountUpdate(s[..last], i, v, f);
    } else {
      assert s[i := v][..last] == s[..last];
    }
  }

  /** The count is the full length exactly when every element satisfies f. */
  lemma {:induction false} CountFull<T>(s: seq<T>, f: T -> bool)
    ensures Count(s, f) == |s| <==> forall k :: 0 <= k < |s| ==> f(s[k])
  {
    if s != [] {
      var last := |s| - 1;
      CountFull(s[..last], f);
      assert forall k :: 0 <= k < last ==> s[..last][k] == s[k];
    }
  }

  /** The count is zero exactly when no element satisfies f. */
  lemma {:induction false} CountEmpty<T>(s: seq<T>, f: T -> bool)
    ensures Count(s, f) == 0 <==> forall k :: 0 <= k < |s| ==> !f(s[k])
  {
    if s != [] {
      var last := |s| - 1;
      CountEmpty(s[..last], f);
      assert forall k :: 0 <= k < last ==> s[..last][k] == s[k];
    }
  }
}
