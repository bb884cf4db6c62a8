/**
 * The averages printed after each policy: the three per-process vectors are
 * summed and each sum is divided by the number of processes.
 */
module Averages {
  import opened Processes
  import Fcfs
  import Sjf

  /** The three means, in the order of the vectors they come from. */
  datatype Means = Means(response: real, wait: real, turnaround: real)

  datatype Option<T> = None | Some(value: T)

  /** Sum of a prefix grows by the next element. */
  lemma SumPrefix(s: seq<int>, i: nat)
    requires i < |s|
    ensures Sum(s[..i + 1]) == Sum(s[..i]) + s[i]
  {
    assert s[..i + 1][..i] == s[..i];
  }

  /**
   * The three totals, accumulated in one pass over the processes; the
   * length of the response vector bounds the pass for all three.
   */
  method Totals(m: Metrics) returns (response: int, wait: int, turnaround: int)
    requires m.HasLength(|m.response|)
    ensures response == Sum(m.response) && wait == Sum(m.wait) && turnaround == Sum(m.turnaround)
  {
    var n := |m.response|;
    response, wait, turnaround := 0, 0, 0;
    for i := 0 to n
      invariant response == Sum(m.response[..i])
      invariant wait == Sum(m.wait[..i])
      invariant turnaround == Sum(m.turnaround[..i])
    {
      SumPrefix(m.response, i);
      SumPrefix(m.wait, i);
      SumPrefix(m.turnaround, i);
      response := response + m.response[i];
      wait := wait + m.wait[i];
      turnaround := turnaround + m.turnaround[i];
    }
    assert m.response[..n] == m.response && m.wait[..n] == m.wait && m.turnaround[..n] == m.turnaround;
  }

  /**
   * The means of the three vectors. With no processes the division by zero
   * yields no number, which is None here.
   */
  method ComputeMeans(m: Metrics) returns (r: Option<Means>)
    requires m.HasLength(|m.response|)
    ensures r.None? <==> |m.response| == 0
    ensures r.Some? ==>
      var n := |m.response| as real;
      && r.value.response * n == Sum(m.response) as real
      && r.value.wait * n == Sum(m.wait) as real
      && r.value.turnaround * n == Sum(m.turnaround) as real
  {
    var response, wait, turnaround := Totals(m);
    var divisor := |m.response|;
    if divisor == 0 {
      r := None;
    } else {
      r := Some(Means(response as real / divisor as real, wait as real / divisor as real,
                      turnaround as real / divisor as real));
    }
  }

  /** Pointwise no larger means a sum no larger. */
  lemma {:induction false} SumMonotone(a: seq<int>, b: seq<int>)
    requires |a| == |b|
    requires forall k :: 0 <= k < |a| ==> a[k] <= b[k]
    ensures Sum(a) <= Sum(b)
  {
    if a != [] {
      var last := |a| - 1;
      SumMonotone(a[..last], b[..last]);
    }
  }

  /** Sums split over concatenation. */
  lemma {:induction false} SumConcat(a: seq<int>, b: seq<int>)
    ensures Sum(a + b) == Sum(a) + Sum(b)
  {
    if b != [] {
      var last := |b| - 1;
      assert (a + b)[..|a + b| - 1] == a + b[..last];
      SumConcat(a, b[..last]);
    } else {
      assert a + b == a;
    }
  }

  /** Taking the largest index out of a permutation leaves a permutation of the others. */
  lemma RemoveLast(order: seq<nat>, n: nat, j: nat)
    requires n > 0 && IsPermutation(order, n)
    requires j < |order| && order[j] == n - 1
    ensures IsPermutation(order[..j] + order[j + 1..], n - 1)
  {
    var rest := order[..j] + order[j + 1..];
    forall k | 0 <= k < |rest| ensures rest[k] < n - 1 {
      if k < j { assert rest[k] == order[k]; } else { assert rest[k] == order[k + 1]; }
    }
    forall x | 0 <= x < n - 1 ensures x in rest {
      assert x in order;
      var k :| 0 <= k < |order| && order[k] == x;
      if k < j { assert rest[k] == x; } else { assert rest[k - 1] == x; }
    }
    forall k, l | 0 <= k < l < |rest| ensures rest[k] != rest[l] {
      var k' := if k < j then k else k + 1;
      var l' := if l < j then l else l + 1;
      assert rest[k] == order[k'] && rest[l] == order[l'];
    }
  }

  /** Durations along order, split around position j. */
  lemma SplitAt(ps: seq<Process>, order: seq<nat>, j: nat)
    requires j < |order| && forall k :: 0 <= k < |order| ==> order[k] < |ps|
    ensures Sum(DurationsIn(ps, order)) ==
      Sum(DurationsIn(ps, order[..j])) + ps[order[j]].duration + Sum(DurationsIn(ps, order[j + 1..]))
  {
    var left, right := DurationsIn(ps, order[..j]), DurationsIn(ps, order[j + 1..]);
    assert DurationsIn(ps, order) == left + [ps[order[j]].duration] + right;
    SumConcat(left + [ps[order[j]].duration], right);
    SumConcat(left, [ps[order[j]].duration]);
    assert Sum([ps[order[j]].duration]) == ps[order[j]].duration by {
      assert [ps[order[j]].duration][..0] == [];
    }
  }

  /**
   * Whatever order a policy runs the processes in, the service time it hands
   * out in total is the sum of all durations.
   */
  lemma {:induction false} TotalServiceInAnyOrder(ps: seq<Process>, order: seq<nat>)
    requires IsPermutation(order, |ps|)
    ensures Sum(DurationsIn(ps, order)) == Sum(Durations(ps))
  {
    var n := |ps|;
    if n > 0 {
      var last := n - 1;
      assert last in order;
      var j :| 0 <= j < |order| && order[j] == last;
      var rest := order[..j] + order[j + 1..];
      RemoveLast(order, n, j);
      TotalServiceInAnyOrder(ps[..last], rest);
      DropLast(ps, order, j);
      DurationsOfInit(ps);
      SplitAt(ps, order, j);
    }
  }

  /** The step of TotalServiceInAnyOrder: the order without position j loses that duration. */
  lemma DropLast(ps: seq<Process>, order: seq<nat>, j: nat)
    requires |ps| > 0 && j < |order|
    requires forall k :: 0 <= k < |order| ==> k != j ==> order[k] < |ps| - 1
    ensures Sum(DurationsIn(ps[..|ps| - 1], order[..j] + order[j + 1..])) ==
      Sum(DurationsIn(ps, order[..j])) + Sum(DurationsIn(ps, order[j + 1..]))
  {
    var init := ps[..|ps| - 1];
    var rest := order[..j] + order[j + 1..];
    var left, right := DurationsIn(ps, order[..j]), DurationsIn(ps, order[j + 1..]);
    forall k | 0 <= k < |rest| ensures rest[k] < |init| && ps[rest[k]] == init[rest[k]] {
      if k < j { assert rest[k] == order[k]; } else { assert rest[k] == order[k + 1]; }
    }
    var d := DurationsIn(init, rest);
    forall k | 0 <= k < |d| ensures d[k] == (left + right)[k] {
      if k < j { assert rest[k] == order[k]; } else { assert rest[k] == order[k + 1]; }
    }
    assert d == left + right;
    SumConcat(left, right);
  }

  /** The durations of all processes are those of all but the last, then the last. */
  lemma DurationsOfInit(ps: seq<Process>)
    requires |ps| > 0
    ensures Sum(Durations(ps)) == Sum(Durations(ps[..|ps| - 1])) + ps[|ps| - 1].duration
  {
    assert Durations(ps)[..|ps| - 1] == Durations(ps[..|ps| - 1]);
  }

  /**
   * FCFS: mean response equals mean wait, and mean turnaround exceeds mean
   * wait by the mean duration.
   */
  lemma FcfsTotals(ps: seq<Process>, order: seq<nat>, m: Metrics)
    requires Fcfs.IsFcfsSchedule(ps, order, m)
    ensures Sum(m.response) == Sum(m.wait)
    ensures Sum(m.turnaround) == Sum(m.wait) + Sum(Durations(ps))
  {
    forall k | 0 <= k < |ps| ensures m.response[k] == m.wait[k] + 0
      && m.turnaround[k] == m.wait[k] + DurationsIn(ps, order)[k] {
      assert Fcfs.FcfsEntry(ps, order, m.response, m.wait, m.turnaround, k);
    }
    SumPointwise(m.response, m.wait, seq(|ps|, _ => 0));
    SumZero(|ps|);
    SumPointwise(m.turnaround, m.wait, DurationsIn(ps, order));
    TotalServiceInAnyOrder(ps, order);
  }

  /** SJF: the same relations between the totals as for FCFS. */
  lemma SjfTotals(ps: seq<Process>, run: seq<nat>, m: Metrics)
    requires Sjf.IsSjfSchedule(ps, run, m)
    ensures Sum(m.response) == Sum(m.wait)
    ensures Sum(m.turnaround) == Sum(m.wait) + Sum(Durations(ps))
  {
    forall k | 0 <= k < |ps| ensures m.response[k] == m.wait[k] + 0
      && m.turnaround[k] == m.wait[k] + DurationsIn(ps, run)[k] {
      assert Sjf.SjfEntry(ps, run, m.response, m.wait, m.turnaround, k);
    }
    SumPointwise(m.response, m.wait, seq(|ps|, _ => 0));
    SumZero(|ps|);
    SumPointwise(m.turnaround, m.wait, DurationsIn(ps, run));
    TotalServiceInAnyOrder(ps, run);
  }

  /**
   * Round-Robin: mean response never exceeds mean wait, and mean turnaround
   * exceeds mean wait by the mean duration.
   */
  lemma RoundRobinTotals(ps: seq<Process>, m: Metrics)
    requires m.HasLength(|ps|)
    requires forall i :: 0 <= i < |ps| ==> m.turnaround[i] == m.wait[i] + ps[i].duration
    requires forall i :: 0 <= i < |ps| ==> 0 <= m.response[i] <= m.wait[i]
    ensures 0 <= Sum(m.response) <= Sum(m.wait)
    ensures Sum(m.turnaround) == Sum(m.wait) + Sum(Durations(ps))
  {
    SumNonNegative(m.response);
    SumMonotone(m.response, m.wait);
    SumPointwise(m.turnaround, m.wait, Durations(ps));
  }

  /** A run of zeros sums to zero. */
  lemma {:induction false} SumZero(n: nat)
    ensures Sum(seq(n, _ => 0)) == 0
  {
    if n > 0 {
      assert seq(n, _ => 0)[..n - 1] == seq(n - 1, _ => 0);
      SumZero(n - 1);
    }
  }
}
