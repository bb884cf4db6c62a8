/**
 * Orders of process indices by arrival time. FCFS sorts with a stable sort
 * (equal arrivals keep input order); Round-Robin sorts indices with an
 * unstable sort, so only the arrival times along its order are fixed.
 */
module Ordering {
  import opened Processes

  /** Stable-sort key: earlier arrival first, then earlier input position. */
  predicate Before(ps: seq<Process>, i: nat, j: nat)
    requires i < |ps| && j < |ps|
  {
    ps[i].arrival < ps[j].arrival || (ps[i].arrival == ps[j].arrival && i < j)
  }

  /** Any permutation of the indices whose arrival times never decrease. */
  predicate IsArrivalOrder(ps: seq<Process>, order: seq<nat>) {
    && IsPermutation(order, |ps|)
    && forall k, l :: 0 <= k < l < |order| ==> ps[order[k]].arrival <= ps[order[l]].arrival
  }

  /** The permutation a stable sort on arrival yields: strictly increasing in the Before key. */
  predicate IsStableArrivalOrder(ps: seq<Process>, order: seq<nat>) {
    && IsPermutation(order, |ps|)
    && forall k, l :: 0 <= k < l < |order| ==> Before(ps, order[k], order[l])
  }

  /** A stable order is in particular an arrival order. */
  lemma StableIsArrivalOrder(ps: seq<Process>, order: seq<nat>)
    requires IsStableArrivalOrder(ps, order)
    ensures IsArrivalOrder(ps, order)
  {
  }

  /** The stable order is unique: whatever stable sort is used, the outcome is the same. */
  lemma StableOrderUnique(ps: seq<Process>, o1: seq<nat>, o2: seq<nat>)
    requires IsStableArrivalOrder(ps, o1) && IsStableArrivalOrder(ps, o2)
    ensures o1 == o2
  {
    StableOrderPrefix(ps, o1, o2, |ps|);
    assert o1 == o1[..|ps|] && o2 == o2[..|ps|];
  }

  /** Two stable orders agree on every prefix, position by position. */
  lemma {:induction false} StableOrderPrefix(ps: seq<Process>, o1: seq<nat>, o2: seq<nat>, k: nat)
    requires IsStableArrivalOrder(ps, o1) && IsStableArrivalOrder(ps, o2)
    requires k <= |ps|
    ensures o1[..k] == o2[..k]
  {
    if k > 0 {
      var i := k - 1;
      StableOrderPrefix(ps, o1, o2, i);
      assert forall j :: 0 <= j < i ==> o1[j] == o2[j] by {
        forall j | 0 <= j < i ensures o1[j] == o2[j] {
          assert o1[..i][j] == o2[..i][j];
        }
      }
      // o1[i] sits in o2 at or after i, and o2[i] sits in o1 at or after i.
      assert o1[i] in o2 && o2[i] in o1;
      var l1 :| 0 <= l1 < |o2| && o2[l1] == o1[i];
      var l2 :| 0 <= l2 < |o1| && o1[l2] == o2[i];
      assert l1 >= i && l2 >= i;
      assert o1[i] == o2[i];
      assert o1[..k] == o1[..i] + [o1[i]] && o2[..k] == o2[..i] + [o2[i]];
    }
  }

  /**
   * Insertion sort of the indices 0..|ps|-1 on the Before key: each new index
   * goes after every earlier index whose arrival is not later than its own.
   */
  method StableArrivalOrder(ps: seq<Process>) returns (order: seq<nat>)
    ensures IsStableArrivalOrder(ps, order)
  {
    order := [];
    for i := 0 to |ps|
      invariant |order| == i
      invariant forall k :: 0 <= k < i ==> order[k] < i
      invariant forall j :: 0 <= j < i ==> j in order
      invariant forall k, l :: 0 <= k < l < i ==> Before(ps, order[k], order[l])
    {
      var pos := 0;
      while pos < |order| && ps[order[pos]].arrival <= ps[i].arrival
        invariant 0 <= pos <= |order|
        invariant forall k :: 0 <= k < pos ==> ps[order[k]].arrival <= ps[i].arrival
      {
        pos := pos + 1;
      }
      assert forall k :: pos <= k < |order| ==> ps[order[k]].arrival > ps[i].arrival by {
        forall k | pos <= k < |order| ensures ps[order[k]].arrival > ps[i].arrival {
          if k > pos { assert Before(ps, order[pos], order[k]); }
        }
      }
      var next := order[..pos] + [i] + order[pos..];
      assert forall k :: 0 <= k < pos ==> next[k] == order[k];
      assert next[pos] == i;
      assert forall k :: pos < k <= i ==> next[k] == order[k - 1];
      forall j | 0 <= j < i + 1 ensures j in next {
        if j < i {
          assert j in order;
          var k :| 0 <= k < |order| && order[k] == j;
          if k < pos { assert next[k] == j; } else { assert next[k + 1] == j; }
        } else {
          assert next[pos] == j;
        }
      }
      order := next;
    }
  }
}
