/**
 The distributor of fast_map (the `enqueuer` closure): it numbers the zipped
 argument tuples from 0, appends each `(i, args)` to queue `i mod n`, then
 appends one `(None, None)` sentinel to every queue.
 */
module Distributor {

  import Arith

  /** An item of a worker's task queue: an indexed task or the end-of-stream sentinel. */
  datatype Entry<V> = Task(index: nat, args: seq<V>) | Sentinel

  /** The number of tuples `zip(*values)` yields: the length of the shortest sequence. */
  function ZipLen<V>(values: seq<seq<V>>): (r: nat)
    ensures forall j :: 0 <= j < |values| ==> r <= |values[j]|
    ensures |values| > 0 ==> exists j :: 0 <= j < |values| && r == |values[j]|
    ensures |values| == 0 ==> r == 0
  {
    if |values| == 0 then 0
    else if |values| == 1 then |values[0]|
    else
      var rest := ZipLen(values[1..]);
      assert forall j :: 1 <= j < |values| ==> values[1..][j - 1] == values[j];
      if |values[0]| <= rest then |values[0]| else rest
  }

  /** The `i`-th tuple of `zip(*values)`: the `i`-th element of every sequence. */
  function ZipAt<V>(values: seq<seq<V>>, i: nat): (args: seq<V>)
    requires i < ZipLen(values)
    ensures |args| == |values|
    ensures forall j :: 0 <= j < |values| ==> args[j] == values[j][i]
  {
    seq(|values|, j requires 0 <= j < |values| => values[j][i])
  }

  /**
   The tasks the first loop of the enqueuer has put on queue `k` of `n` once
   it has handled the tuples `0 .. upto-1`.
   */
  function Dealt<V>(values: seq<seq<V>>, n: nat, k: nat, upto: nat): seq<Entry<V>>
    requires n > 0 && upto <= ZipLen(values)
  {
    if upto == 0 then []
    else
      var i := upto - 1;
      Dealt(values, n, k, i) + (if i % n == k then [Task(i, ZipAt(values, i))] else [])
  }

  /** Everything the enqueuer appends to each of the `n` queues. */
  function Layout<V>(values: seq<seq<V>>, n: nat): (qs: seq<seq<Entry<V>>>)
    requires n > 0
    ensures |qs| == n
  {
    seq(n, k requires 0 <= k < n => Dealt(values, n, k, ZipLen(values)) + [Sentinel])
  }

  /**
   The enqueuer.  `queues` stands for the Python list of task queues; each
   element is the contents of one queue, which grows in place.  With no queue
   at all, `i % len(queues)` raises a division by zero on the first task:
   `ok` is then false and nothing was enqueued.
   */
  method Enqueue<V>(queues: array<seq<Entry<V>>>, values: seq<seq<V>>) returns (ok: bool)
    modifies queues
    ensures ok <==> queues.Length > 0 || ZipLen(values) == 0
    ensures ok ==> forall k :: 0 <= k < queues.Length ==>
                    queues[k] == old(queues[k]) + Layout(values, queues.Length)[k]
    ensures !ok ==> queues[..] == old(queues[..])
  {
    var n := queues.Length;
    var m := ZipLen(values);
    if n == 0 {
      return m == 0;
    }
    var i := 0;
    while i < m
      invariant 0 <= i <= m
      invariant forall k :: 0 <= k < n ==> queues[k] == old(queues[k]) + Dealt(values, n, k, i)
    {
      var q := i % n;
      queues[q] := queues[q] + [Task(i, ZipAt(values, i))];
      i := i + 1;
    }
    var k := 0;
    while k < n
      invariant 0 <= k <= n
      invariant forall j :: 0 <= j < k ==> queues[j] == old(queues[j]) + Dealt(values, n, j, m) + [Sentinel]
      invariant forall j :: k <= j < n ==> queues[j] == old(queues[j]) + Dealt(values, n, j, m)
    {
      queues[k] := queues[k] + [Sentinel];
      k := k + 1;
    }
    ok := true;
  }

  // ---------------------------------------------------------------------------
  // Properties of the distribution
  // ---------------------------------------------------------------------------

  /**
   Queue `k` holds exactly the tasks whose index is below `upto` and congruent
   to `k` modulo `n`, each carrying the matching zipped tuple.
   */
  lemma {:induction false} DealtMembers<V>(values: seq<seq<V>>, n: nat, k: nat, upto: nat, e: Entry<V>)
    requires n > 0 && upto <= ZipLen(values)
    ensures e in Dealt(values, n, k, upto) <==>
              e.Task? && e.index < upto && e.index % n == k && e.args == ZipAt(values, e.index)
  {
    if upto > 0 {
      DealtMembers(values, n, k, upto - 1, e);
    }
  }

  /** Every entry is a task with an index below `bound`, and the indices strictly increase. */
  predicate IncreasingTasks<V>(d: seq<Entry<V>>, bound: nat)
  {
    (forall a :: 0 <= a < |d| ==> d[a].Task? && d[a].index < bound) &&
    (forall a, b :: 0 <= a < b < |d| ==> d[a].index < d[b].index)
  }

  /** Within a queue the entries are tasks and their indices strictly increase. */
  lemma {:induction false} DealtIncreasing<V>(values: seq<seq<V>>, n: nat, k: nat, upto: nat)
    requires n > 0 && upto <= ZipLen(values)
    ensures IncreasingTasks(Dealt(values, n, k, upto), upto)
  {
    if upto > 0 {
      var i := upto - 1;
      DealtIncreasing(values, n, k, i);
      var prev := Dealt(values, n, k, i);
      var d := Dealt(values, n, k, upto);
      assert d == prev + (if i % n == k then [Task(i, ZipAt(values, i))] else []);
      forall a | 0 <= a < |d|
        ensures d[a].Task? && d[a].index < upto
      {
        if a < |prev| { assert d[a] == prev[a]; }
      }
      forall a, b | 0 <= a < b < |d|
        ensures d[a].index < d[b].index
      {
        assert d[a] == prev[a];
        if b < |prev| { assert d[b] == prev[b]; }
      }
    }
  }

  /** Task `i` is placed on queue `i mod n`, carrying the `i`-th element of every sequence. */
  lemma PlacedRoundRobin<V>(values: seq<seq<V>>, n: nat, i: nat)
    requires n > 0 && i < ZipLen(values)
    ensures Task(i, ZipAt(values, i)) in Layout(values, n)[i % n]
    ensures forall k :: 0 <= k < n && k != i % n ==> Task(i, ZipAt(values, i)) !in Layout(values, n)[k]
  {
    var e := Task(i, ZipAt(values, i));
    DealtMembers(values, n, i % n, ZipLen(values), e);
    forall k | 0 <= k < n && k != i % n
      ensures e !in Layout(values, n)[k]
    {
      DealtMembers(values, n, k, ZipLen(values), e);
    }
  }

  /**
   Every queue ends with exactly one sentinel, after all its tasks, and its
   task indices strictly increase.
   */
  lemma OneSentinelLast<V>(values: seq<seq<V>>, n: nat, k: nat)
    requires 0 <= k < n
    ensures |Layout(values, n)[k]| >= 1
    ensures Layout(values, n)[k][|Layout(values, n)[k]| - 1] == Sentinel
    ensures IncreasingTasks(Layout(values, n)[k][..|Layout(values, n)[k]| - 1], ZipLen(values))
  {
    var d := Dealt(values, n, k, ZipLen(values));
    DealtIncreasing(values, n, k, ZipLen(values));
    var q := Layout(values, n)[k];
    assert q == d + [Sentinel];
    assert q[..|q| - 1] == d;
  }

  lemma ModSucc(u: nat, n: nat)
    requires n > 0
    ensures (u + 1) % n == if u % n == n - 1 then 0 else u % n + 1
  {
    var q, r := u / n, u % n;
    assert u == n * q + r;
    if r == n - 1 {
      assert u + 1 == n * (q + 1) + 0;
      Arith.DivModUnique(u + 1, n, q + 1, 0);
    } else {
      Arith.DivModUnique(u + 1, n, q, r + 1);
    }
  }

  /**
   Round-robin keeps the queues even: after `upto` tasks, a queue `k` holds one
   task more than a later queue `k2` exactly when `k < upto mod n <= k2`, and
   otherwise as many.
   */
  lemma {:induction false} DealtBalanced<V>(values: seq<seq<V>>, n: nat, k: nat, k2: nat, upto: nat)
    requires k < k2 < n && upto <= ZipLen(values)
    ensures |Dealt(values, n, k, upto)| == |Dealt(values, n, k2, upto)| + (if k < upto % n <= k2 then 1 else 0)
  {
    if upto > 0 {
      var i := upto - 1;
      DealtBalanced(values, n, k, k2, i);
      ModSucc(i, n);
      assert |Dealt(values, n, k, upto)| == |Dealt(values, n, k, i)| + (if i % n == k then 1 else 0);
      assert |Dealt(values, n, k2, upto)| == |Dealt(values, n, k2, i)| + (if i % n == k2 then 1 else 0);
    }
  }

  /** The number of tasks dealt to queues `0 .. kk-1` after `upto` tuples. */
  function DealtTotal<V>(values: seq<seq<V>>, n: nat, upto: nat, kk: nat): nat
    requires n > 0 && upto <= ZipLen(values)
  {
    if kk == 0 then 0 else DealtTotal(values, n, upto, kk - 1) + |Dealt(values, n, kk - 1, upto)|
  }

  lemma {:induction false} DealtTotalStep<V>(values: seq<seq<V>>, n: nat, upto: nat, kk: nat)
    requires n > 0 && upto < ZipLen(values)
    ensures DealtTotal(values, n, upto + 1, kk) ==
              DealtTotal(values, n, upto, kk) + (if upto % n < kk then 1 else 0)
  {
    if kk > 0 {
      DealtTotalStep(values, n, upto, kk - 1);
    }
  }

  lemma {:induction false} DealtTotalNone<V>(values: seq<seq<V>>, n: nat, kk: nat)
    requires n > 0
    ensures DealtTotal(values, n, 0, kk) == 0
  {
    if kk > 0 {
      DealtTotalNone(values, n, kk - 1);
    }
  }

  /** Across all `n` queues, the `upto` tasks are each dealt once. */
  lemma {:induction false} DealtTotalAll<V>(values: seq<seq<V>>, n: nat, upto: nat)
    requires n > 0 && upto <= ZipLen(values)
    ensures DealtTotal(values, n, upto, n) == upto
  {
    if upto > 0 {
      DealtTotalAll(values, n, upto - 1);
      DealtTotalStep(values, n, upto - 1, n);
    } else {
      DealtTotalNone(values, n, n);
    }
  }

  /** The total number of entries in a list of queues. */
  function TotalLength<X>(qs: seq<seq<X>>): nat
  {
    if |qs| == 0 then 0 else TotalLength(qs[..|qs| - 1]) + |qs[|qs| - 1]|
  }

  lemma {:induction false} LayoutPrefixLength<V>(values: seq<seq<V>>, n: nat, kk: nat)
    requires 0 < n && kk <= n
    ensures TotalLength(Layout(values, n)[..kk]) == DealtTotal(values, n, ZipLen(values), kk) + kk
  {
    if kk > 0 {
      assert Layout(values, n)[..kk][..kk - 1] == Layout(values, n)[..kk - 1];
      LayoutPrefixLength(values, n, kk - 1);
    }
  }

  /** The enqueuer appends `tasks + n` entries in all: every task once and one sentinel per queue. */
  lemma EnqueuedTotal<V>(values: seq<seq<V>>, n: nat)
    requires n > 0
    ensures TotalLength(Layout(values, n)) == ZipLen(values) + n
  {
    LayoutPrefixLength(values, n, n);
    assert Layout(values, n)[..n] == Layout(values, n);
    DealtTotalAll(values, n, ZipLen(values));
  }

  /**
   `fast_map` counts tasks as `len(v[0])`, while zip stops at the shortest
   sequence: the zipped task count never exceeds it and equals it when all
   argument sequences have the same length.
   */
  lemma ZipLenVersusFirst<V>(values: seq<seq<V>>)
    requires |values| > 0
    ensures ZipLen(values) <= |values[0]|
    ensures (forall j :: 0 <= j < |values| ==> |values[j]| == |values[0]|) ==> ZipLen(values) == |values[0]|
  {
  }
}
