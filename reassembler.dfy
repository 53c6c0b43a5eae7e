/**
 The reassembler of fast_map: the loop that takes `(index, result)` pairs
 from the shared result queue in whatever order the workers finish, keeps
 early ones in the dictionary `ordered_results`, and yields results in index
 order until `expected_index` reaches the task count.
 */
module Reassembler {

  /** One `(index, result)` pair taken from the shared result queue. */
  datatype Arrival<V> = Arrival(index: nat, value: V)

  /** `buffer` with the keys `lo .. hi-1` popped. */
  function Without<V>(buffer: map<nat, V>, lo: nat, hi: nat): (m: map<nat, V>)
  {
    map k | k in buffer && (k < lo || hi <= k) :: buffer[k]
  }

  lemma RemoveNextKey<V>(m: map<nat, V>, b: map<nat, V>, lo: nat, hi: nat)
    requires lo <= hi && b == Without(m, lo, hi)
    ensures b - {hi} == Without(m, lo, hi + 1)
  {
  }

  /**
   What the draining loop pops from `buffer` starting at key `from`: the
   values at `from`, `from + 1`, ... for as long as the key is present and its
   value is truthy.
   */
  function Drainable<V>(buffer: map<nat, V>, from: nat, truthy: V -> bool): seq<V>
    decreases |buffer.Keys|
  {
    if from in buffer && truthy(buffer[from]) then
      assert (buffer - {from}).Keys == buffer.Keys - {from};
      [buffer[from]] + Drainable(buffer - {from}, from + 1, truthy)
    else []
  }

  lemma DrainStep<V>(buffer: map<nat, V>, from: nat, truthy: V -> bool)
    requires from in buffer && truthy(buffer[from])
    ensures Drainable(buffer, from, truthy) == [buffer[from]] + Drainable(buffer - {from}, from + 1, truthy)
  {
  }

  lemma DrainStop<V>(buffer: map<nat, V>, from: nat, truthy: V -> bool)
    requires !(from in buffer && truthy(buffer[from]))
    ensures Drainable(buffer, from, truthy) == []
  {
  }

  /**
   `r` is the maximal run of truthy buffered values at consecutive keys from
   `from` on: each `r[k]` is the truthy value at key `from + k`, and the key
   right after the run is absent or holds a falsy value.
   */
  ghost predicate IsRun<V>(buffer: map<nat, V>, from: nat, truthy: V -> bool, r: seq<V>)
  {
    (forall key :: from <= key < from + |r| ==>
       key in buffer && buffer[key] == r[key - from] && truthy(buffer[key])) &&
    !(from + |r| in buffer && truthy(buffer[from + |r|]))
  }

  /** The draining loop pops exactly the maximal truthy run. */
  lemma {:induction false} DrainableIsRun<V>(buffer: map<nat, V>, from: nat, truthy: V -> bool)
    ensures IsRun(buffer, from, truthy, Drainable(buffer, from, truthy))
    decreases |buffer.Keys|
  {
    if from in buffer && truthy(buffer[from]) {
      var rest := buffer - {from};
      assert rest.Keys == buffer.Keys - {from};
      DrainableIsRun(rest, from + 1, truthy);
      var tail := Drainable(rest, from + 1, truthy);
      var r := Drainable(buffer, from, truthy);
      assert r == [buffer[from]] + tail;
      forall key | from <= key < from + |r|
        ensures key in buffer && buffer[key] == r[key - from] && truthy(buffer[key])
      {
        if key > from {
          assert key in rest;
          assert r[key - from] == tail[key - (from + 1)];
        }
      }
    }
  }

  /** There is only one maximal run, so the run property determines what is drained. */
  lemma RunIsUnique<V>(buffer: map<nat, V>, from: nat, truthy: V -> bool, r1: seq<V>, r2: seq<V>)
    requires IsRun(buffer, from, truthy, r1) && IsRun(buffer, from, truthy, r2)
    ensures r1 == r2
  {
    assert |r1| == |r2|;
    forall k | 0 <= k < |r1|
      ensures r1[k] == r2[k]
    {
      assert from + k in buffer;
    }
  }

  /**
   The draining loop `while ordered_results.get(expected_index, None)`: pops
   and returns the buffered values from key `from` on while they are truthy.
   */
  method PopRun<V>(buffer: map<nat, V>, from: nat, truthy: V -> bool)
    returns (run: seq<V>, next: nat, rest: map<nat, V>)
    ensures run == Drainable(buffer, from, truthy)
    ensures next == from + |run|
    ensures rest == Without(buffer, from, next)
    ensures !(next in rest && truthy(rest[next]))
  {
    next, rest, run := from, buffer, [];
    ghost var all := Drainable(buffer, from, truthy);
    while next in rest && truthy(rest[next])
      invariant from <= next && next == from + |run|
      invariant run + Drainable(rest, next, truthy) == all
      invariant rest == Without(buffer, from, next)
      decreases |rest.Keys|
    {
      var x := rest[next];
      assert (rest - {next}).Keys == rest.Keys - {next};
      DrainStep(rest, next, truthy);
      ghost var later := Drainable(rest - {next}, next + 1, truthy);
      assert (run + [x]) + later == run + ([x] + later);
      RemoveNextKey(buffer, rest, from, next);
      rest := rest - {next};
      run := run + [x];
      next := next + 1;
    }
    DrainStop(rest, next, truthy);
  }

  /**
   The state of the ordered-yield loop: `expected` is `expected_index`,
   `buffer` is `ordered_results`, and `finished` records that the generator
   has returned because `expected_index == tasks_count`.  `truthy` is Python
   truthiness of a result value.
   */
  class Reorderer<V> {
    const tasksCount: nat
    const truthy: V -> bool
    var expected: nat
    var buffer: map<nat, V>
    var finished: bool

    /**
     The generator has returned exactly when the cursor has reached the task
     count after a yield, and a value buffered at the cursor is one the
     draining loop refused because it is falsy.
     */
    ghost predicate Valid()
      reads this
    {
      (finished ==> expected == tasksCount) &&
      (expected > 0 && expected == tasksCount ==> finished) &&
      (expected in buffer ==> !truthy(buffer[expected]))
    }

    constructor (tasksCount: nat, truthy: V -> bool)
      ensures Valid()
      ensures this.tasksCount == tasksCount && this.truthy == truthy
      ensures expected == 0 && buffer == map[] && !finished
    {
      this.tasksCount := tasksCount;
      this.truthy := truthy;
      expected := 0;
      buffer := map[];
      finished := false;
    }

    /**
     Handles one pair `(i, v)` from the result queue and returns what the
     generator yields for it.  An early result is stored and yields nothing.
     The expected one is yielded (truthy or not), the cursor advances, then
     the consecutive truthy buffered results are popped and yielded; the
     generator finishes if the cursor has reached the task count.
     */
    method Receive(i: nat, v: V) returns (emitted: seq<V>)
      requires Valid() && !finished
      modifies this
      ensures Valid()
      ensures i != old(expected) ==>
                emitted == [] && expected == old(expected) && buffer == old(buffer)[i := v] && !finished
      ensures i == old(expected) ==>
                emitted == [v] + Drainable(old(buffer), i + 1, truthy) &&
                expected == i + |emitted| &&
                buffer == Without(old(buffer), i + 1, expected) &&
                finished == (expected == tasksCount)
    {
      if i != expected {
        buffer := buffer[i := v];
        emitted := [];
        return;
      }
      var run, next, rest := PopRun(buffer, i + 1, truthy);
      emitted, expected, buffer := [v] + run, next, rest;
      finished := expected == tasksCount;
    }
  }

  /** Every arrival carries the result of its task: an index below the task count and that index's value. */
  ghost predicate Delivers<V>(arrivals: seq<Arrival<V>>, results: seq<V>)
  {
    forall a :: 0 <= a < |arrivals| ==>
      arrivals[a].index < |results| && arrivals[a].value == results[arrivals[a].index]
  }

  /** Every task's result arrives at some point. */
  ghost predicate Complete<V>(arrivals: seq<Arrival<V>>, results: seq<V>)
  {
    forall k :: 0 <= k < |results| ==> k in Indices(arrivals)
  }

  /** The task indices that occur among the arrivals. */
  ghost function Indices<V>(arrivals: seq<Arrival<V>>): set<nat>
  {
    set a | 0 <= a < |arrivals| :: arrivals[a].index
  }

  /**
   The loop's state agrees with the results in index order: what was
   yielded is the first `expected` results and every buffered value is the
   result of its index.
   */
  ghost predicate Consistent<V>(expected: nat, buffer: map<nat, V>, output: seq<V>, results: seq<V>)
  {
    expected <= |results| && output == results[..expected] &&
    forall k :: k in buffer ==> k < |results| && buffer[k] == results[k]
  }

  /** Every one of the first `upto` arrivals has been yielded or is buffered. */
  ghost predicate Accounted<V>(arrivals: seq<Arrival<V>>, upto: nat, expected: nat, buffer: map<nat, V>)
    requires upto <= |arrivals|
  {
    forall a :: 0 <= a < upto ==> arrivals[a].index < expected || arrivals[a].index in buffer
  }

  /** Yielding the expected result and draining the buffer keeps the state consistent. */
  lemma InOrderStepConsistent<V>(expected: nat, buffer: map<nat, V>, output: seq<V>, results: seq<V>,
                                 truthy: V -> bool)
    requires Consistent(expected, buffer, output, results) && expected < |results|
    ensures var d := Drainable(buffer, expected + 1, truthy);
      Consistent(expected + 1 + |d|, Without(buffer, expected + 1, expected + 1 + |d|),
                 output + [results[expected]] + d, results)
  {
    var d := Drainable(buffer, expected + 1, truthy);
    DrainableIsRun(buffer, expected + 1, truthy);
    var e1 := expected + 1 + |d|;
    if |d| > 0 {
      assert e1 - 1 in buffer;
    }
    var out1 := output + [results[expected]] + d;
    forall k | 0 <= k < e1
      ensures out1[k] == results[k]
    {
      if k > expected {
        assert k in buffer;
      }
    }
    assert out1 == results[..e1];
  }

  /** An early result is buffered; the state stays consistent. */
  lemma EarlyStepConsistent<V>(expected: nat, buffer: map<nat, V>, output: seq<V>, results: seq<V>, i: nat)
    requires Consistent(expected, buffer, output, results) && i < |results|
    ensures Consistent(expected, buffer[i := results[i]], output, results)
  {
  }

  /** After the step for arrival `j`, the first `j + 1` arrivals are accounted for. */
  lemma AccountedStep<V>(arrivals: seq<Arrival<V>>, j: nat, expected: nat, buffer: map<nat, V>,
                         expected1: nat, buffer1: map<nat, V>)
    requires j < |arrivals| && Accounted(arrivals, j, expected, buffer)
    requires arrivals[j].index != expected ==> expected1 == expected && buffer1 == buffer[arrivals[j].index := arrivals[j].value]
    requires arrivals[j].index == expected ==> expected < expected1 && buffer1 == Without(buffer, expected + 1, expected1)
    ensures Accounted(arrivals, j + 1, expected1, buffer1)
  {
  }

  /** The loop's state: `expected_index`, `ordered_results`, what was yielded, and whether it returned. */
  datatype Loop<V> = Loop(expected: nat, buffer: map<nat, V>, output: seq<V>, finished: bool)

  /**
   The state of the ordered-yield loop once it has handled the first `j`
   arrivals, one at a time, as `Receive` does (whether or not it had returned
   before one of them).  The cursor always equals the number of values
   yielded, and a returned loop has reached the task count.
   */
  function Feed<V>(tasksCount: nat, truthy: V -> bool, arrivals: seq<Arrival<V>>, j: nat): (s: Loop<V>)
    requires j <= |arrivals|
    ensures |s.output| == s.expected
    ensures s.finished ==> s.expected == tasksCount
  {
    if j == 0 then Loop(0, map[], [], false)
    else Next(tasksCount, truthy, Feed(tasksCount, truthy, arrivals, j - 1), arrivals[j - 1])
  }

  /** How the loop handles one arrival `a` in state `s` (lines 88-97). */
  function Next<V>(tasksCount: nat, truthy: V -> bool, s: Loop<V>, a: Arrival<V>): (s1: Loop<V>)
    ensures |s.output| == s.expected ==> |s1.output| == s1.expected
    ensures s1.finished ==> s1.expected == tasksCount
  {
    if a.index != s.expected then Loop(s.expected, s.buffer[a.index := a.value], s.output, false)
    else
      var d := Drainable(s.buffer, a.index + 1, truthy);
      var e := a.index + 1 + |d|;
      Loop(e, Without(s.buffer, a.index + 1, e), s.output + [a.value] + d, e == tasksCount)
  }

  /** A step of `Receive` on arrival `j` is a step of `Feed`. */
  lemma FeedStep<V>(tasksCount: nat, truthy: V -> bool, arrivals: seq<Arrival<V>>, j: nat,
                    s: Loop<V>, emitted: seq<V>, expected1: nat, buffer1: map<nat, V>, finished1: bool)
    requires j < |arrivals| && Feed(tasksCount, truthy, arrivals, j) == s
    requires arrivals[j].index != s.expected ==>
               emitted == [] && expected1 == s.expected &&
               buffer1 == s.buffer[arrivals[j].index := arrivals[j].value] && !finished1
    requires arrivals[j].index == s.expected ==>
               emitted == [arrivals[j].value] + Drainable(s.buffer, arrivals[j].index + 1, truthy) &&
               expected1 == arrivals[j].index + |emitted| &&
               buffer1 == Without(s.buffer, arrivals[j].index + 1, expected1) &&
               finished1 == (expected1 == tasksCount)
    ensures Feed(tasksCount, truthy, arrivals, j + 1) == Loop(expected1, buffer1, s.output + emitted, finished1)
  {
    if arrivals[j].index == s.expected {
      assert s.output + emitted == s.output + [arrivals[j].value] + Drainable(s.buffer, arrivals[j].index + 1, truthy);
    }
  }

  /** Every arrival `Feed` has handled was yielded or is buffered. */
  lemma {:induction false} FeedAccounted<V>(tasksCount: nat, truthy: V -> bool, arrivals: seq<Arrival<V>>, j: nat)
    requires j <= |arrivals|
    ensures Accounted(arrivals, j, Feed(tasksCount, truthy, arrivals, j).expected, Feed(tasksCount, truthy, arrivals, j).buffer)
  {
    if j > 0 {
      FeedAccounted(tasksCount, truthy, arrivals, j - 1);
      var s := Feed(tasksCount, truthy, arrivals, j - 1);
      var s1 := Feed(tasksCount, truthy, arrivals, j);
      assert s1 == Next(tasksCount, truthy, s, arrivals[j - 1]);
      AccountedStep(arrivals, j - 1, s.expected, s.buffer, s1.expected, s1.buffer);
    }
  }

  /**
   If every arrival carries its task's result, `Feed` yields the results in
   index order and buffers only true results.
   */
  lemma {:induction false} FeedConsistent<V>(tasksCount: nat, truthy: V -> bool, arrivals: seq<Arrival<V>>,
                                             results: seq<V>, j: nat)
    requires j <= |arrivals| && Delivers(arrivals, results)
    ensures var s := Feed(tasksCount, truthy, arrivals, j);
      Consistent(s.expected, s.buffer, s.output, results)
  {
    if j > 0 {
      FeedConsistent(tasksCount, truthy, arrivals, results, j - 1);
      var s := Feed(tasksCount, truthy, arrivals, j - 1);
      var a := arrivals[j - 1];
      assert Feed(tasksCount, truthy, arrivals, j) == Next(tasksCount, truthy, s, a);
      assert a.index < |results| && a.value == results[a.index];
      if a.index == s.expected {
        InOrderStepConsistent(s.expected, s.buffer, s.output, results, truthy);
      } else {
        EarlyStepConsistent(s.expected, s.buffer, s.output, results, a.index);
      }
    }
  }

  /**
   The ordered-yield loop over a finite sequence of arrivals: the end of the
   sequence stands for "result queue empty and no worker alive".  Returns
   everything yielded, how many arrivals were taken, and whether the
   generator returned because the cursor reached the task count.  It takes
   arrivals exactly until the generator returns: none is taken after that.

   If the arrivals carry the results of `results` (the results in index
   order), the output is a prefix of `results`; if every result arrives, the
   output is all of `results` unless the result at the first missing
   position is falsy (it was buffered and the draining loop skipped it).
   */
  method Reassemble<V>(tasksCount: nat, truthy: V -> bool, arrivals: seq<Arrival<V>>, ghost results: seq<V>)
    returns (output: seq<V>, consumed: nat, finished: bool)
    ensures consumed <= |arrivals|
    ensures consumed < |arrivals| ==> finished
    ensures forall j :: 0 <= j < consumed ==> !Feed(tasksCount, truthy, arrivals, j).finished
    ensures output == Feed(tasksCount, truthy, arrivals, consumed).output
    ensures finished == Feed(tasksCount, truthy, arrivals, consumed).finished
    ensures finished ==> |output| == tasksCount
    ensures Delivers(arrivals, results) && |results| == tasksCount ==>
              |output| <= tasksCount && output == results[..|output|]
    ensures Delivers(arrivals, results) && Complete(arrivals, results) && |results| == tasksCount ==>
              |output| == tasksCount || (|output| < tasksCount && !truthy(results[|output|]))
    ensures Delivers(arrivals, results) && Complete(arrivals, results) && |results| == tasksCount >= 1 &&
            (forall k :: 0 <= k < |results| ==> truthy(results[k])) ==>
              finished && output == results
  {
    var r := new Reorderer(tasksCount, truthy);
    output, consumed := [], 0;
    while consumed < |arrivals| && !r.finished
      invariant consumed <= |arrivals|
      invariant r.Valid() && r.tasksCount == tasksCount && r.truthy == truthy
      invariant Feed(tasksCount, truthy, arrivals, consumed) == Loop(r.expected, r.buffer, output, r.finished)
      invariant forall j :: 0 <= j < consumed ==> !Feed(tasksCount, truthy, arrivals, j).finished
    {
      var arrival := arrivals[consumed];
      ghost var s := Loop(r.expected, r.buffer, output, r.finished);
      var emitted := r.Receive(arrival.index, arrival.value);
      FeedStep(tasksCount, truthy, arrivals, consumed, s, emitted, r.expected, r.buffer, r.finished);
      output := output + emitted;
      consumed := consumed + 1;
    }
    finished := r.finished;
    FeedAccounted(tasksCount, truthy, arrivals, consumed);
    if Delivers(arrivals, results) && |results| == tasksCount {
      FeedConsistent(tasksCount, truthy, arrivals, results, consumed);
      if Complete(arrivals, results) && r.expected < tasksCount {
        assert r.expected in Indices(arrivals);
        var a :| 0 <= a < |arrivals| && arrivals[a].index == r.expected;
        assert r.expected in r.buffer;
      }
    }
  }

  /**
   A falsy result that arrives early stays buffered: when the result before
   it arrives, that one is yielded but the draining loop stops at the falsy
   value, and the generator has not finished.
   */
  method FalsyEarlyResultStalls() returns (output: seq<int>, finished: bool, pending: map<nat, int>)
    ensures output == [7] && !finished && pending == map[1 := 0]
  {
    var r := new Reorderer(2, (x: int) => x != 0);
    var first := r.Receive(1, 0);
    var second := r.Receive(0, 7);
    output, finished, pending := first + second, r.finished, r.buffer;
  }

  /** A falsy result that arrives when it is expected is yielded like any other. */
  method FalsyInOrderResultIsYielded() returns (output: seq<int>, finished: bool)
    ensures output == [0, 7] && finished
  {
    var r := new Reorderer(2, (x: int) => x != 0);
    var first := r.Receive(0, 0);
    var second := r.Receive(1, 7);
    output, finished := first + second, r.finished;
  }
}
