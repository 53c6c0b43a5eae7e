/**
 The sizing planner of fast_map: how many worker processes to start and how
 many threads each of them runs, given the number of tasks, an optional total
 thread limit and the host's CPU count (taken as a parameter here).
 */
module Sizing {

  import Arith

  /** An optional keyword argument of the Python entry point (`None` or a value). */
  datatype Option<T> = None | Some(value: T)

  /** The errors the planning step can raise. */
  datatype Error =
    | DivisionByZero       // `math.ceil(tasks_count / procs_count)` with `procs_count == 0`
    | NoArgumentSequences  // `len(v[0])` when no argument sequence was passed

  datatype Result<T> = Ok(value: T) | Err(error: Error)

  /** The grid: worker processes and threads per worker process. */
  datatype Plan = Plan(procs: int, threadsPerProcess: int)

  /** Python truthiness of an optional integer: `None` and `0` are false. */
  predicate Truthy(x: Option<int>)
  {
    x.Some? && x.value != 0
  }

  function Min(a: int, b: int): int
  {
    if a <= b then a else b
  }

  /** `math.ceil(a / b)` for a positive divisor, computed exactly. */
  function CeilDiv(a: int, b: int): (r: int)
    requires b > 0
    ensures (r - 1) * b < a <= r * b
  {
    var q := (-a) / b;
    assert -a == b * q + (-a) % b;
    -q
  }

  /** Any `r` with `(r - 1) * b < a <= r * b` is the ceiling of `a / b`. */
  lemma CeilDivIs(a: int, b: int, r: int)
    requires b > 0 && (r - 1) * b < a <= r * b
    ensures CeilDiv(a, b) == r
  {
    var c := CeilDiv(a, b);
    if c < r {
      Arith.MulMonotonic(b, c, r - 1);
      assert false;
    } else if r < c {
      Arith.MulMonotonic(b, r, c - 1);
      assert false;
    }
  }

  /**
   `calculate_procs_and_threads_per_process(threads_limit, tasks_count)` with
   `mp.cpu_count()` passed in as `cpuCount`.  The test `threads_limit <
   procs_count` is followed by a bare expression, so it changes nothing and is
   not modelled as a branch.
   */
  function Calculate(threadsLimit: Option<int>, tasksCount: nat, cpuCount: nat): (r: Result<Plan>)
    ensures r.Err? ==> r == Err(DivisionByZero)
    ensures r.Ok? ==> 1 <= r.value.procs <= cpuCount && r.value.procs <= tasksCount
    ensures r.Ok? ==> r.value.threadsPerProcess <= CeilDiv(tasksCount, r.value.procs)
  {
    var procs := if tasksCount < cpuCount then tasksCount else cpuCount;
    if procs == 0 then Err(DivisionByZero)
    else
      var chunk := CeilDiv(tasksCount, procs);
      var threads := if Truthy(threadsLimit) then Min(chunk, CeilDiv(threadsLimit.value, procs)) else chunk;
      Ok(Plan(procs, threads))
  }

  /**
   Lines 62-67 of `fast_map`: the task count is the length of the first
   argument sequence, the planner runs, and a truthy `forced_procs_count`
   then replaces the process count (the threads per process stay as planned).
   */
  function SessionPlan<V>(values: seq<seq<V>>, threadsLimit: Option<int>,
                          forcedProcsCount: Option<int>, cpuCount: nat): (r: Result<Plan>)
    ensures r.Err? ==> r == Err(NoArgumentSequences) || r == Err(DivisionByZero)
    ensures r.Ok? ==> |values| > 0 && |values[0]| > 0
  {
    if |values| == 0 then Err(NoArgumentSequences)
    else
      match Calculate(threadsLimit, |values[0]|, cpuCount)
      case Err(e) => Err(e)
      case Ok(p) =>
        if Truthy(forcedProcsCount) then Ok(Plan(forcedProcsCount.value, p.threadsPerProcess)) else Ok(p)
  }

  // ---------------------------------------------------------------------------
  // Properties of the planner
  // ---------------------------------------------------------------------------

  /** Planning fails exactly when there is no task or no CPU, and then with a division by zero. */
  lemma FailsOnlyWithoutTasksOrCpus(threadsLimit: Option<int>, tasksCount: nat, cpuCount: nat)
    ensures Calculate(threadsLimit, tasksCount, cpuCount).Err? <==> tasksCount == 0 || cpuCount == 0
    ensures Calculate(threadsLimit, tasksCount, cpuCount).Err? ==>
              Calculate(threadsLimit, tasksCount, cpuCount).error == DivisionByZero
  {
  }

  /** The process count is the smaller of the CPU count and the task count. */
  lemma ProcsIsMinOfCpusAndTasks(threadsLimit: Option<int>, tasksCount: nat, cpuCount: nat)
    requires Calculate(threadsLimit, tasksCount, cpuCount).Ok?
    ensures var p := Calculate(threadsLimit, tasksCount, cpuCount).value;
      p.procs == Min(cpuCount, tasksCount) && 1 <= p.procs <= cpuCount && p.procs <= tasksCount
  {
  }

  /** Supplying a thread limit, of any value, never changes the process count. */
  lemma ThreadLimitNeverChangesProcs(l1: Option<int>, l2: Option<int>, tasksCount: nat, cpuCount: nat)
    ensures Calculate(l1, tasksCount, cpuCount).Ok? == Calculate(l2, tasksCount, cpuCount).Ok?
    ensures Calculate(l1, tasksCount, cpuCount).Ok? ==>
              Calculate(l1, tasksCount, cpuCount).value.procs == Calculate(l2, tasksCount, cpuCount).value.procs
  {
  }

  /**
   Without a (truthy) thread limit every process gets `ceil(tasks / procs)`
   threads: at least one, enough for all tasks together, and no more than
   needed (one thread fewer per process would not cover the tasks).
   */
  lemma UnlimitedThreadsCoverAllTasks(threadsLimit: Option<int>, tasksCount: nat, cpuCount: nat)
    requires !Truthy(threadsLimit)
    requires Calculate(threadsLimit, tasksCount, cpuCount).Ok?
    ensures var p := Calculate(threadsLimit, tasksCount, cpuCount).value;
      p.threadsPerProcess >= 1 &&
      p.procs * p.threadsPerProcess >= tasksCount &&
      p.procs * (p.threadsPerProcess - 1) < tasksCount
  {
    var p := Calculate(threadsLimit, tasksCount, cpuCount).value;
    assert p.threadsPerProcess == CeilDiv(tasksCount, p.procs);
  }

  /**
   With a truthy thread limit the threads per process are the smaller of
   `ceil(tasks / procs)` and `ceil(limit / procs)`; for a positive limit that is
   at least one, the grid still has room for `min(tasks, limit)` threads, and
   with one thread fewer per process it would hold fewer threads than the limit.
   */
  lemma LimitedThreadsPerProcess(threadsLimit: Option<int>, tasksCount: nat, cpuCount: nat)
    requires Truthy(threadsLimit) && tasksCount > 0 && cpuCount > 0
    ensures var p := Calculate(threadsLimit, tasksCount, cpuCount).value;
      p.threadsPerProcess == Min(CeilDiv(tasksCount, p.procs), CeilDiv(threadsLimit.value, p.procs))
    ensures var p := Calculate(threadsLimit, tasksCount, cpuCount).value;
      threadsLimit.value >= 1 ==>
        p.threadsPerProcess >= 1 && p.procs * p.threadsPerProcess >= Min(tasksCount, threadsLimit.value)
    ensures var p := Calculate(threadsLimit, tasksCount, cpuCount).value;
      threadsLimit.value >= 1 ==> p.procs * (p.threadsPerProcess - 1) < threadsLimit.value
  {
    var procs := Min(cpuCount, tasksCount);
    var a, b := CeilDiv(tasksCount, procs), CeilDiv(threadsLimit.value, procs);
    var t := Min(a, b);
    assert Calculate(threadsLimit, tasksCount, cpuCount) == Ok(Plan(procs, t));
    if threadsLimit.value >= 1 {
      assert a >= 1 && b >= 1;
      if a <= b {
        assert procs * t == procs * a;
      } else {
        assert procs * t == procs * b;
      }
      Arith.MulMonotonic(procs, t - 1, b - 1);
    }
  }

  /** `b * ceil(a / b)` is more than `a` exactly when `b` does not divide `a`. */
  lemma CeilTimesExceeds(a: int, b: int)
    requires b > 0
    ensures b * CeilDiv(a, b) > a <==> a % b != 0
  {
    var c := CeilDiv(a, b);
    if a % b == 0 {
      assert a == b * (a / b);
      CeilDivIs(a, b, a / b);
    } else if b * c == a {
      Arith.DivModUnique(a, b, c, 0);
      assert false;
    }
  }

  /**
   Rounding up `limit / procs` also exceeds the total thread limit: a positive
   limit, no larger than the task count, that the process count does not
   divide gives more threads in all than the limit.
   */
  lemma RoundingExceedsLimit(threadsLimit: Option<int>, tasksCount: nat, cpuCount: nat)
    requires threadsLimit.Some? && 1 <= threadsLimit.value <= tasksCount && cpuCount >= 1
    requires threadsLimit.value % Min(cpuCount, tasksCount) != 0
    ensures Calculate(threadsLimit, tasksCount, cpuCount).Ok?
    ensures var p := Calculate(threadsLimit, tasksCount, cpuCount).value;
      p.procs * p.threadsPerProcess > threadsLimit.value
  {
    var procs := Min(cpuCount, tasksCount);
    var a, b := CeilDiv(tasksCount, procs), CeilDiv(threadsLimit.value, procs);
    CeilTimesExceeds(threadsLimit.value, procs);
    if a < b {
      Arith.MulMonotonic(procs, a, b - 1);
      assert false;
    }
  }

  /** With limit 5, 8 tasks and 4 CPUs the plan is 4 processes of 2 threads: 8 threads for a limit of 5. */
  lemma RoundingExample()
    ensures Calculate(Some(5), 8, 4) == Ok(Plan(4, 2))
  {
    CeilDivIs(8, 4, 2);
    CeilDivIs(5, 4, 2);
  }

  /** A negative thread limit is truthy and yields a non-positive thread count per process. */
  lemma NegativeLimitGivesNoThreads(threadsLimit: Option<int>, tasksCount: nat, cpuCount: nat)
    requires threadsLimit.Some? && threadsLimit.value < 0
    requires Calculate(threadsLimit, tasksCount, cpuCount).Ok?
    ensures Calculate(threadsLimit, tasksCount, cpuCount).value.threadsPerProcess <= 0
  {
    var p := Calculate(threadsLimit, tasksCount, cpuCount).value;
    assert CeilDiv(threadsLimit.value, p.procs) <= 0;
  }

  /**
   Because the limit never lowers the process count, a limit below the
   process count leaves one thread in each of `min(cpus, tasks)` processes:
   the grid then holds more threads than the limit allows.
   */
  lemma SmallLimitExceeded(threadsLimit: Option<int>, tasksCount: nat, cpuCount: nat)
    requires threadsLimit.Some? && 1 <= threadsLimit.value < Min(cpuCount, tasksCount)
    ensures Calculate(threadsLimit, tasksCount, cpuCount) == Ok(Plan(Min(cpuCount, tasksCount), 1))
    ensures Min(cpuCount, tasksCount) * 1 > threadsLimit.value
  {
    var procs := Min(cpuCount, tasksCount);
    CeilDivIs(threadsLimit.value, procs, 1);
    assert CeilDiv(tasksCount, procs) >= 1;
  }

  /** The docstring's example: a limit of 8 on a 4-core CPU gives 2 threads in each of 4 processes. */
  lemma DocstringExample(tasksCount: nat)
    requires tasksCount >= 5
    ensures Calculate(Some(8), tasksCount, 4) == Ok(Plan(4, 2))
  {
    CeilDivIs(8, 4, 2);
    assert CeilDiv(tasksCount, 4) >= 2;
  }

  /** The usage example: 8 tasks on 4 cores with limit 4 give 1 thread per process, without a limit 2. */
  lemma UsageExamples()
    ensures Calculate(Some(4), 8, 4) == Ok(Plan(4, 1))
    ensures Calculate(None, 8, 4) == Ok(Plan(4, 2))
  {
    CeilDivIs(8, 4, 2);
    CeilDivIs(4, 4, 1);
  }

  /**
   The session plan: a missing first argument sequence and an empty one are
   errors; otherwise the planner's result, with a truthy forced process count
   replacing the process count and nothing else.
   */
  lemma SessionPlanOverride<V>(values: seq<seq<V>>, threadsLimit: Option<int>,
                               forcedProcsCount: Option<int>, cpuCount: nat)
    ensures |values| == 0 ==> SessionPlan(values, threadsLimit, forcedProcsCount, cpuCount) == Err(NoArgumentSequences)
    ensures |values| > 0 ==>
      var planned := Calculate(threadsLimit, |values[0]|, cpuCount);
      var session := SessionPlan(values, threadsLimit, forcedProcsCount, cpuCount);
      session.Ok? == planned.Ok? &&
      (planned.Err? ==> session == Err(DivisionByZero)) &&
      (planned.Ok? ==>
        session.value.threadsPerProcess == planned.value.threadsPerProcess &&
        session.value.procs == (if Truthy(forcedProcsCount) then forcedProcsCount.value else planned.value.procs))
  {
    if |values| > 0 {
      FailsOnlyWithoutTasksOrCpus(threadsLimit, |values[0]|, cpuCount);
    }
  }
}
