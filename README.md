# fast_map in Dafny

`fast_map(f, *v, threads_limit=None, forced_procs_count=None)` maps a function
over zipped argument sequences. It uses several worker processes, each with a
thread pool, and yields the results in input order. This project models the
three sequential parts of that pipeline and proves their properties:

- **Sizing** (`sizing.dfy`, module `Sizing`): `calculate_procs_and_threads_per_process`.
  It turns the task count, an optional total thread limit and the CPU count
  into a plan of worker processes and threads per process. A truthy
  `forced_procs_count` then replaces the process count. The CPU count is a
  parameter. A result of `Err(DivisionByZero)` stands for the `ZeroDivisionError`
  Python raises when there are no tasks (or no CPUs). Python truthiness of the
  optional arguments is `Truthy`: `None` and `0` are false.
- **Distribution** (`distributor.dfy`, module `Distributor`): the `enqueuer`
  closure. `Enqueue` works on an array whose element `k` holds the contents of
  task queue `k`; the queues grow in place. It deals the zipped tuple `i` to
  queue `i mod n` and then puts one sentinel on every queue. The function
  `Layout` specifies what each queue receives.
- **Reassembly** (`reassembler.dfy`, module `Reassembler`): the ordered-yield
  loop. The class `Reorderer` holds `expected_index` (`expected`) and the
  dictionary `ordered_results` (`buffer`). `Receive(i, v)` handles one
  `(index, result)` pair and returns what the generator yields for it.
  `Reassemble` runs the loop over a finite sequence of arrivals. The end of
  that sequence stands for "result queue empty and no worker alive". Python
  truthiness of result values is the class constant `truthy`. It matters
  because the draining loop stops at a falsy buffered result.
- `arith.dfy` (module `Arith`) holds two small facts about multiplication
  and division that the other modules use.

The docstrings (`src/fast_map/fast_map.py` lines 33-34 and 53-54) call
`threads_limit` the total threads limit. The code does not keep the plan within
it, and the model follows the code:

- The test `threads_limit < procs_count` at line 38 is followed at line 39 by
  the bare expression `procs_count`, which changes nothing. A limit therefore
  never lowers the process count (`Sizing.ThreadLimitNeverChangesProcs`). A
  limit below the process count gives one thread in each process, more in all
  than the limit (`Sizing.SmallLimitExceeded`).
- Line 45 rounds `threads_limit / procs_count` up. For a limit of at most the
  task count that the process count does not divide, the plan again holds more
  threads than the limit (`Sizing.RoundingExceedsLimit`; `Sizing.RoundingExample`:
  limit 5 with 8 tasks on 4 CPUs gives 8 threads). The bound that does hold is that one thread fewer per
  process would be below the limit (`Sizing.LimitedThreadsPerProcess`).
- Nothing checks the arguments. A negative limit is truthy and gives 0 or
  fewer threads per process (`Sizing.NegativeLimitGivesNoThreads`); a zero
  limit is falsy and means no limit. The task count is `len(v[0])` (line 62),
  while `zip` stops at the shortest sequence (`Distributor.ZipLenVersusFirst`).

## Model

| member | source | states |
|---|---|---|
| Sizing.CeilDiv | src/fast_map/fast_map.py:42 | the result of `math.ceil(a / b)` is the integer `r` with `(r - 1) * b < a <= r * b` |
| Sizing.CeilDivIs | src/fast_map/fast_map.py:42 | that ceiling is unique: any `r` bracketing `a` this way equals `CeilDiv(a, b)` |
| Sizing.Calculate | src/fast_map/fast_map.py:32-47 | the planner: its only failure is the division by zero; on success the process count is at least 1 and at most the CPU and task counts, and threads per process never exceed `ceil(tasks / procs)`; the lemmas below give the exact values |
| Sizing.FailsOnlyWithoutTasksOrCpus | src/fast_map/fast_map.py:35-42 | planning fails exactly when the task count or the CPU count is 0, and the failure is the division by zero |
| Sizing.ProcsIsMinOfCpusAndTasks | src/fast_map/fast_map.py:35-37 | the process count is `min(cpu_count, tasks_count)`, so it is at least 1 and at most both |
| Sizing.ThreadLimitNeverChangesProcs | src/fast_map/fast_map.py:38-39 | any two thread limits give the same success or failure and the same process count |
| Sizing.UnlimitedThreadsCoverAllTasks | src/fast_map/fast_map.py:42-43 | without a truthy limit, threads per process are at least 1, the grid covers every task, and one thread fewer per process would not |
| Sizing.LimitedThreadsPerProcess | src/fast_map/fast_map.py:44-45 | with a truthy limit, threads per process are `min(ceil(tasks/procs), ceil(limit/procs))`; for a positive limit they are at least 1, the grid holds `min(tasks, limit)` threads, and one thread fewer per process would hold fewer than the limit |
| Sizing.CeilTimesExceeds | src/fast_map/fast_map.py:45 | `b * ceil(a / b)` is more than `a` exactly when `b` does not divide `a` |
| Sizing.RoundingExceedsLimit | src/fast_map/fast_map.py:44-45 | a limit from 1 up to the task count that the process count does not divide gives more threads in all than the limit |
| Sizing.RoundingExample | src/fast_map/fast_map.py:44-45 | limit 5 with 8 tasks on 4 CPUs gives 4 processes of 2 threads, 8 threads in all |
| Sizing.NegativeLimitGivesNoThreads | src/fast_map/fast_map.py:44-45 | a negative limit is truthy and gives 0 or fewer threads per process |
| Sizing.SmallLimitExceeded | src/fast_map/fast_map.py:36-45 | a limit from 1 to below `min(cpus, tasks)` gives that many processes with one thread each, which is more threads than the limit |
| Sizing.DocstringExample | src/fast_map/fast_map.py:33-34 | a limit of 8 on 4 CPUs with at least 5 tasks gives 4 processes of 2 threads |
| Sizing.UsageExamples | examples/basic_usage.py:10-21 | 8 tasks on 4 CPUs give 1 thread per process with limit 4, and 2 threads per process without a limit |
| Sizing.SessionPlan | src/fast_map/fast_map.py:62-67 | the plan `fast_map` uses: it fails only for no argument sequence or the division by zero, and a successful plan has at least one task |
| Sizing.SessionPlanOverride | src/fast_map/fast_map.py:62-67 | no argument sequence is an error; otherwise the plan succeeds exactly when the planner does, keeps its threads per process, and takes a truthy `forced_procs_count` as the process count |
| Distributor.ZipLen | src/fast_map/fast_map.py:56 | the number of zipped tuples is the length of the shortest argument sequence, or 0 when there is none |
| Distributor.ZipAt | src/fast_map/fast_map.py:56 | the `i`-th zipped tuple holds the `i`-th element of every argument sequence, in order |
| Distributor.Layout | src/fast_map/fast_map.py:56-60 | what the enqueuer appends, one list per queue: the tasks dealt to it followed by a sentinel; its properties are the lemmas below |
| Distributor.Enqueue | src/fast_map/fast_map.py:55-60 | it succeeds unless there are tasks and no queue; on success queue `k` is its old contents followed by `Layout(values, n)[k]`; on failure the queues are unchanged |
| Distributor.DealtMembers | src/fast_map/fast_map.py:56-58 | queue `k` holds a task exactly when its index is below the task count and `≡ k (mod n)`, and that task carries the matching zipped tuple |
| Distributor.DealtIncreasing | src/fast_map/fast_map.py:56-58 | the tasks in a queue strictly increase in index |
| Distributor.PlacedRoundRobin | src/fast_map/fast_map.py:56-58 | task `i` is on queue `i mod n` and on no other queue |
| Distributor.OneSentinelLast | src/fast_map/fast_map.py:56-60 | every queue ends with exactly one sentinel, preceded only by tasks in increasing index order |
| Distributor.DealtBalanced | src/fast_map/fast_map.py:56-58 | round-robin keeps the queues even: queue `k` has one task more than a later queue `k2` exactly when `k < tasks mod n <= k2`, otherwise as many |
| Distributor.DealtTotalAll | src/fast_map/fast_map.py:56-58 | across all queues every task is dealt exactly once in number |
| Distributor.EnqueuedTotal | src/fast_map/fast_map.py:56-60 | the enqueuer appends `tasks + n` entries in all |
| Distributor.ZipLenVersusFirst | src/fast_map/fast_map.py:56-62 | the number of zipped tuples is at most `len(v[0])`, and equal to it when all sequences have the same length |
| Reassembler.Drainable | src/fast_map/fast_map.py:93-95 | the values the draining loop pops from the dictionary; `Reassembler.DrainableIsRun` and `Reassembler.RunIsUnique` state what they are |
| Reassembler.DrainableIsRun | src/fast_map/fast_map.py:93-95 | the draining loop pops the maximal run of truthy buffered values at consecutive keys, and stops at a missing key or a falsy value |
| Reassembler.RunIsUnique | src/fast_map/fast_map.py:93-95 | that maximal run is unique, so the run property fully determines what is drained |
| Reassembler.PopRun | src/fast_map/fast_map.py:93-95 | the loop returns the drained run, leaves the cursor just past it, and removes exactly its keys from the dictionary |
| Reassembler.Reorderer.constructor | src/fast_map/fast_map.py:80-81 | the cursor starts at 0 with an empty dictionary and the generator has not finished |
| Reassembler.Reorderer.Receive | src/fast_map/fast_map.py:86-97 | an early result is stored, yields nothing and leaves the cursor; the expected result is yielded whether truthy or not, followed by the drained run; the cursor advances by one per yielded value; drained keys are popped; the generator finishes exactly when the cursor reaches the task count; a value left at the cursor is falsy |
| Reassembler.Next | src/fast_map/fast_map.py:88-97 | one arrival's step of the loop state; if the cursor equalled the number of values yielded before, it still does, and a returned loop has reached the task count |
| Reassembler.Feed | src/fast_map/fast_map.py:80-97 | the loop state after the first `j` arrivals: the cursor always equals the number of values yielded, and a returned loop has reached the task count |
| Reassembler.FeedStep | src/fast_map/fast_map.py:86-97 | one call of `Receive` on arrival `j` takes the state `Feed` gives for `j` arrivals to the one it gives for `j + 1` |
| Reassembler.FeedAccounted | src/fast_map/fast_map.py:87-95 | every arrival handled was yielded or is still in the dictionary |
| Reassembler.FeedConsistent | src/fast_map/fast_map.py:87-95 | if every arrival carries its task's result, what is yielded is the first results in index order and the dictionary holds only true results |
| Reassembler.Reassemble | src/fast_map/fast_map.py:80-97 | the output and the returned flag are those of `Feed` after the arrivals taken; arrivals are taken exactly until the generator returns, and none after (before every arrival taken the loop had not returned; if some arrival is left, it had); when it returns the output has one value per task; if the arrivals carry the true results, the output is a prefix of the results in index order; if every result arrives, the output is complete unless the first missing result is falsy; with all results arriving and truthy, the output is exactly the results in index order |
| Reassembler.FalsyEarlyResultStalls | src/fast_map/fast_map.py:88-95 | a falsy result that arrives early stays in the dictionary: the next in-order result is yielded, draining stops at the falsy value, and the generator does not finish |
| Reassembler.FalsyInOrderResultIsYielded | src/fast_map/fast_map.py:88-97 | a falsy result that arrives when it is expected is yielded, and the generator then finishes normally |

## Left out

- Process and thread machinery (`src/fast_map/fast_map.py:69-78`): creating the queues and processes, the daemon thread that runs the enqueuer, and `is_alive()` polling (line 83). These are concurrency and operating-system plumbing. The reassembler instead takes a finite arrival sequence in any order.
- `process_chunk` (`src/fast_map/fast_map.py:15-29`): it only submits tasks to a `ThreadPoolExecutor` and forwards results through a callback. Its purpose is concurrent execution.
- `src/fast_map/fast_map_async.py`: a wrapper that runs `fast_map` on a thread and calls callbacks.
- `mp.cpu_count()` is an environment read; the model takes it as the parameter `cpuCount`.
- Sizing.CeilDiv: computes the exact integer ceiling. It does not model the floating-point division inside `math.ceil(a / b)`, which can round wrongly for very large integers.
- Sizing.Calculate: models only integer limits. A float or other non-integer `threads_limit` is not modelled.
- Sizing.SessionPlan: models `len(v[0])` only on a finite sequence. The `TypeError` for a generator argument is not modelled.
- Distributor.Enqueue: does not model the third parameter `none_count` (the caller passes `procs_count`), because the closure never reads it.
- Distributor.Enqueue: models a task queue as the sequence of items put on it. The workers' concurrent `get`/`task_done` are left out with `process_chunk`.
- Reassembler.Reorderer: result truthiness is an abstract function of the value, not Python's per-type rules.
- Reassembler.Reassemble: relates the output to the true results through a ghost sequence `results`. Task failures and workers that die without delivering are not modelled; they only show up as missing arrivals.
- Reassembler.Feed: also steps through arrivals after the loop has returned, so that `Reassemble` can say which arrivals it takes; the generator itself takes none of them.
- Reassembler.Reassemble: accepts a task count of 0. An arrival at index 0 is still yielded, the cursor passes the task count and the loop never returns; arrivals carrying true results cannot exist then. In the source this case never reaches the loop, because planning divides by zero first.
- The `procs_limit` and `tasks_count_estimate` parameters used by some tests are not part of the `fast_map` signature, so they are not modelled.
- Cancellation, task-failure propagation and input validation are not implemented in the code, so they are not modelled.
