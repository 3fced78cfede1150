# Cooperative-runtime benchmark core, modelled in Dafny

The benchmark compares threads, processes and coroutines on a CPU-bound job
and an I/O-bound job. Its deterministic core is modelled here: the work
function, the coroutine runtime built by hand around it, and the helpers
that configure the runs and summarise their timings.

- **Work function** (`word32.dfy`, `lcg.dfy`).
  - `cpu_work` is a linear congruential recurrence on a 32-bit accumulator.
  - It is written three times: C++ `cpu_work`, Go `cpuWork` and Python `cpu_work`.
  - Each copy is shown to compute one reference recurrence, `CpuWork.Lcg`.
  - C++ and Go wrap after every `uint32` operation. Python masks once per step.
- **Chunked coroutine job** (`cpu_job.dfy`).
  - `cpu_coroutine_job` runs the recurrence in chunks of at most `chunk` steps and yields after each chunk.
  - Chunking never changes the value it XORs into the checksum.
  - The job yields exactly ceil(units / chunk) times.
- **CPU scheduler** (`cpu_scheduler.dfy`). `cpu_coroutines` keeps a vector of
  move-only `CpuTask` handles. It admits up to `concurrency` jobs, then sweeps
  round robin, swap-removing done handles and launching one replacement per
  removal. Every task is launched and finished, the vector never exceeds
  `concurrency`, and the checksum is the XOR of one `cpu_work(units)` per task.
- **I/O client** (`io_client.dfy`). `io_client_task` is a state machine
  over a stream of system-call results (an oracle standing for the kernel).
  Its offsets survive suspensions, and a would-block suspends without losing
  progress. Every other failure closes the socket and finishes the task.
- **I/O admission** (`io_admission.dfy`). `io_coroutines_kqueue`, driven by
  `KqueueLoop::run_until` and the `pending` decrement at final suspend, is
  modelled as written. It terminates under the readiness-fairness
  assumption listed under "Left out" (IoAdmission.Poll), and
  `pending <= inflight <= concurrency` holds at the head of its outer loop.
  Launched frames that finish inside `start()` never give back their slots,
  so it can stop before launching every task (see Findings).
- **Configuration** (`args.dfy`). `to_int` is base-10 `strtol` with a
  default, and `to_int` inverts decimal printing. `parse_args` scans the
  flags and clamps the counts.
- **Shared counting helpers** (`counts.dfy`). These are `Min` and the
  iteration count of a `for (i = 0; i < n; i++)` loop. The coroutine
  modules use them.
- **Statistics** (`stats.dfy`). `median`, `minv` and `maxv`, with Go's
  `median`, `minDur` and `maxDur`, are modelled over integers. The median
  is a rank statistic independent of the sorting algorithm.

## Model

| member | source | states |
|---|---|---|
| CpuWork.CppCpuWork | bench.cpp:152-158 | C++ `cpu_work` (32-bit `int` units, wrapping `uint32_t` arithmetic) returns the reference recurrence at `units`, and 0 when `units <= 0` |
| CpuWork.GoCpuWork | bench.go:105-111 | Go `cpuWork` (64-bit `int` units, `uint32(i)` truncation) returns the same reference recurrence, so it agrees with the C++ copy |
| CpuWork.PyCpuWork | cpu_bound.py:58-62 | Python `cpu_work` stays in [0, 2^32), is 0 for `units <= 0` (empty range), and equals the reference recurrence, hence the C++ and Go results |
| CpuWork.Uint32StepIsLcgStep | bench.cpp:155 | wrapping after each `uint32_t` multiply and add gives the same word as one reduction modulo 2^32 of the exact value (the Python masked step) |
| CpuWork.LcgNext | cpu_bound.py:60-61 | one loop step maps the value at `n` to the value at `n + 1`: `cpu_work(n+1) == (cpu_work(n)*1664525 + 1013904223 + n) mod 2^32` |
| CpuWork.AdvanceContinues | bench.cpp:244-246 | continuing the recurrence for `k` steps from index `d` with the value it has at `d` lands on the value at `d + k`, so no index is skipped or repeated |
| Word32.WrapInt32 | bench.cpp:63 | the `(int)` cast of a `long` is congruent to it modulo 2^32 and leaves every value that fits unchanged |
| CpuScheduler.XorTimesParity | bench.cpp:250 | XOR-ing the same word into a zero-initialised checksum `n` times leaves 0 for even `n` and the word for odd `n`: equal results cancel in pairs |
| CpuJobs.Chunks | bench.cpp:242-243 | no chunk is needed for `units <= 0`, and at least one otherwise |
| CpuJobs.ChunksIsCeiling | bench.cpp:242-247 | the number of chunks of at most `chunk` steps is the ceiling of `units / chunk` |
| CpuJobs.Resume | bench.cpp:239-252 | one resume keeps the frame valid (accumulator is the recurrence at `done`), runs between 1 and `chunk` steps and yields, or XORs `cpu_work(units)` into `out` and completes; a completed frame is unchanged; one fewer resume remains |
| CpuJobs.Drive | bench.cpp:239-252 | resuming until done yields once per remaining chunk, each chunk has 1..`chunk` steps, the chunks add up to the remaining units, and `out` ends XOR-ed with `cpu_work(units)` |
| CpuJobs.FreshJobLifetime | bench.cpp:241-249 | a fresh job suspends exactly ceil(units / chunk) times (never for `units <= 0`), its chunks sum to `units`, and it XORs exactly `cpu_work(units)` whatever the chunk size |
| CpuScheduler.DefaultJobChunks | bench.cpp:255 | with the chunk constant 5000 and the default 200000 units, a job suspends 40 times |
| CpuScheduler.ResumeTask | bench.cpp:235-236 | `resume()` does nothing on a handle that reports `done()` (empty or completed) and otherwise resumes the owned frame |
| CpuScheduler.MoveAssign | bench.cpp:222-229 | move assignment transfers the frame and leaves the source empty; self-assignment changes nothing |
| CpuScheduler.SwapRemove | bench.cpp:277-278 | the vector shrinks by one, the last handle takes slot `i`, and every other handle stays in place |
| CpuScheduler.SwapRemovePermutes | bench.cpp:277-278 | swap-remove removes exactly the handle at `i`: the remaining handles are the original multiset minus that one |
| CpuScheduler.LaunchOne | bench.cpp:264-268 | `launch_one` appends one good handle resumed once, counts it as launched, and XORs the checksum only when the new job completes |
| CpuScheduler.RetireStep | bench.cpp:276-280 | swap-removing a handle that reports `done()` and launching a replacement keeps the scheduler invariant and uses up work |
| CpuScheduler.Sweep | bench.cpp:275-285 | one round-robin sweep keeps the invariant (handles good, `finished + active == launched <= tasks`, `active <= concurrency`, checksum equation) and strictly reduces the remaining work |
| CpuScheduler.CpuCoroutines | bench.cpp:254-289 | every task is launched and finished, the vector peaks at exactly `min(tasks, concurrency)`, and the checksum is the XOR of one `cpu_work(units)` per task |
| IoClient.Start | bench.cpp:546-565 | the body up to its first suspension leaves a valid frame past its initial suspend and consumes at least one result unless it finished |
| IoClient.SendPhase | bench.cpp:569-579 | the send loop only increases `off`, never past the payload size; it suspends on writability with the socket open, finishes with the socket closed, and succeeds only with everything sent and received |
| IoClient.RecvPhase | bench.cpp:581-596 | the receive loop only increases `got`, never past the payload size; it finishes successfully exactly when `got` reaches the size, and finishing closes the socket |
| IoClient.Resume | bench.cpp:544-597 | a resume keeps the frame valid, never decreases `off` or `got`, never resumes a finished frame, and either finishes or consumes a system-call result |
| IoClient.SendWouldBlockKeepsOffset | bench.cpp:573-575 | a would-block `send` suspends the frame at the same offset and consumes nothing else |
| IoClient.RecvWouldBlockKeepsCount | bench.cpp:587-589 | a would-block `recv` suspends the frame at the same receive count |
| IoClient.WouldBlockTransparent | bench.cpp:570-579 | suspending on a would-block and resuming gives the same outcome as a send loop that never saw the would-block |
| IoClient.PeerCloseFinishes | bench.cpp:586 | `recv` returning 0 closes the socket and finishes unsuccessfully without another call |
| IoClient.SendErrorFinishes | bench.cpp:577-578 | a zero or hard-error `send` closes the socket and finishes unsuccessfully without retry |
| IoClient.RecvErrorFinishes | bench.cpp:584-592 | a `recv` failing with anything but a would-block closes the socket and finishes unsuccessfully without retry |
| IoClient.ConnectErrorFinishes | bench.cpp:558-564 | after an in-progress connect becomes writable, a failing `getsockopt` or a non-zero pending socket error closes the socket and finishes unsuccessfully |
| IoClient.StartErrorFinishes | bench.cpp:546-557 | one of `socket`, the two `fcntl` calls of `set_nonblocking` (bench.cpp:487-492), or a `connect` that fails with anything but `EINPROGRESS`, after the earlier calls succeeded, finishes the task unsuccessfully with no socket left open and consumes nothing more |
| IoClient.ConnectInProgressSuspends | bench.cpp:555-558 | a non-blocking `connect` that reports `EINPROGRESS`, after `socket` and `set_nonblocking` succeeded, suspends the frame on writability with the socket open |
| IoClient.ConnectCompletes | bench.cpp:559-567 | after the connect wait, a `getsockopt` that succeeds with no pending error continues into the send loop |
| IoClient.CleanRoundTrip | bench.cpp:544-597 | on a kernel that never blocks, one full `send` and one full `recv` complete the round trip successfully with the socket closed |
| IoAdmission.LaunchOne | bench.cpp:609-617 | `launch_one` keeps every earlier frame in place and appends one new frame run to its first suspension, consuming that frame's system-call results; it raises `pending` and `inflight` by one, and a frame that finished inside `start()` has already lowered `pending` again but not `inflight` |
| IoAdmission.Admit | bench.cpp:619 | the first admission loop stops with every task launched or every slot taken, never launching past `tasks` or taking more than `concurrency` slots |
| IoAdmission.Refill | bench.cpp:629-632 | the refill loop stops with every task launched or every slot taken, and leaves `last_pending` equal to `pending` |
| IoAdmission.Wake | bench.cpp:518-520 | resuming the live frame at `i` changes only slot `i`, and `pending` falls by one exactly when that frame reaches its final suspend; `pending` still counts the unfinished frames, and either a system-call result was consumed or `pending` fell |
| IoAdmission.Poll | bench.cpp:462-479 | one event delivery keeps the frames consistent with `pending`, never raises `pending`, and makes progress in the results, in `pending` or in the readiness stream |
| IoAdmission.RunUntil | bench.cpp:458-481 | `run_until` terminates (under the readiness fairness of `IoAdmission.Poll`) with `pending == 0` and changes nothing but the frames, `pending` and the two oracle streams; the launch counters stay as they were |
| IoAdmission.Drain | bench.cpp:621-635 | the outer loop terminates (under the same fairness) with `pending == 0`, and `pending <= inflight <= concurrency` and `launched <= tasks` hold at its head throughout |
| IoAdmission.IoCoroutinesAsWritten | bench.cpp:599-637 | as written, the function returns with every launched frame finished and `inflight <= concurrency`; when fewer than `tasks` were launched, at least `concurrency` frames finished inside `start()` |
| IoAdmission.LeakWitness | bench.cpp:537-541 | with two tasks, one slot and a failing `socket()`, only one task is ever launched |
| IoAdmission.IoCoroutinesCorrected | bench.cpp:599-637 | when a synchronously finished frame gives its slot back, every task is launched and every frame is finished on return |
| Args.Strtol | bench.cpp:61 | `strtol` gives a value in the `long` range; it consumes nothing (value 0) exactly when no digit follows the leading white space and optional sign, and otherwise `end` is the end of that digit run |
| Args.StrtolDecimal | bench.cpp:61 | every integer written in decimal, followed by a non-digit or the end, is read completely, and its value saturates to the nearest `long` bound when it does not fit |
| Args.StrtolPadded | bench.cpp:61 | leading white space, a `'+'` or `'-'` sign and leading zeros are accepted: `" +007"` followed by a non-digit reads as 7 and `" -007"` as -7, saturated to the `long` range, and the number ends where its digits end |
| Args.ToInt | bench.cpp:58-64 | `to_int` returns the default for a null pointer or when characters are left after the number, and otherwise the parsed value reduced to `int` |
| Args.ToIntDecimal | bench.cpp:58-64 | `to_int` inverts decimal printing: every `int` written in decimal reads back as itself |
| Args.TrailingRejected | bench.cpp:62 | any character after the number other than the terminator gives the default |
| Args.NoDigits | bench.cpp:61-63 | a string without digits gives the default, except the empty string, which reads as 0 |
| Args.Clamp | bench.cpp:98-102 | after clamping `tasks >= 1`, `concurrency >= 1`, `repeats >= 1`, `warmup >= 0`; the other four fields are untouched; a field only changes when it was out of range, and then becomes its bound |
| Args.ClampIdempotent | bench.cpp:98-102 | clamping an already clamped configuration changes nothing |
| Args.ParseArgs | bench.cpp:66-103 | every configuration `parse_args` returns satisfies the four lower bounds |
| Args.NoOptions | bench.cpp:47-56 | without options the defaults (2000 tasks, 200 concurrency, 5 repeats, 1 warmup, 200000 units, 256 bytes, backlog 4096, 20000 ms) are used |
| Args.TasksOption | bench.cpp:71-76 | `--tasks N` sets the task count to `N` (raised to 1 when smaller) and leaves every other field at its default |
| Args.FlagName | bench.cpp:75-82 | each of the eight value options is recognised as the option for its own field |
| Args.ScanTakesValue | bench.cpp:70-82 | a value option followed by another argument stores `to_int` of that argument, with the field's current value as the default, and the scan resumes two arguments on |
| Args.ValueIsConsumed | bench.cpp:70-74 | the argument after a value flag is consumed as its value even when it looks like a flag: `--tasks --help` keeps the default and does not print the usage |
| Args.CStrStops | bench.cpp:69 | an argument is judged on its characters before an embedded `'\0'`, as `std::string a = argv[i]` copies them: `"--tasks\0x"` is the option `--tasks` |
| Args.HelpStops | bench.cpp:84-95 | `--help` or `-h` reached by the scan ends it with the usage text, whatever follows |
| Stats.Sort | bench.cpp:111 | the sorted copy is ordered and a permutation of the input |
| Stats.SortedUnique | bench.go:59-60 | two sorted permutations of the same values are equal, so the sorting algorithm does not matter |
| Stats.Median | bench.cpp:110-113 | the median is one of the runs, at most `size / 2` runs lie strictly below it and at most `size - 1 - size / 2` strictly above it |
| Stats.MedianOfAnySort | bench.go:58-62 | for non-empty input, the median is the element at index `len / 2` of every sorted copy, so the C++ and Go versions agree |
| Stats.MedianBalanced | bench.cpp:110-113 | for an odd number of distinct runs, exactly half of the others lie on each side of the median |
| Stats.MinOf | bench.cpp:114-116 | `minv` returns an element of the input that is at most every element |
| Stats.MaxOf | bench.cpp:117-119 | `maxv` returns an element of the input that is at least every element |
| Stats.MinMedianMax | bench.go:54-56 | for a non-empty run list, `Min() <= Median() <= Max()` |
| Stats.MinDur | bench.go:64-72 | `minDur` returns an element at most every element, the same value as the C++ `minv` |
| Stats.MaxDur | bench.go:74-82 | `maxDur` returns an element at least every element, the same value as the C++ `maxv` |

## Left out

- Threads, processes and goroutines (`cpu_threads`, `cpu_processes`, `io_threads`, `io_processes` and the Go and Python pool drivers) are left out: they are OS concurrency.
- The echo server, timing (`seconds_now`, `run_repeated`) and table printing are left out: they are I/O, clocks and output formatting.
- Python's `io_bound.py` is left out. It is asyncio streams and pools, and its `statistics.median` averages floats.
- The statistics members require at least one run. On an empty vector the C++ helpers index or dereference past the end, which is undefined behaviour, and the Go helpers panic on `xs[0]`. In C++ the case cannot arise, because `parse_args` raises `repeats` to at least 1. In Go it can: `parseArgs` does not clamp, so `-repeats 0` leaves `Runs` empty and `median` panics at `tmp[len(tmp)/2]`. A negative `-repeats` panics earlier, in `make`. The model excludes these panics.
- Medians and extremes of `double` timings are modelled over integers. NaN and floating-point ordering are not modelled.
- The `kqueue` and `kevent` system calls are not modelled: arming, the one-second timeout, the `EINTR` retry, and the `exit(1)` on a failed `kevent`. Readiness comes from an oracle that names a frame or delivers nothing.
- `socket`, `fcntl`, `connect`, `getsockopt`, `send` and `recv` are results drawn in order from one oracle stream. `close` draws no result: `io_client_task` ignores what it returns. The single thread makes their order total. Port numbers and addresses are not modelled.
- IoAdmission.Poll: a batch of events from one `kevent` call is modelled as consecutive single deliveries. Once the readiness stream is exhausted, the lowest-indexed live frame is taken to fire; this fairness assumption is what makes `run_until` terminate. The real loop waits forever if a socket never becomes ready.
- IoClient.Next: once the result stream is exhausted, every further system call fails with a non-would-block error. This bounds every script.
- IoClient.SendPhase: a positive `send` count is capped at the bytes requested, as `send(2)` guarantees. The model does not assume the oracle respects that.
- IoClient.RecvPhase: a positive `recv` count is capped at the bytes requested, as `recv(2)` guarantees.
- IoClient.NewIoTask: the payload size is a natural number. A negative `--payload-size` is not clamped by `parse_args`; converting it to `size_t` makes the vector allocation throw, which terminates the program. That path is not modelled.
- IoAdmission.IoCoroutinesAsWritten: does not promise that every task is launched, because the code as written does not guarantee it (see Findings).
- CpuScheduler.CpuCoroutines: requires `concurrency >= 1`. `parse_args` guarantees it; with no slot and at least one task the source loops forever.
- Args.ToInt: `strtol` is modelled for the C locale and base 10 only. Its `ERANGE` saturation is kept and `errno` itself is not.
- `std::coroutine_handle` mechanics beyond done/resume/destroy are left out, as is the memory of frames, which are values here.
- Go's `cpuGoroutines` with its unsynchronised `sum ^=` is left out: it is a data race between goroutines.

## Findings

| source | as written | input that shows it | evidently intended | confidence | as-written member | corrected member |
|---|---|---|---|---|---|---|
| bench.cpp:609-633 | `launch_one` adds 1 to `inflight`, but `inflight` only drops by `last_pending - p` after `run_until`. A frame that finishes inside `start()` has already lowered `pending` before `last_pending` is read, so its slot is never returned, and the outer loop exits when nothing is pending | `tasks = 2`, `concurrency = 1`, first `socket()` fails: one task is launched and the function returns | every requested connection is attempted; a frame that finishes synchronously frees its slot | not executed | IoAdmission.LeakWitness | IoAdmission.IoCoroutinesCorrected |
