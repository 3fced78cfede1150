/** `cpu_coroutine_job`: the work function cut into chunks of at most `chunk`
    steps, with a cooperative yield after every chunk. The coroutine frame is
    modelled as a value: the accumulator, the number of steps already done,
    and the suspension point the frame is parked at. */
module CpuJobs {
  import opened Word32
  import opened CpuWork
  import opened Counts

  /** The suspension point of a frame: `Created` is the initial suspend
      (the frame exists but has not run), `Yielded` the `co_await` after a
      chunk, `Completed` the final suspend (`done()` is true). */
  datatype Stage = Created | Yielded | Completed

  datatype Job = Job(units: Int32, chunk: Int32, acc: U32, done: int, stage: Stage)

  /** The frame `cpu_coroutine_job(units, chunk, out)` returns. */
  function NewJob(units: Int32, chunk: Int32): Job
  {
    Job(units, chunk, 0, 0, Created)
  }

  /** What holds of every frame reachable from `NewJob` with a positive
      chunk: the accumulator is the recurrence at the number of steps done,
      and `done` never overshoots a positive unit count. */
  ghost predicate Valid(j: Job)
  {
    && j.chunk >= 1
    && 0 <= j.done
    && (j.done == 0 || j.done <= j.units)
    && j.acc == Lcg(j.done)
    && (j.stage == Created ==> j.done == 0)
    && (j.stage == Completed ==> j.units <= j.done)
  }

  /** The number of chunks of at most `c` steps that cover `n` steps: the
      ceiling of `n / c`, and zero when there is nothing to do. */
  function Chunks(n: int, c: int): (r: nat)
    requires c >= 1
    ensures n <= 0 ==> r == 0
    ensures n > 0 ==> r >= 1
    decreases n
  {
    if n <= 0 then 0 else 1 + Chunks(n - c, c)
  }

  /** `Chunks` is the ceiling of the quotient: `r` chunks of `c` steps fall
      short of `n`, or cover it with less than one chunk to spare. */
  lemma {:induction false} ChunksIsCeiling(n: int, c: int)
    requires c >= 1 && n > 0
    ensures (Chunks(n, c) - 1) * c < n <= Chunks(n, c) * c
    decreases n
  {
    if n > c {
      ChunksIsCeiling(n - c, c);
    }
  }

  /** How many more `resume()` calls the frame needs before `done()`:
      one per chunk still to run, plus the one that XORs and returns. */
  function Remaining(j: Job): nat
    requires j.chunk >= 1
  {
    if j.stage == Completed then 0 else Chunks(j.units - j.done, j.chunk) + 1
  }

  /** One `resume()` of the frame: run the next chunk and yield, or, when
      all units are done, XOR the accumulator into `out` and complete.
      Resuming a completed frame does nothing (`CpuTask::resume` checks
      `h.done()`). The second component is the new value of `*out`. */
  function Resume(j: Job, out: U32): (r: (Job, U32))
    ensures r.0.units == j.units && r.0.chunk == j.chunk
    ensures r.0.stage != Created
    ensures Valid(j) ==> Valid(r.0)
    ensures j.stage != Completed && j.chunk >= 1 ==> Remaining(r.0) + 1 == Remaining(j)
    ensures r.0.stage == Yielded && j.chunk >= 1 ==> 0 < r.0.done - j.done <= j.chunk
    ensures r.0.stage == Yielded ==> r.1 == out
    ensures Valid(j) && j.stage != Completed && r.0.stage == Completed ==>
              r.1 == Xor(out, Lcg(j.units))
    ensures j.stage == Completed ==> r == (j, out)
  {
    if j.stage == Completed then (j, out)
    else if j.done < j.units then
      var step := Min(j.chunk, j.units - j.done);
      AdvanceResume(j, step);
      (j.(acc := Advance(j.acc, j.done, step), done := j.done + step, stage := Yielded), out)
    else
      (j.(stage := Completed), Xor(out, j.acc))
  }

  lemma {:induction false} AdvanceResume(j: Job, step: int)
    ensures Valid(j) && j.done < j.units && step > 0 ==>
              Advance(j.acc, j.done, step) == Lcg(j.done + step)
  {
    if Valid(j) && j.done < j.units && step > 0 {
      AdvanceContinues(j.done, step);
    }
  }

  function Sum(s: seq<int>): int
  {
    if |s| == 0 then 0 else Sum(s[..|s| - 1]) + s[|s| - 1]
  }

  /** The whole remaining life of a frame: what `*out` ends as, and the
      size of each chunk, in the order the frame yields after them. */
  datatype Lifetime = Lifetime(out: U32, steps: seq<int>)

  /** Resume the frame until `done()`. */
  function Drive(j: Job, out: U32): (r: Lifetime)
    requires Valid(j)
    ensures j.stage == Completed ==> r == Lifetime(out, [])
    ensures j.stage != Completed ==> |r.steps| == Chunks(j.units - j.done, j.chunk)
    ensures forall k :: 0 <= k < |r.steps| ==> 0 < r.steps[k] <= j.chunk
    ensures j.stage != Completed ==> Sum(r.steps) == (if j.done < j.units then j.units - j.done else 0)
    ensures j.stage != Completed ==> r.out == Xor(out, Lcg(j.units))
    decreases Remaining(j)
  {
    if j.stage == Completed then Lifetime(out, [])
    else
      var p := Resume(j, out);
      var next := p.0;
      var rest := Drive(next, p.1);
      if next.stage == Yielded then
        var step := next.done - j.done;
        PrependStep(step, rest.steps, j.chunk);
        Lifetime(rest.out, [step] + rest.steps)
      else
        rest
  }

  /** A chunk in range put in front of chunks in range: every chunk is
      still in range, and the total grows by the new chunk. */
  lemma {:induction false} PrependStep(step: int, s: seq<int>, c: int)
    requires 0 < step <= c
    requires forall k :: 0 <= k < |s| ==> 0 < s[k] <= c
    ensures forall k :: 0 <= k < |[step] + s| ==> 0 < ([step] + s)[k] <= c
    ensures Sum([step] + s) == step + Sum(s)
  {
    var steps := [step] + s;
    assert forall k :: 1 <= k < |steps| ==> steps[k] == s[k - 1];
    SumPrepend(step, s);
  }

  lemma {:induction false} SumPrepend(x: int, s: seq<int>)
    ensures Sum([x] + s) == x + Sum(s)
    decreases |s|
  {
    if |s| > 0 {
      assert ([x] + s)[..|s|] == [x] + s[..|s| - 1];
      SumPrepend(x, s[..|s| - 1]);
    }
  }

  /** A fresh job: it suspends exactly ceil(units / chunk) times (never,
      when `units <= 0`), every chunk is between 1 and `chunk` steps, the
      chunks add up to exactly `units`, and the value XOR-ed into `out` is
      the plain `cpu_work(units)` — the chunking is invisible. */
  lemma {:induction false} FreshJobLifetime(units: Int32, chunk: Int32, out: U32)
    requires chunk >= 1
    ensures var r := Drive(NewJob(units, chunk), out);
      && |r.steps| == Chunks(units, chunk)
      && (forall k :: 0 <= k < |r.steps| ==> 0 < r.steps[k] <= chunk)
      && Sum(r.steps) == (if units > 0 then units else 0)
      && r.out == Xor(out, Lcg(units))
      && (units > 0 ==> (|r.steps| - 1) * chunk < units <= |r.steps| * chunk)
  {
    if units > 0 {
      ChunksIsCeiling(units, chunk);
    }
  }
}
