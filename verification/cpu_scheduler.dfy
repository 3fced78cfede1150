/** `cpu_coroutines`: a single-threaded round-robin scheduler over at most
    `concurrency` chunked CPU jobs. Admission fills the active vector; each
    sweep resumes every unfinished job once and swap-removes finished ones,
    launching one new job per removal while tasks remain. */
module CpuScheduler {
  import opened Word32
  import opened CpuWork
  import opened CpuJobs
  import opened Counts

  /** The chunk size `cpu_coroutines` hands to every job. */
  const ChunkSize: Int32 := 5000

  /** With the default `--cpu-units` of 200000, every job of
      `cpu_coroutines` suspends 40 times. */
  lemma {:induction false} DefaultJobChunks(out: U32)
    ensures |Drive(NewJob(200000, ChunkSize), out).steps| == 40
  {
    FreshJobLifetime(200000, ChunkSize, out);
    var n := |Drive(NewJob(200000, ChunkSize), out).steps|;
    assert (n - 1) * 5000 < 200000 <= n * 5000;
  }

  /** `CpuTask`: a move-only handle that owns one coroutine frame, or is
      empty once its frame has been moved out. */
  datatype CpuTask = Empty | Owning(job: Job)

  /** `done()`: an empty handle counts as done. */
  predicate IsDone(t: CpuTask)
  {
    t.Empty? || t.job.stage == Completed
  }

  /** `resume()`: resumes only a non-empty handle whose frame is not done. */
  function ResumeTask(t: CpuTask, out: U32): (r: (CpuTask, U32))
    ensures IsDone(t) ==> r == (t, out)
    ensures t.Owning? ==> r.0.Owning? && r.0.job == Resume(t.job, out).0
    ensures !IsDone(t) ==> r.1 == Resume(t.job, out).1
  {
    if IsDone(t) then (t, out)
    else
      var p := Resume(t.job, out);
      (Owning(p.0), p.1)
  }

  /** `s[dst] = std::move(s[src])`: the move assignment leaves the source
      empty, and does nothing at all when the two are the same object. */
  function MoveAssign(s: seq<CpuTask>, dst: nat, src: nat): (r: seq<CpuTask>)
    requires dst < |s| && src < |s|
    ensures |r| == |s|
    ensures dst != src ==> r[dst] == s[src] && r[src] == Empty
    ensures forall k :: 0 <= k < |s| && k != dst && k != src ==> r[k] == s[k]
    ensures dst == src ==> r == s
  {
    if dst == src then s else s[dst := s[src]][src := Empty]
  }

  /** `active[i] = std::move(active.back()); active.pop_back();` — the last
      handle takes the place of the one at `i`, and every other handle stays
      where it was. */
  function SwapRemove(s: seq<CpuTask>, i: nat): (r: seq<CpuTask>)
    requires i < |s|
    ensures |r| == |s| - 1
    ensures forall k :: 0 <= k < |r| && k != i ==> r[k] == s[k]
    ensures i < |r| ==> r[i] == s[|s| - 1]
  {
    var n := |s|;
    var r := MoveAssign(s, i, n - 1)[..n - 1];
    assert i < n - 1 ==> r == s[..n - 1][i := s[n - 1]];
    assert i == n - 1 ==> r == s[..n - 1];
    r
  }

  /** Exactly the handle at `i` leaves the vector: nothing is lost or
      duplicated by the move. */
  lemma {:induction false} SwapRemovePermutes(s: seq<CpuTask>, i: nat)
    requires i < |s|
    ensures multiset(SwapRemove(s, i)) == multiset(s) - multiset{s[i]}
  {
    var n := |s|;
    if i < n - 1 {
      assert SwapRemove(s, i) == s[..n - 1][i := s[n - 1]];
      ReplaceByLast(s, i);
    } else {
      assert s == SwapRemove(s, i) + [s[n - 1]];
    }
  }

  /** Overwriting slot `i` with the last element and dropping the last
      slot loses exactly the element that was at `i`. */
  lemma {:induction false} ReplaceByLast<T>(s: seq<T>, i: nat)
    requires i < |s| - 1
    ensures multiset(s[..|s| - 1][i := s[|s| - 1]]) == multiset(s) - multiset{s[i]}
  {
    var n := |s|;
    var front, middle := s[..i], s[i + 1..n - 1];
    assert s == front + [s[i]] + middle + [s[n - 1]];
    assert s[..n - 1][i := s[n - 1]] == front + [s[n - 1]] + middle;
    MoveLastInto(front, middle, s[i], s[n - 1]);
  }

  /** Putting the last element in place of `x` loses exactly `x`. */
  lemma {:induction false} MoveLastInto<T>(front: seq<T>, middle: seq<T>, x: T, y: T)
    ensures multiset(front + [y] + middle) == multiset(front + [x] + middle + [y]) - multiset{x}
  {
  }

  /** A handle in the active vector: it owns a valid frame of this run
      that has already been resumed once by `launch_one`. */
  ghost predicate Good(t: CpuTask, units: Int32)
  {
    && t.Owning?
    && t.job.units == units
    && t.job.chunk == ChunkSize
    && Valid(t.job)
    && t.job.stage != Created
  }

  ghost predicate AllGood(s: seq<CpuTask>, units: Int32)
  {
    forall k :: 0 <= k < |s| ==> Good(s[k], units)
  }

  /** 1 for a handle whose frame has already XOR-ed its result into the checksum. */
  function CompletedFlag(t: CpuTask): nat
  {
    if t.Owning? && t.job.stage == Completed then 1 else 0
  }

  /** The resumes a handle still needs, plus one for its removal. */
  function TaskCost(t: CpuTask): nat
  {
    if t.Empty? || t.job.chunk < 1 then 0 else Remaining(t.job) + 1
  }

  /** The two per-handle quantities the scheduler adds up over its vector. */
  datatype Measure = Cost | Flag

  function Weight(t: CpuTask, m: Measure): nat
  {
    match m
    case Cost => TaskCost(t)
    case Flag => CompletedFlag(t)
  }

  function SumOf(s: seq<CpuTask>, m: Measure): nat
  {
    if |s| == 0 then 0 else SumOf(s[..|s| - 1], m) + Weight(s[|s| - 1], m)
  }

  lemma {:induction false} SumOfConcat(a: seq<CpuTask>, b: seq<CpuTask>, m: Measure)
    ensures SumOf(a + b, m) == SumOf(a, m) + SumOf(b, m)
    decreases |b|
  {
    if |b| > 0 {
      assert (a + b)[..|a + b| - 1] == a + b[..|b| - 1];
      SumOfConcat(a, b[..|b| - 1], m);
    } else {
      assert a + b == a;
    }
  }

  lemma {:induction false} SumOfAppend(s: seq<CpuTask>, t: CpuTask, m: Measure)
    ensures SumOf(s + [t], m) == SumOf(s, m) + Weight(t, m)
  {
    assert (s + [t])[..|s|] == s;
  }

  lemma {:induction false} SumOfSingle(t: CpuTask, m: Measure)
    ensures SumOf([t], m) == Weight(t, m)
  {
    assert [t][..0] == [];
  }

  lemma {:induction false} SumOfUpdate(s: seq<CpuTask>, i: nat, t: CpuTask, m: Measure)
    requires i < |s|
    ensures SumOf(s[i := t], m) + Weight(s[i], m) == SumOf(s, m) + Weight(t, m)
  {
    assert s == s[..i] + [s[i]] + s[i + 1..];
    assert s[i := t] == s[..i] + [t] + s[i + 1..];
    SumOfConcat(s[..i] + [s[i]], s[i + 1..], m);
    SumOfConcat(s[..i] + [t], s[i + 1..], m);
    SumOfConcat(s[..i], [s[i]], m);
    SumOfConcat(s[..i], [t], m);
    SumOfSingle(s[i], m);
    SumOfSingle(t, m);
  }

  lemma {:induction false} SumOfSwapRemove(s: seq<CpuTask>, i: nat, m: Measure)
    requires i < |s|
    ensures SumOf(SwapRemove(s, i), m) + Weight(s[i], m) == SumOf(s, m)
  {
    var n := |s|;
    var r := SwapRemove(s, i);
    if i < n - 1 {
      assert r == s[..n - 1][i := s[n - 1]];
      SumOfUpdate(s[..n - 1], i, s[n - 1], m);
    } else {
      assert r == s[..n - 1];
    }
  }

  /** What a job not yet launched still costs: every resume plus its removal. */
  function FreshCost(units: Int32): nat
  {
    Remaining(NewJob(units, ChunkSize)) + 1
  }

  /** The cost of `n` jobs not yet launched. */
  function Backlog(n: int, units: Int32): nat
    decreases n
  {
    if n <= 0 then 0 else FreshCost(units) + Backlog(n - 1, units)
  }

  /** The checksum left by `n` calls of `fetch_xor(w)` on a
      zero-initialised `std::atomic<uint32_t>`. */
  function XorTimes(n: nat, w: U32): U32
    decreases n
  {
    if n == 0 then 0 else Xor(XorTimes(n - 1, w), w)
  }

  /** Equal results cancel in pairs: after an even number of XORs of `w`
      the checksum is 0 again, after an odd number it is `w`. */
  lemma {:induction false} XorTimesParity(n: nat, w: U32)
    ensures XorTimes(n, w) == if n % 2 == 0 then 0 else w
    decreases n
  {
    if n > 0 {
      XorTimesParity(n - 1, w);
      if (n - 1) % 2 == 0 {
        assert Xor(0, w) == w;
      } else {
        XorBitsSelf(w);
      }
    }
  }

  /** The scheduler's variables: the active vector, the `launched` and
      `finished` counters, the checksum, and the largest size the active
      vector has reached so far. */
  datatype Sched = Sched(active: seq<CpuTask>, launched: int, finished: int, checksum: U32, peak: int)

  /** The checksum holds one `cpu_work(units)` per job that has XOR-ed its
      result: the finished ones and the completed ones still in the vector. */
  ghost predicate Summed(s: Sched, units: Int32)
  {
    && 0 <= s.finished
    && s.checksum == XorTimes(s.finished + SumOf(s.active, Flag), Lcg(units))
  }

  /** The scheduler's termination measure. */
  function Work(s: Sched, tasks: int, units: Int32): nat
  {
    SumOf(s.active, Cost) + Backlog(tasks - s.launched, units)
  }

  /** The scheduler state between two steps of `cpu_coroutines`. */
  ghost predicate Inv(s: Sched, tasks: int, concurrency: int, units: Int32)
  {
    && AllGood(s.active, units)
    && Summed(s, units)
    && s.finished + |s.active| == s.launched <= Goal(tasks)
    && |s.active| <= s.peak <= concurrency
    && (s.launched < tasks ==> |s.active| == concurrency)
  }

  /** `launch_one`: construct the job, resume it once, append its handle,
      count it as launched. */
  function LaunchOne(s: Sched, units: Int32): (r: Sched)
    ensures |r.active| == |s.active| + 1 && r.active[..|s.active|] == s.active
    ensures r.launched == s.launched + 1 && r.finished == s.finished
    ensures r.peak == if |r.active| > s.peak then |r.active| else s.peak
    ensures Good(r.active[|s.active|], units)
    ensures TaskCost(r.active[|s.active|]) + 1 == FreshCost(units)
    ensures r.checksum == if CompletedFlag(r.active[|s.active|]) == 1
                          then Xor(s.checksum, Lcg(units)) else s.checksum
  {
    var p := ResumeTask(Owning(NewJob(units, ChunkSize)), s.checksum);
    var active := s.active + [p.0];
    Sched(active, s.launched + 1, s.finished, p.1, if |active| > s.peak then |active| else s.peak)
  }

  /** The checksum after a step that XORs the task result at most once. */
  lemma {:induction false} ChecksumAfter(n: nat, w: U32, before: U32, after: U32, flag: nat)
    requires before == XorTimes(n, w)
    requires flag <= 1
    requires after == if flag == 1 then Xor(before, w) else before
    ensures after == XorTimes(n + flag, w)
  {
    if flag == 1 {
      assert XorTimes(n + 1, w) == Xor(XorTimes(n, w), w);
    }
  }

  /** Appending a launched handle keeps the checksum equation and trades
      one job of backlog for one active handle one resume shorter. */
  lemma {:induction false} LaunchAccounting(s: Sched, units: Int32)
    requires Summed(s, units)
    ensures Summed(LaunchOne(s, units), units)
    ensures SumOf(LaunchOne(s, units).active, Cost) + 1 == SumOf(s.active, Cost) + FreshCost(units)
  {
    var r := LaunchOne(s, units);
    var t := r.active[|s.active|];
    assert r.active == s.active + [t];
    AppendAccounting(s, r, t, units);
  }

  /** Appending one handle `t`, whose frame XOR-ed its result exactly when
      it has completed, keeps the checksum equation and adds its cost. */
  lemma {:induction false} AppendAccounting(s: Sched, r: Sched, t: CpuTask, units: Int32)
    requires Summed(s, units)
    requires r.active == s.active + [t] && r.finished == s.finished
    requires r.checksum == if CompletedFlag(t) == 1 then Xor(s.checksum, Lcg(units)) else s.checksum
    ensures Summed(r, units)
    ensures SumOf(r.active, Cost) == SumOf(s.active, Cost) + TaskCost(t)
  {
    SumOfAppend(s.active, t, Flag);
    SumOfAppend(s.active, t, Cost);
    ChecksumAfter(s.finished + SumOf(s.active, Flag), Lcg(units), s.checksum, r.checksum, CompletedFlag(t));
  }

  /** Appending a launched handle keeps every handle good. */
  lemma {:induction false} LaunchGood(s: Sched, units: Int32)
    requires AllGood(s.active, units)
    ensures AllGood(LaunchOne(s, units).active, units)
  {
    var r := LaunchOne(s, units);
    forall k | 0 <= k < |r.active|
      ensures Good(r.active[k], units)
    {
      if k < |s.active| {
        assert r.active[k] == r.active[..|s.active|][k];
      }
    }
  }

  /** The state right after the done handle at `i` is swap-removed and
      counted as finished. */
  function Removed(s: Sched, i: nat): (r: Sched)
    requires i < |s.active|
    ensures r.active == SwapRemove(s.active, i) && r.finished == s.finished + 1
    ensures r.launched == s.launched && r.checksum == s.checksum && r.peak == s.peak
  {
    s.(active := SwapRemove(s.active, i), finished := s.finished + 1)
  }

  /** The branch of the sweep for a done handle: swap-remove it, count it
      as finished, and launch a replacement while tasks remain. */
  function Retire(s: Sched, i: nat, tasks: int, units: Int32): Sched
    requires i < |s.active|
  {
    var removed := Removed(s, i);
    if removed.launched < tasks then LaunchOne(removed, units) else removed
  }

  /** The branch of the sweep for a handle that is not done: resume it. */
  function ResumeAt(s: Sched, i: nat): Sched
    requires i < |s.active|
  {
    var p := ResumeTask(s.active[i], s.checksum);
    s.(active := s.active[i := p.0], checksum := p.1)
  }

  /** A done handle of the vector has XOR-ed its result already and costs
      nothing but its removal. */
  lemma {:induction false} DoneHandle(t: CpuTask, units: Int32)
    requires Good(t, units) && IsDone(t)
    ensures CompletedFlag(t) == 1 && TaskCost(t) == 1
  {
  }

  /** Removing a done handle and counting it as finished keeps the checksum
      equation and frees the handle's last unit of cost. */
  lemma {:induction false} RemoveAccounting(s: Sched, i: nat, units: Int32)
    requires i < |s.active| && Summed(s, units)
    requires CompletedFlag(s.active[i]) == 1 && TaskCost(s.active[i]) == 1
    ensures Summed(Removed(s, i), units)
    ensures SumOf(Removed(s, i).active, Cost) + 1 == SumOf(s.active, Cost)
  {
    SumOfSwapRemove(s.active, i, Flag);
    SumOfSwapRemove(s.active, i, Cost);
  }

  /** Removing a handle keeps the others good. */
  lemma {:induction false} RemoveGood(s: seq<CpuTask>, i: nat, units: Int32)
    requires i < |s| && AllGood(s, units)
    ensures AllGood(SwapRemove(s, i), units)
  {
    var r := SwapRemove(s, i);
    forall k | 0 <= k < |r|
      ensures Good(r[k], units)
    {
      if k == i {
        assert r[k] == s[|s| - 1];
      } else {
        assert r[k] == s[k];
      }
    }
  }

  /** Retiring a done handle keeps the invariant — in particular the handle
      removed had already XOR-ed its result, so counting it as finished
      keeps the checksum equation — and uses up work. */
  lemma {:induction false} RetireStep(s: Sched, i: nat, tasks: int, concurrency: int, units: Int32)
    requires Inv(s, tasks, concurrency, units)
    requires i < |s.active| && IsDone(s.active[i])
    ensures var r := Retire(s, i, tasks, units);
      && Inv(r, tasks, concurrency, units)
      && r.peak == s.peak
      && Work(r, tasks, units) < Work(s, tasks, units)
  {
    DoneHandle(s.active[i], units);
    RemoveAccounting(s, i, units);
    RemoveGood(s.active, i, units);
    var removed := Removed(s, i);
    if removed.launched < tasks {
      LaunchAccounting(removed, units);
      LaunchGood(removed, units);
    }
  }

  /** Resuming one good handle that is not done: it stays good, needs one
      resume fewer, and XORs the result exactly when it completes. */
  lemma {:induction false} ResumeGood(t: CpuTask, out: U32, units: Int32)
    requires Good(t, units) && !IsDone(t)
    ensures var r := ResumeTask(t, out);
      && Good(r.0, units)
      && TaskCost(r.0) + 1 == TaskCost(t)
      && CompletedFlag(t) == 0
      && r.1 == if CompletedFlag(r.0) == 1 then Xor(out, Lcg(units)) else out
  {
  }

  /** Resuming a handle that is not done keeps the checksum equation and
      uses up one resume of work. */
  lemma {:induction false} ResumeAtAccounting(s: Sched, i: nat, units: Int32)
    requires i < |s.active| && Summed(s, units)
    requires Good(s.active[i], units) && !IsDone(s.active[i])
    ensures Summed(ResumeAt(s, i), units)
    ensures SumOf(ResumeAt(s, i).active, Cost) + 1 == SumOf(s.active, Cost)
  {
    var t := s.active[i];
    var p := ResumeTask(t, s.checksum);
    ResumeGood(t, s.checksum, units);
    UpdateAccounting(s, ResumeAt(s, i), i, p.0, units);
  }

  /** Replacing a handle that has not XOR-ed its result by `t`, whose frame
      XOR-ed its result exactly when it has completed, keeps the checksum
      equation and trades the old handle's cost for the new one's. */
  lemma {:induction false} UpdateAccounting(s: Sched, r: Sched, i: nat, t: CpuTask, units: Int32)
    requires Summed(s, units) && i < |s.active| && CompletedFlag(s.active[i]) == 0
    requires r.active == s.active[i := t] && r.finished == s.finished
    requires r.checksum == if CompletedFlag(t) == 1 then Xor(s.checksum, Lcg(units)) else s.checksum
    ensures Summed(r, units)
    ensures SumOf(r.active, Cost) + TaskCost(s.active[i]) == SumOf(s.active, Cost) + TaskCost(t)
  {
    SumOfUpdate(s.active, i, t, Flag);
    SumOfUpdate(s.active, i, t, Cost);
    ChecksumAfter(s.finished + SumOf(s.active, Flag), Lcg(units), s.checksum, r.checksum, CompletedFlag(t));
  }

  /** Resuming a handle keeps every handle good. */
  lemma {:induction false} ResumeAtGood(s: Sched, i: nat, units: Int32)
    requires i < |s.active| && AllGood(s.active, units) && !IsDone(s.active[i])
    ensures AllGood(ResumeAt(s, i).active, units)
  {
    var r := ResumeAt(s, i);
    ResumeGood(s.active[i], s.checksum, units);
    forall k | 0 <= k < |r.active|
      ensures Good(r.active[k], units)
    {
      if k != i {
        assert r.active[k] == s.active[k];
      }
    }
  }

  /** Resuming a handle that is not done keeps the invariant and uses up
      one resume of work. */
  lemma {:induction false} ResumeAtStep(s: Sched, i: nat, tasks: int, concurrency: int, units: Int32)
    requires Inv(s, tasks, concurrency, units)
    requires i < |s.active| && !IsDone(s.active[i])
    ensures var r := ResumeAt(s, i);
      && Inv(r, tasks, concurrency, units)
      && r.peak == s.peak && |r.active| == |s.active|
      && Work(r, tasks, units) < Work(s, tasks, units)
  {
    ResumeAtAccounting(s, i, units);
    ResumeAtGood(s, i, units);
  }

  /** One round-robin sweep over the active vector (the `for` loop of
      `cpu_coroutines`): a done handle is swap-removed and counted as
      finished, and a new job is launched into the freed slot while tasks
      remain; every other handle is resumed once and the sweep moves on. */
  method Sweep(s0: Sched, tasks: Int32, concurrency: Int32, units: Int32) returns (s: Sched)
    requires Inv(s0, tasks, concurrency, units)
    requires |s0.active| > 0
    ensures Inv(s, tasks, concurrency, units)
    ensures s.peak == s0.peak
    ensures Work(s, tasks, units) < Work(s0, tasks, units)
  {
    s := s0;
    var i := 0;
    while i < |s.active|
      invariant 0 <= i <= |s.active|
      invariant Inv(s, tasks, concurrency, units)
      invariant s.peak == s0.peak
      invariant (i == 0 && s == s0) || Work(s, tasks, units) < Work(s0, tasks, units)
      decreases Work(s, tasks, units)
    {
      if IsDone(s.active[i]) {
        RetireStep(s, i, tasks, concurrency, units);
        s := Retire(s, i, tasks, units);
      } else {
        ResumeAtStep(s, i, tasks, concurrency, units);
        s := ResumeAt(s, i);
        i := i + 1;
      }
    }
  }

  /** `cpu_coroutines(cfg)`. `concurrency` must be positive — `parse_args`
      guarantees it; with no slot the scheduler would spin forever.
      Every requested task is launched and finished, the active vector never
      holds more than `concurrency` handles (and holds exactly
      `min(tasks, concurrency)` after admission), and the checksum is the
      XOR of one `cpu_work(units)` per task, whatever the concurrency. */
  method CpuCoroutines(tasks: Int32, concurrency: Int32, units: Int32)
    returns (launched: int, finished: int, checksum: U32, peak: int)
    requires concurrency >= 1
    ensures launched == Goal(tasks) && finished == Goal(tasks)
    ensures peak <= concurrency
    ensures peak == if Goal(tasks) < concurrency then Goal(tasks) else concurrency
    ensures checksum == XorTimes(Goal(tasks), Lcg(units))
  {
    var s := Sched([], 0, 0, 0, 0);
    while s.launched < tasks && |s.active| < concurrency
      invariant AllGood(s.active, units) && Summed(s, units)
      invariant s.finished == 0 && |s.active| == s.launched <= Goal(tasks)
      invariant |s.active| == s.peak <= concurrency
      decreases tasks - s.launched
    {
      LaunchAccounting(s, units);
      LaunchGood(s, units);
      s := LaunchOne(s, units);
    }
    while s.finished < tasks
      invariant Inv(s, tasks, concurrency, units)
      invariant s.peak == if Goal(tasks) < concurrency then Goal(tasks) else concurrency
      decreases Work(s, tasks, units)
    {
      s := Sweep(s, tasks, concurrency, units);
    }
    assert |s.active| == 0;
    launched, finished, checksum, peak := s.launched, s.finished, s.checksum, s.peak;
  }
}
