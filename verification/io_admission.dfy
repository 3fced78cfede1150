/** `io_coroutines_kqueue` and `KqueueLoop::run_until`: admit client
    coroutines while fewer than `concurrency` are in flight, drive the event
    loop until every started coroutine has finished, then admit more.

    `pending` counts started frames that have not reached their final
    suspend (each frame decrements it there). `inflight` is the admission
    counter: it grows by one per launch and, after the event loop drains,
    shrinks by the drop in `pending` since the last refill. A frame that
    finishes inside `start()` lowers `pending` before `last_pending` is
    read, so its slot is never returned: the `Policy` parameter selects
    that behaviour (`AsWritten`) or the one where such a frame gives its
    slot back at once (`ReleaseOnSyncFinish`). */
module IoAdmission {
  import opened Word32
  import opened IoClient
  import opened Counts

  datatype Policy = AsWritten | ReleaseOnSyncFinish

  /** One readiness delivery of `kevent`: the frame at index `slot` of the
      active vector becomes writable or readable, or the wait returns with
      nothing to resume (timeout, `EINTR`, an event without a handle). A
      batch of events is a run of consecutive `Fires`. */
  datatype Ready = Fires(slot: nat) | Quiet

  /** The state of `io_coroutines_kqueue`: the active vector, the counters,
      the frames that finished inside `start()` so far, and the two oracles
      that stand for the kernel. */
  datatype Loop = Loop(
    active: seq<IoTask>,
    pending: int,
    inflight: int,
    launched: int,
    lastPending: int,
    syncDone: nat,
    sys: seq<SysResult>,
    ready: seq<Ready>)

  predicate Live(t: IoTask)
  {
    !t.point.Finished?
  }

  /** The number of frames that have not reached their final suspend. */
  function CountLive(s: seq<IoTask>): (r: nat)
    ensures r <= |s|
  {
    if |s| == 0 then 0 else CountLive(s[..|s| - 1]) + (if Live(s[|s| - 1]) then 1 else 0)
  }

  /** No live frame is left exactly when the count is zero. */
  lemma {:induction false} CountLiveZero(s: seq<IoTask>)
    ensures CountLive(s) == 0 <==> forall i :: 0 <= i < |s| ==> !Live(s[i])
    decreases |s|
  {
    if |s| > 0 {
      CountLiveZero(s[..|s| - 1]);
      assert forall i :: 0 <= i < |s| - 1 ==> s[..|s| - 1][i] == s[i];
    }
  }

  /** Replacing one frame changes the count by what the two frames add. */
  lemma {:induction false} CountLiveUpdate(s: seq<IoTask>, i: nat, t: IoTask)
    requires i < |s|
    ensures CountLive(s[i := t]) + (if Live(s[i]) then 1 else 0)
         == CountLive(s) + (if Live(t) then 1 else 0)
    decreases |s|
  {
    if i < |s| - 1 {
      assert s[i := t][..|s| - 1] == s[..|s| - 1][i := t];
      CountLiveUpdate(s[..|s| - 1], i, t);
    } else {
      assert s[i := t][..|s| - 1] == s[..|s| - 1];
    }
  }

  lemma {:induction false} CountLiveAppend(s: seq<IoTask>, t: IoTask)
    ensures CountLive(s + [t]) == CountLive(s) + (if Live(t) then 1 else 0)
  {
    assert (s + [t])[..|s|] == s;
  }

  /** The lowest index of a live frame. */
  function FirstLive(s: seq<IoTask>): (r: nat)
    requires CountLive(s) > 0
    ensures r < |s| && Live(s[r])
    ensures forall i :: 0 <= i < r ==> !Live(s[i])
    decreases |s|
  {
    if CountLive(s[..|s| - 1]) > 0 then
      var r := FirstLive(s[..|s| - 1]);
      assert forall i :: 0 <= i < r ==> s[..|s| - 1][i] == s[i];
      r
    else
      CountLiveZero(s[..|s| - 1]);
      assert forall i :: 0 <= i < |s| - 1 ==> s[..|s| - 1][i] == s[i];
      |s| - 1
  }

  /** Every frame is valid and has been started. */
  ghost predicate AllStarted(s: seq<IoTask>)
  {
    forall i :: 0 <= i < |s| ==> Valid(s[i]) && s[i].point != Created
  }

  /** Appending a started frame keeps the vector started and adds the
      frame's own contribution to the live count. */
  lemma {:induction false} AppendStarted(s: seq<IoTask>, t: IoTask)
    requires AllStarted(s) && Valid(t) && t.point != Created
    ensures AllStarted(s + [t])
    ensures CountLive(s + [t]) == CountLive(s) + (if Live(t) then 1 else 0)
    ensures (s + [t])[|s|] == t
  {
    CountLiveAppend(s, t);
    assert forall i :: 0 <= i < |s| ==> (s + [t])[i] == s[i];
  }

  /** Replacing a frame by a started one keeps the vector started. */
  lemma {:induction false} UpdateStarted(s: seq<IoTask>, i: nat, t: IoTask)
    requires AllStarted(s) && i < |s| && Valid(t) && t.point != Created
    ensures AllStarted(s[i := t])
  {
  }

  /** The facts about the active vector every step keeps: each frame is a
      valid frame that has run at least once, `pending` is the number of
      live frames, and every launch added one frame. */
  ghost predicate Wf(l: Loop)
  {
    && AllStarted(l.active)
    && l.pending == CountLive(l.active)
    && |l.active| == l.launched
  }

  /** The slots a policy never gives back: the frames that finished inside
      `start()`, or none. */
  function Leak(p: Policy, syncDone: nat): nat
  {
    if p == AsWritten then syncDone else 0
  }

  /** `launch_one()`: count the frame as pending and in flight, create it,
      run it to its first suspension, keep it in `active`. */
  function LaunchOne(l: Loop, size: nat, p: Policy): (r: Loop)
    requires Wf(l)
    ensures Wf(r)
    ensures r.launched == l.launched + 1 && r.lastPending == l.lastPending && r.ready == l.ready
    ensures r.syncDone == l.syncDone + (if Live(r.active[|l.active|]) then 0 else 1)
    ensures r.pending == l.pending + 1 - (r.syncDone - l.syncDone)
    ensures r.inflight == l.inflight + 1 - (if p == ReleaseOnSyncFinish then r.syncDone - l.syncDone else 0)
    ensures r.inflight - r.pending - Leak(p, r.syncDone) == l.inflight - l.pending - Leak(p, l.syncDone)
    ensures |r.active| == |l.active| + 1 && r.active[..|l.active|] == l.active
    ensures r.active[|l.active|] == Resume(NewIoTask(size), l.sys).task
    ensures r.sys == Resume(NewIoTask(size), l.sys).rest
  {
    var s := Resume(NewIoTask(size), l.sys);
    var sync := if Live(s.task) then 0 else 1;
    AppendStarted(l.active, s.task);
    l.(active := l.active + [s.task],
       pending := l.pending + 1 - sync,
       inflight := l.inflight + 1 - (if p == ReleaseOnSyncFinish then sync else 0),
       launched := l.launched + 1,
       syncDone := l.syncDone + sync,
       sys := s.rest)
  }

  /** The admission bound: no more than `concurrency` slots are taken, and
      every pending frame holds one. */
  ghost predicate Bounded(l: Loop, concurrency: int)
  {
    0 <= l.pending <= l.inflight <= Goal(concurrency)
  }

  /** Why an admission loop stopped: every task is launched, or every slot
      is taken. */
  predicate Settled(l: Loop, tasks: int, concurrency: int)
  {
    l.launched >= tasks || l.inflight >= concurrency
  }

  /** The first admission loop, `while (launched < tasks && inflight <
      concurrency) launch_one();`. */
  function Admit(l: Loop, tasks: Int32, concurrency: Int32, size: nat, p: Policy): (r: Loop)
    requires Wf(l) && 0 <= l.launched <= Goal(tasks) && l.inflight <= Goal(concurrency)
    requires l.inflight == l.pending + Leak(p, l.syncDone)
    ensures Wf(r) && l.launched <= r.launched <= Goal(tasks) && r.inflight <= Goal(concurrency)
    ensures r.inflight == r.pending + Leak(p, r.syncDone)
    ensures r.lastPending == l.lastPending
    ensures Settled(r, tasks, concurrency)
    ensures r.pending <= l.pending + (r.launched - l.launched)
    decreases tasks - l.launched
  {
    if l.launched < tasks && l.inflight < concurrency then
      Admit(LaunchOne(l, size, p), tasks, concurrency, size, p)
    else l
  }

  /** The refill loop after the event loop drained: as `Admit`, and
      `last_pending` follows `pending` after every launch. */
  function Refill(l: Loop, tasks: Int32, concurrency: Int32, size: nat, p: Policy): (r: Loop)
    requires Wf(l) && 0 <= l.launched <= Goal(tasks) && l.inflight <= Goal(concurrency)
    requires l.inflight == l.pending + Leak(p, l.syncDone) && l.lastPending == l.pending
    ensures Wf(r) && l.launched <= r.launched <= Goal(tasks) && r.inflight <= Goal(concurrency)
    ensures r.inflight == r.pending + Leak(p, r.syncDone) && r.lastPending == r.pending
    ensures Settled(r, tasks, concurrency)
    ensures r.pending <= l.pending + (r.launched - l.launched)
    decreases tasks - l.launched
  {
    if l.launched < tasks && l.inflight < concurrency then
      var m := LaunchOne(l, size, p);
      Refill(m.(lastPending := m.pending), tasks, concurrency, size, p)
    else l
  }

  /** `h.resume()` on the frame at index `i`; a frame that reaches its
      final suspend decrements `pending`. */
  function Wake(l: Loop, i: nat): (r: Loop)
    requires Wf(l) && i < |l.active| && Live(l.active[i])
    ensures Wf(r)
    ensures r.(active := l.active, pending := l.pending, sys := l.sys) == l
    ensures r.pending <= l.pending
    ensures |r.sys| < |l.sys| || r.pending < l.pending
    ensures |r.active| == |l.active| && r.active == l.active[i := r.active[i]]
    ensures r.active[i] == Resume(l.active[i], l.sys).task && r.sys == Resume(l.active[i], l.sys).rest
    ensures r.pending == l.pending - (if Live(r.active[i]) then 0 else 1)
  {
    var s := Resume(l.active[i], l.sys);
    CountLiveUpdate(l.active, i, s.task);
    UpdateStarted(l.active, i, s.task);
    l.(active := l.active[i := s.task],
       sys := s.rest,
       pending := l.pending - (if Live(s.task) then 0 else 1))
  }

  /** One delivery of the event wait. When the readiness oracle is
      exhausted the kernel is taken to report the lowest-indexed live
      frame, so that every frame is eventually resumed. */
  function Poll(l: Loop): (r: Loop)
    requires Wf(l) && l.pending > 0
    ensures Wf(r)
    ensures r.(active := l.active, pending := l.pending, sys := l.sys, ready := l.ready) == l
    ensures r.pending <= l.pending
    ensures |r.sys| < |l.sys|
         || (|r.sys| == |l.sys| && r.pending < l.pending)
         || (|r.sys| == |l.sys| && r.pending == l.pending && |r.ready| < |l.ready|)
  {
    if |l.ready| == 0 then Wake(l, FirstLive(l.active))
    else
      var next := l.(ready := l.ready[1..]);
      match l.ready[0]
      case Fires(k) =>
        if k < |l.active| && Live(l.active[k]) then Wake(next, k) else next
      case Quiet => next
  }

  /** `loop.run_until(pending)`: wait and resume until `pending` is zero.
      Nothing but the frames, `pending` and the oracles changes. */
  function RunUntil(l: Loop): (r: Loop)
    requires Wf(l)
    ensures Wf(r) && r.pending <= 0
    ensures r.pending == 0
    ensures r.(active := l.active, pending := l.pending, sys := l.sys, ready := l.ready) == l
    ensures r.pending <= l.pending
    decreases |l.sys|, l.pending, |l.ready|
  {
    if l.pending <= 0 then l else RunUntil(Poll(l))
  }

  /** What holds at the head of the outer `while (pending > 0)` loop. */
  ghost predicate Head(l: Loop, tasks: int, concurrency: int, p: Policy)
  {
    && Wf(l)
    && 0 <= l.launched <= Goal(tasks)
    && l.lastPending == l.pending
    && l.inflight == l.pending + Leak(p, l.syncDone)
    && Bounded(l, concurrency)
    && Settled(l, tasks, concurrency)
  }

  /** The outer loop: drain, subtract the drop in `pending` from
      `inflight`, refill; stop once nothing is pending after a refill. */
  function Drain(l: Loop, tasks: Int32, concurrency: Int32, size: nat, p: Policy): (r: Loop)
    requires Head(l, tasks, concurrency, p)
    ensures Head(r, tasks, concurrency, p) && r.pending == 0
    ensures l.launched <= r.launched
    decreases 2 * (Goal(tasks) - l.launched) + (if l.pending > 0 then 1 else 0)
  {
    if l.pending <= 0 then l
    else
      var m := RunUntil(l);
      var finishedNow := m.lastPending - m.pending;
      assert finishedNow > 0;
      var n := Refill(m.(inflight := m.inflight - finishedNow, lastPending := m.pending),
                      tasks, concurrency, size, p);
      Drain(n, tasks, concurrency, size, p)
  }

  /** The whole of `io_coroutines_kqueue` under a policy, from an empty
      active vector and zero counters. */
  function Run(tasks: Int32, concurrency: Int32, size: nat, sys: seq<SysResult>, ready: seq<Ready>, p: Policy): (r: Loop)
    ensures Head(r, tasks, concurrency, p) && r.pending == 0
  {
    var start := Loop([], 0, 0, 0, 0, 0, sys, ready);
    var a := Admit(start, tasks, concurrency, size, p);
    Drain(a.(lastPending := a.pending), tasks, concurrency, size, p)
  }

  /** The function as written. It always returns, with every launched
      frame finished and at most `concurrency` slots ever taken; but the
      slots of frames that finished inside `start()` stay taken, so it can
      stop early: when fewer than `tasks` were launched, at least
      `concurrency` frames finished synchronously. */
  function IoCoroutinesAsWritten(tasks: Int32, concurrency: Int32, size: nat, sys: seq<SysResult>, ready: seq<Ready>): (r: Loop)
    ensures forall i :: 0 <= i < |r.active| ==> !Live(r.active[i])
    ensures |r.active| == r.launched <= Goal(tasks)
    ensures r.pending == 0 && 0 <= r.inflight <= Goal(concurrency)
    ensures r.inflight == r.syncDone
    ensures r.launched == Goal(tasks) || r.syncDone >= concurrency
  {
    var r := Run(tasks, concurrency, size, sys, ready, AsWritten);
    CountLiveZero(r.active);
    r
  }

  /** With a synchronously finished frame giving its slot back, every
      task is launched, and every launched frame is finished on return. */
  function IoCoroutinesCorrected(tasks: Int32, concurrency: Int32, size: nat, sys: seq<SysResult>, ready: seq<Ready>): (r: Loop)
    requires concurrency >= 1
    ensures forall i :: 0 <= i < |r.active| ==> !Live(r.active[i])
    ensures |r.active| == r.launched == Goal(tasks)
    ensures r.pending == 0 && r.inflight == 0
  {
    var r := Run(tasks, concurrency, size, sys, ready, ReleaseOnSyncFinish);
    CountLiveZero(r.active);
    r
  }

  /** Two tasks, one slot, and a `socket()` that fails: the first frame
      finishes inside `start()`, its slot is never returned, and the second
      task is never launched. */
  lemma {:induction false} LeakWitness()
    ensures IoCoroutinesAsWritten(2, 1, 16, [SysResult(-1, EOther)], []).launched == 1
  {
    var one := WitnessAdmission();
    assert one.(lastPending := one.pending) == one;
    WitnessDrain(one);
  }

  /** The admission loop of the witness stops after one launch. */
  lemma {:induction false} WitnessAdmission() returns (one: Loop)
    ensures one.launched == 1 && one.inflight == 1 && one.pending == 0 && one.lastPending == 0
    ensures Admit(Loop([], 0, 0, 0, 0, 0, [SysResult(-1, EOther)], []), 2, 1, 16, AsWritten) == one
  {
    one := FailedFirstLaunch();
    assert Admit(one, 2, 1, 16, AsWritten) == one;
  }

  /** Nothing is pending after the witness's admission, so the outer loop
      does not run and no second task is launched. */
  lemma {:induction false} WitnessDrain(one: Loop)
    requires Head(one, 2, 1, AsWritten) && one.pending == 0
    ensures Drain(one, 2, 1, 16, AsWritten) == one
  {
  }

  /** The first launch of the witness: `socket()` fails, so the frame
      finishes inside `start()` and keeps its slot. */
  lemma {:induction false} FailedFirstLaunch() returns (one: Loop)
    ensures one == LaunchOne(Loop([], 0, 0, 0, 0, 0, [SysResult(-1, EOther)], []), 16, AsWritten)
    ensures one.launched == 1 && one.inflight == 1 && one.pending == 0 && one.lastPending == 0
  {
    one := LaunchOne(Loop([], 0, 0, 0, 0, 0, [SysResult(-1, EOther)], []), 16, AsWritten);
    assert Resume(NewIoTask(16), [SysResult(-1, EOther)]).task.point == Finished(false);
  }
}
