/** `io_client_task`: one echo round trip as a coroutine. It opens a
    non-blocking socket, connects, sends the whole payload and receives the
    same number of bytes back. A would-block result suspends the coroutine on
    the event loop, and resuming it continues exactly where it stopped. Any
    other failure closes the socket and finishes the task without a retry.

    The kernel is an oracle: a stream of system-call results, consumed one
    per call in program order. Once the stream runs dry every further call
    fails with an error that is not a would-block. */
module IoClient {
  import opened Counts

  /** The `errno` values the client distinguishes. */
  datatype Errno = NoError | EAgain | EWouldBlock | EInProgress | EOther

  /** What one system call returns: its return value and `errno`. For
      `getsockopt(SO_ERROR)`, `errno` carries the pending socket error. */
  datatype SysResult = SysResult(ret: int, errno: Errno)

  predicate WouldBlock(e: Errno)
  {
    e == EAgain || e == EWouldBlock
  }

  /** Where the coroutine is suspended: before its first resume, on
      `FdWritable` after an `EINPROGRESS` connect, on `FdWritable` inside
      the send loop, on `FdReadable` inside the receive loop, or at the
      final suspend (`ok` when the whole payload came back). */
  datatype Point = Created | AwaitConnect | AwaitSend | AwaitRecv | Finished(ok: bool)

  /** The frame: the payload size, the send offset `off`, the receive
      count `got`, whether the socket is open, and the suspension point. */
  datatype IoTask = IoTask(size: nat, off: nat, got: nat, fdOpen: bool, point: Point)

  /** What a resume leaves behind: the frame and the unread results. */
  datatype Step = Step(task: IoTask, rest: seq<SysResult>)

  /** The frame `io_client_task(loop, pending, port, payload_size)` returns. */
  function NewIoTask(size: nat): IoTask
  {
    IoTask(size, 0, 0, false, Created)
  }

  /** The next system call's result. */
  function Next(sys: seq<SysResult>): (r: (SysResult, seq<SysResult>))
    ensures |sys| == 0 ==> r == (SysResult(-1, EOther), [])
    ensures |sys| > 0 ==> r == (sys[0], sys[1..])
  {
    if |sys| == 0 then (SysResult(-1, EOther), []) else (sys[0], sys[1..])
  }

  /** `::close(s); co_return;` */
  function Fail(t: IoTask): IoTask
  {
    t.(fdOpen := false, point := Finished(false))
  }

  /** What holds of every frame between two resumes. */
  ghost predicate Valid(t: IoTask)
  {
    && t.off <= t.size
    && t.got <= t.size
    && (t.point == Created ==> !t.fdOpen && t.off == 0 && t.got == 0)
    && (t.point == AwaitConnect ==> t.fdOpen && t.off == 0 && t.got == 0)
    && (t.point == AwaitSend ==> t.fdOpen && t.off < t.size && t.got == 0)
    && (t.point == AwaitRecv ==> t.fdOpen && t.off == t.size && t.got < t.size)
    && (t.point.Finished? ==> !t.fdOpen)
    && (t.point == Finished(true) ==> t.off == t.size && t.got == t.size)
  }

  /** `rest` is what is left of `sys` after some calls. */
  predicate Suffix(rest: seq<SysResult>, sys: seq<SysResult>)
  {
    |rest| <= |sys| && rest == sys[|sys| - |rest|..]
  }

  lemma {:induction false} SuffixTransitive(a: seq<SysResult>, b: seq<SysResult>, c: seq<SysResult>)
    requires Suffix(a, b) && Suffix(b, c)
    ensures Suffix(a, c)
  {
    assert c[|c| - |a|..] == c[|c| - |b|..][|b| - |a|..];
  }

  /** The send loop, entered at its condition `off < payload.size()`.
      A positive count advances `off` (the kernel never reports more than
      was asked for), a would-block suspends on `FdWritable`, anything else
      closes and finishes. Once everything is sent the receive loop starts
      with `got = 0`. */
  function SendPhase(t: IoTask, sys: seq<SysResult>): (r: Step)
    requires t.fdOpen && t.off <= t.size && t.got == 0
    ensures r.task.size == t.size && t.off <= r.task.off <= t.size && r.task.got <= t.size
    ensures r.task.point in {AwaitSend, AwaitRecv, Finished(false), Finished(true)}
    ensures r.task.point == AwaitSend ==> r.task.fdOpen && r.task.off < t.size && r.task.got == 0
    ensures r.task.point == AwaitRecv ==> r.task.fdOpen && r.task.off == t.size && r.task.got < t.size
    ensures r.task.point.Finished? ==> !r.task.fdOpen
    ensures r.task.point == Finished(true) ==> r.task.off == t.size && r.task.got == t.size
    ensures Suffix(r.rest, sys)
    ensures r.task.point.Finished? || |r.rest| < |sys| || t.off == t.size == 0
    decreases |sys|, 1
  {
    if t.off >= t.size then RecvPhase(t.(got := 0), sys)
    else
      var (w, rest) := Next(sys);
      if w.ret > 0 then
        var r := SendPhase(t.(off := t.off + Min(w.ret, t.size - t.off)), rest);
        SuffixTransitive(r.rest, rest, sys);
        r
      else if w.ret < 0 && WouldBlock(w.errno) then
        Step(t.(point := AwaitSend), rest)
      else
        Step(Fail(t), rest)
  }

  /** The receive loop, entered at its condition `got < buf.size()`.
      A positive count advances `got`, zero means the peer closed, a
      would-block suspends on `FdReadable`, anything else closes and
      finishes. When everything is back the socket is closed and the
      task finishes successfully. */
  function RecvPhase(t: IoTask, sys: seq<SysResult>): (r: Step)
    requires t.fdOpen && t.off == t.size && t.got <= t.size
    ensures r.task.size == t.size && r.task.off == t.size && t.got <= r.task.got <= t.size
    ensures r.task.point == AwaitRecv || r.task.point.Finished?
    ensures r.task.point == AwaitRecv ==> r.task.fdOpen && r.task.got < t.size
    ensures r.task.point.Finished? ==> !r.task.fdOpen
    ensures r.task.point == Finished(true) <==> r.task.got == t.size
    ensures Suffix(r.rest, sys)
    ensures r.task.point.Finished? || |r.rest| < |sys|
    decreases |sys|, 0
  {
    if t.got >= t.size then Step(t.(fdOpen := false, point := Finished(true)), sys)
    else
      var (n, rest) := Next(sys);
      if n.ret > 0 then
        var r := RecvPhase(t.(got := t.got + Min(n.ret, t.size - t.got)), rest);
        SuffixTransitive(r.rest, rest, sys);
        r
      else if n.ret == 0 then
        Step(Fail(t), rest)
      else if WouldBlock(n.errno) then
        Step(t.(point := AwaitRecv), rest)
      else
        Step(Fail(t), rest)
  }

  /** The body up to its first suspension: `socket`, `set_nonblocking`
      (`F_GETFL` then `F_SETFL`), and `connect`. A failed `socket` has no
      descriptor to close; a connect in progress waits for writability. */
  function Start(t: IoTask, sys: seq<SysResult>): (r: Step)
    requires Valid(t) && t.point == Created
    ensures r.task.size == t.size && Valid(r.task) && r.task.point != Created
    ensures Suffix(r.rest, sys)
    ensures r.task.point.Finished? || |r.rest| < |sys|
  {
    var (sock, s1) := Next(sys);
    if sock.ret < 0 then Step(t.(point := Finished(false)), s1)
    else
      var u := t.(fdOpen := true);
      var (getfl, s2) := Next(s1);
      if getfl.ret < 0 then Step(Fail(u), s2)
      else
        var (setfl, s3) := Next(s2);
        if setfl.ret < 0 then Step(Fail(u), s3)
        else
          var (conn, s4) := Next(s3);
          if conn.ret < 0 then
            if conn.errno != EInProgress then Step(Fail(u), s4)
            else Step(u.(point := AwaitConnect), s4)
          else
            var r := SendPhase(u, s4);
            assert s4 == sys[|sys| - |s4|..];
            SuffixTransitive(r.rest, s4, sys);
            r
  }

  /** `h.resume()` on the frame: continue from wherever it is suspended.
      A finished frame is never resumed by the event loop; resuming one
      here changes nothing. */
  function Resume(t: IoTask, sys: seq<SysResult>): (r: Step)
    requires Valid(t)
    ensures Valid(r.task) && r.task.size == t.size && r.task.point != Created
    ensures t.off <= r.task.off && t.got <= r.task.got
    ensures Suffix(r.rest, sys)
    ensures t.point.Finished? ==> r == Step(t, sys)
    ensures !t.point.Finished? ==> r.task.point.Finished? || |r.rest| < |sys|
  {
    match t.point
    case Created => Start(t, sys)
    case AwaitConnect =>
      var (so, rest) := Next(sys);
      if so.ret < 0 || so.errno != NoError then Step(Fail(t), rest)
      else SendPhase(t, rest)
    case AwaitSend => SendPhase(t, sys)
    case AwaitRecv => RecvPhase(t, sys)
    case Finished(_) => Step(t, sys)
  }

  /** A would-block `send` suspends the frame at the offset it had, and
      consumes nothing else. */
  lemma {:induction false} SendWouldBlockKeepsOffset(t: IoTask, ret: int, e: Errno, s: seq<SysResult>)
    requires Valid(t) && t.point == AwaitSend
    requires ret < 0 && WouldBlock(e)
    ensures Resume(t, [SysResult(ret, e)] + s) == Step(t, s)
  {
    assert ([SysResult(ret, e)] + s)[1..] == s;
  }

  /** A would-block `recv` suspends the frame at the count it had. */
  lemma {:induction false} RecvWouldBlockKeepsCount(t: IoTask, ret: int, e: Errno, s: seq<SysResult>)
    requires Valid(t) && t.point == AwaitRecv
    requires ret < 0 && WouldBlock(e)
    ensures Resume(t, [SysResult(ret, e)] + s) == Step(t, s)
  {
    assert ([SysResult(ret, e)] + s)[1..] == s;
  }

  /** The send loop does not depend on where the frame was suspended:
      the point is only ever written, never read. */
  lemma {:induction false} SendPhaseIgnoresPoint(t: IoTask, p: Point, sys: seq<SysResult>)
    requires t.fdOpen && t.off <= t.size && t.got == 0
    ensures SendPhase(t.(point := p), sys) == SendPhase(t, sys)
    decreases |sys|, 2
  {
    if t.off < t.size {
      SendCallIgnoresPoint(t, p, sys);
    } else {
      assert t.(point := p).(got := 0) == t.(got := 0).(point := p);
      RecvPhaseIgnoresPoint(t.(got := 0), p, sys);
    }
  }

  /** One `send` of the loop, wherever the frame was suspended. */
  lemma {:induction false} SendCallIgnoresPoint(t: IoTask, p: Point, sys: seq<SysResult>)
    requires t.fdOpen && t.off < t.size && t.got == 0
    ensures SendPhase(t.(point := p), sys) == SendPhase(t, sys)
    decreases |sys|, 1
  {
    if Next(sys).0.ret > 0 {
      SendAdvanceIgnoresPoint(t, p, sys);
    } else {
      SendStopIgnoresPoint(t, p, sys);
    }
  }

  /** A `send` that delivers bytes, wherever the frame was suspended. */
  lemma {:induction false} SendAdvanceIgnoresPoint(t: IoTask, p: Point, sys: seq<SysResult>)
    requires t.fdOpen && t.off < t.size && t.got == 0 && Next(sys).0.ret > 0
    ensures SendPhase(t.(point := p), sys) == SendPhase(t, sys)
    decreases |sys|, 0
  {
    var q := t.(point := p);
    var o := t.off + Min(Next(sys).0.ret, t.size - t.off);
    SendUnfold(q, sys, o);
    SendUnfold(t, sys, o);
    assert q.(off := o) == t.(off := o).(point := p);
    SendPhaseIgnoresPoint(t.(off := o), p, Next(sys).1);
  }

  /** A `send` that ends the loop or suspends it, wherever the frame was
      suspended. */
  lemma {:induction false} SendStopIgnoresPoint(t: IoTask, p: Point, sys: seq<SysResult>)
    requires t.fdOpen && t.off < t.size && t.got == 0 && Next(sys).0.ret <= 0
    ensures SendPhase(t.(point := p), sys) == SendPhase(t, sys)
  {
    var q := t.(point := p);
    assert Fail(q) == Fail(t);
    assert q.(point := AwaitSend) == t.(point := AwaitSend);
  }

  /** One round of the send loop that delivers bytes. */
  lemma {:induction false} SendUnfold(t: IoTask, sys: seq<SysResult>, o: nat)
    requires t.fdOpen && t.off < t.size && t.got == 0 && Next(sys).0.ret > 0
    requires o == t.off + Min(Next(sys).0.ret, t.size - t.off)
    ensures SendPhase(t, sys) == SendPhase(t.(off := o), Next(sys).1)
  {
  }

  /** The receive loop does not depend on where the frame was suspended. */
  lemma {:induction false} RecvPhaseIgnoresPoint(t: IoTask, p: Point, sys: seq<SysResult>)
    requires t.fdOpen && t.off == t.size && t.got <= t.size
    ensures RecvPhase(t.(point := p), sys) == RecvPhase(t, sys)
    decreases |sys|, 1
  {
    var q := t.(point := p);
    if t.got >= t.size {
      assert q.(fdOpen := false, point := Finished(true)) == t.(fdOpen := false, point := Finished(true));
    } else if Next(sys).0.ret > 0 {
      RecvAdvanceIgnoresPoint(t, p, sys);
    } else {
      RecvStopIgnoresPoint(t, p, sys);
    }
  }

  /** A `recv` that delivers bytes, wherever the frame was suspended. */
  lemma {:induction false} RecvAdvanceIgnoresPoint(t: IoTask, p: Point, sys: seq<SysResult>)
    requires t.fdOpen && t.off == t.size && t.got < t.size && Next(sys).0.ret > 0
    ensures RecvPhase(t.(point := p), sys) == RecvPhase(t, sys)
    decreases |sys|, 0
  {
    var q := t.(point := p);
    var g := t.got + Min(Next(sys).0.ret, t.size - t.got);
    RecvUnfold(q, sys, g);
    RecvUnfold(t, sys, g);
    assert q.(got := g) == t.(got := g).(point := p);
    RecvPhaseIgnoresPoint(t.(got := g), p, Next(sys).1);
  }

  /** One round of the receive loop that delivers bytes. */
  lemma {:induction false} RecvUnfold(t: IoTask, sys: seq<SysResult>, g: nat)
    requires t.fdOpen && t.off == t.size && t.got < t.size && Next(sys).0.ret > 0
    requires g == t.got + Min(Next(sys).0.ret, t.size - t.got)
    ensures RecvPhase(t, sys) == RecvPhase(t.(got := g), Next(sys).1)
  {
  }

  /** A `recv` that ends the loop or suspends it, wherever the frame was
      suspended. */
  lemma {:induction false} RecvStopIgnoresPoint(t: IoTask, p: Point, sys: seq<SysResult>)
    requires t.fdOpen && t.off == t.size && t.got < t.size && Next(sys).0.ret <= 0
    ensures RecvPhase(t.(point := p), sys) == RecvPhase(t, sys)
  {
    var q := t.(point := p);
    assert Fail(q) == Fail(t);
    assert q.(point := AwaitRecv) == t.(point := AwaitRecv);
  }

  /** Suspending is invisible: a send loop that meets a would-block,
      suspends, and is resumed on the remaining results ends exactly as a
      send loop that never saw the would-block. */
  lemma {:induction false} WouldBlockTransparent(t: IoTask, ret: int, e: Errno, s: seq<SysResult>)
    requires t.fdOpen && t.off < t.size && t.got == 0
    requires ret < 0 && WouldBlock(e)
    ensures var first := SendPhase(t, [SysResult(ret, e)] + s);
      && first == Step(t.(point := AwaitSend), s)
      && Resume(first.task, first.rest) == SendPhase(t, s)
  {
    assert ([SysResult(ret, e)] + s)[1..] == s;
    SendPhaseIgnoresPoint(t, AwaitSend, s);
  }

  /** `recv` returning 0 (the peer closed) closes the socket and finishes
      the task unsuccessfully, without another call. */
  lemma {:induction false} PeerCloseFinishes(t: IoTask, e: Errno, s: seq<SysResult>)
    requires Valid(t) && t.point == AwaitRecv
    ensures Resume(t, [SysResult(0, e)] + s) == Step(Fail(t), s)
  {
    assert ([SysResult(0, e)] + s)[1..] == s;
  }

  /** A hard error on `send` closes the socket and finishes the task. */
  lemma {:induction false} SendErrorFinishes(t: IoTask, r: SysResult, s: seq<SysResult>)
    requires Valid(t) && t.point == AwaitSend
    requires r.ret == 0 || (r.ret < 0 && !WouldBlock(r.errno))
    ensures Resume(t, [r] + s) == Step(Fail(t), s)
  {
    assert ([r] + s)[1..] == s;
  }

  /** A hard error on `recv` closes the socket and finishes the task. */
  lemma {:induction false} RecvErrorFinishes(t: IoTask, r: SysResult, s: seq<SysResult>)
    requires Valid(t) && t.point == AwaitRecv
    requires r.ret < 0 && !WouldBlock(r.errno)
    ensures Resume(t, [r] + s) == Step(Fail(t), s)
  {
    assert ([r] + s)[1..] == s;
  }

  /** A failed `getsockopt`, or a pending socket error it reports, after
      the connect completes closes the socket and finishes the task. */
  lemma {:induction false} ConnectErrorFinishes(t: IoTask, r: SysResult, s: seq<SysResult>)
    requires Valid(t) && t.point == AwaitConnect
    requires r.ret < 0 || r.errno != NoError
    ensures Resume(t, [r] + s) == Step(Fail(t), s)
  {
    assert ([r] + s)[1..] == s;
  }

  /** Before the first suspension the body makes up to four calls in
      order: `socket`, `fcntl(F_GETFL)`, `fcntl(F_SETFL)` and `connect`.
      Suppose the calls before one of them succeed (`pre`) and that call
      fails (`r`). Then the task finishes unsuccessfully with no socket
      left open, consuming nothing more. For `connect` this holds unless
      the failure is `EINPROGRESS`. */
  lemma {:induction false} StartErrorFinishes(t: IoTask, pre: seq<SysResult>, r: SysResult, s: seq<SysResult>)
    requires Valid(t) && t.point == Created
    requires |pre| <= 3 && forall k :: 0 <= k < |pre| ==> pre[k].ret >= 0
    requires r.ret < 0 && (|pre| == 3 ==> r.errno != EInProgress)
    ensures Resume(t, pre + [r] + s) == Step(Fail(t), s)
  {
    var sys := pre + [r] + s;
    if |pre| == 0 {
      assert sys[0] == r && sys[1..] == s;
    } else if |pre| == 1 {
      assert sys[1..][0] == r && sys[1..][1..] == s;
    } else if |pre| == 2 {
      assert sys[1..][1..][0] == r && sys[1..][1..][1..] == s;
    } else {
      assert sys[1..][1..][1..][0] == r && sys[1..][1..][1..][1..] == s;
    }
  }

  /** A `connect` still in progress (`EINPROGRESS`), after `socket` and
      both `fcntl` calls succeeded, suspends the frame on writability
      with the socket open and nothing sent. */
  lemma {:induction false} ConnectInProgressSuspends(t: IoTask, pre: seq<SysResult>, r: SysResult, s: seq<SysResult>)
    requires Valid(t) && t.point == Created
    requires |pre| == 3 && forall k :: 0 <= k < 3 ==> pre[k].ret >= 0
    requires r.ret < 0 && r.errno == EInProgress
    ensures Resume(t, pre + [r] + s) == Step(t.(fdOpen := true, point := AwaitConnect), s)
  {
    var sys := pre + [r] + s;
    assert sys[1..][1..][1..][0] == r && sys[1..][1..][1..][1..] == s;
  }

  /** Once the connect completes, a `getsockopt` that succeeds and reports
      no pending error continues into the send loop from offset 0. */
  lemma {:induction false} ConnectCompletes(t: IoTask, r: SysResult, s: seq<SysResult>)
    requires Valid(t) && t.point == AwaitConnect
    requires r.ret >= 0 && r.errno == NoError
    ensures Resume(t, [r] + s) == SendPhase(t, s)
  {
    assert ([r] + s)[1..] == s;
  }

  /** The round trip on a kernel that never blocks: a socket, two `fcntl`
      calls and a `connect` that succeed, one `send` of the whole payload
      and one `recv` of all of it finish the task successfully. */
  lemma {:induction false} CleanRoundTrip(n: nat, rest: seq<SysResult>)
    requires n > 0
    ensures var ok := SysResult(0, NoError);
      Resume(NewIoTask(n), [SysResult(3, NoError), ok, ok, ok, SysResult(n, NoError), SysResult(n, NoError)] + rest)
        == Step(IoTask(n, n, n, false, Finished(true)), rest)
  {
    var ok := SysResult(0, NoError);
    var sys := [SysResult(3, NoError), ok, ok, ok, SysResult(n, NoError), SysResult(n, NoError)] + rest;
    assert sys[1..][1..][1..][1..] == [SysResult(n, NoError), SysResult(n, NoError)] + rest;
    assert sys[1..][1..][1..][1..][1..][1..] == rest;
    var u := NewIoTask(n).(fdOpen := true);
    assert SendPhase(u, sys[4..]) == SendPhase(u.(off := n), sys[5..]);
    assert SendPhase(u.(off := n), sys[5..]) == RecvPhase(u.(off := n, got := 0), sys[5..]);
  }
}
