/**
 The measurement pipeline as a transition system. Four actors interleave freely: the socket thread,
 the framer thread, the caller of the API, and the application that takes frames. A locked queue
 operation is one step, and so is each check-and-set of the status; everything else in framer_thread,
 SiDaqStop and SiDaqResetQueue is cut into steps at the points where another actor can be seen.
 */
module Pipeline {
  import opened Bytes
  import opened FramerSpec

  datatype Status = Idle | Running | Stopping | Resetting | SysError

  /** Where framer_thread is; `Off` before it starts and after it has returned. */
  datatype FramerPc =
    | Off
    | LoopTest
    | Fetch
    | Hand(chunk: seq<Byte>)              // took a chunk off the receive queue
    | Putting(frames: seq<seq<Byte>>)     // frames of the call still to be put
    | CheckError
    | Closing                             // raised the flag for a framer error, about to close the socket
    | SawEmpty
    | CheckSocket
    | Flush
    | Exit
    | ExitIdle

  /**
   Where the socket thread is, with the size of the chunk it has just put. `Tripping` has raised the queue
   error and is about to close the socket; `Tripped` has closed it.
   */
  datatype SockPc = Up | Counting(n: nat) | Tripping(n: nat) | Tripped(n: nat) | Closed

  /** Where the API caller is; a reset remembers the status it began in. */
  datatype ApiPc = Free | ClosingSocket | ResetRecv(saved: Status) | ResetEvent(saved: Status)

  /** Flags and statuses. */
  datatype Ctl = Ctl(
    status: Status,
    errorFlg: bool,
    sockOpen: bool,
    queueError: bool,
    api: ApiPc)

  /** The receive side: the socket thread and its queue. */
  datatype Inflow = Inflow(
    sock: SockPc,
    recvLimit: nat,
    recvQ: seq<seq<Byte>>,
    rxBytes: nat,
    received: seq<Byte>)         // everything the socket thread has put so far

  /** The frame side: the event queue and what the application has taken from it. */
  datatype Outflow = Outflow(eventQ: seq<seq<Byte>>, delivered: seq<seq<Byte>>)

  datatype Sys = Sys(
    ctl: Ctl,
    inp: Inflow,
    out: Outflow,
    framer: State,
    pc: FramerPc,
    seenEmpty: nat)              // bytes received when the framer thread last found the queue empty

  datatype RunArgs = RunArgs(mode: Mode, maxFrameLen: Uint32, frameLimit: Uint32, recvLimit: nat)

  datatype Step =
    | FramerStep(counts: nat -> nat)  // queue lengths its puts will report
    | SockPut(chunk: seq<Byte>)
    | SockCount
    | SockClose
    | SockExit(closes: bool)
    | StopBegin
    | StopClose
    | ResetBegin
    | ResetPop
    | RunOk(args: RunArgs)
    | RunFails
    | AppGet

  /** Before the first run; the framer does not exist yet and stands for an unused one. */
  const INIT := Sys(Ctl(Idle, false, false, false, Free), Inflow(Closed, 0, [], 0, []), Outflow([], []),
                    Fresh(NULL_MODE, BUFF_SIZE, 0), Off, 0)

  /** SiDaqRun's set-up; `_rest` and the buffer are kept. */
  function Configured(f: State, a: RunArgs): State {
    State(f.parked, f.stale, a.mode, NoError, a.maxFrameLen, a.frameLimit)
  }

  ghost predicate Enabled(s: Sys, step: Step) {
    match step
    case FramerStep(_) => s.pc != Off && (s.pc.Hand? || s.pc.Flush? ==> Valid(s.framer))
    case SockPut(chunk) => s.inp.sock.Up? && chunk != []
    case SockCount => s.inp.sock.Counting?
    case SockClose => s.inp.sock.Tripping?
    case SockExit(_) => s.inp.sock.Up?
    case StopBegin => s.ctl.api.Free?
    case StopClose => s.ctl.api.ClosingSocket?
    case ResetBegin => s.ctl.api.Free? && (s.ctl.status == Stopping || s.ctl.status == SysError)
    case ResetPop => s.ctl.api.ResetRecv? || s.ctl.api.ResetEvent?
    case RunOk(a) =>
      s.ctl.api.Free? && s.pc == Off && (s.inp.sock.Closed? || s.inp.sock.Tripped?) && Valid(Configured(s.framer, a))
    case RunFails => s.ctl.api.Free? && s.pc == Off
    case AppGet => s.out.eventQ != []
  }

  // ----- the framer thread

  function Raised(c: Ctl): Ctl {
    c.(errorFlg := true, status := SysError)
  }

  /** The error check after a chunk; a framer error also has the socket closed, in a step of its own. */
  function Checked(s: Sys): Sys {
    if s.ctl.errorFlg then s.(pc := LoopTest)
    else if s.framer.error != NoError then s.(pc := Closing, ctl := Raised(s.ctl))
    else if s.ctl.queueError then s.(pc := LoopTest, ctl := Raised(s.ctl))
    else s.(pc := LoopTest)
  }

  /** The error check when the queue is empty and the socket closed. */
  function CheckedClosed(c: Ctl): Ctl {
    if !c.errorFlg && c.queueError then Raised(c) else c
  }

  /** SiDaqStop as the framer thread calls it. */
  function Stopped(c: Ctl): Ctl {
    if c.status == Running then c.(status := Stopping, sockOpen := false)
    else if c.status == SysError then c.(sockOpen := false)
    else c
  }

  function Fetched(s: Sys): Sys
    requires s.pc.Fetch?
  {
    if s.inp.recvQ == [] then s.(pc := SawEmpty, seenEmpty := |s.inp.received|)
    else s.(pc := Hand(s.inp.recvQ[0]), inp := s.inp.(recvQ := s.inp.recvQ[1..]))
  }

  ghost function FramerDo(s: Sys, counts: nat -> nat): Sys
    requires Enabled(s, FramerStep(counts))
  {
    match s.pc
    case LoopTest => s.(pc := if s.ctl.status == Idle || s.ctl.status == Resetting then Exit else Fetch)
    case Fetch => Fetched(s)
    case Hand(chunk) =>
      if chunk == [] then s.(pc := CheckError)
      else
        var o := Recv(s.framer, chunk, counts);
        s.(framer := o.state, pc := Putting(o.frames))
    case Putting(frames) =>
      if frames == [] then s.(pc := CheckError)
      else s.(pc := Putting(frames[1..]), out := s.out.(eventQ := s.out.eventQ + [frames[0]]))
    case CheckError => Checked(s)
    case Closing => s.(pc := LoopTest, ctl := s.ctl.(sockOpen := false))
    case SawEmpty => s.(pc := if s.ctl.status == Stopping then Flush else CheckSocket)
    case CheckSocket => if s.ctl.sockOpen then s.(pc := LoopTest) else s.(pc := Flush, ctl := CheckedClosed(s.ctl))
    case Flush =>
      s.(pc := Exit, framer := Flushed(s.framer), out := s.out.(eventQ := s.out.eventQ + LastFrame(s.framer)))
    case Exit =>
      if s.ctl.errorFlg then s.(pc := Off, ctl := Stopped(s.ctl))
      else s.(pc := if s.ctl.status == Resetting then Off else ExitIdle)
    case ExitIdle => s.(pc := Off, ctl := s.ctl.(status := Idle))
  }

  // ----- the socket thread

  /** The count check after a put, made without the lock. */
  function Counted(s: Sys): Sys
    requires s.inp.sock.Counting?
  {
    var i := s.inp;
    if i.recvLimit != 0 && |i.recvQ| > i.recvLimit then
      s.(inp := i.(sock := Tripping(i.sock.n)), ctl := s.ctl.(queueError := true))
    else
      s.(inp := i.(rxBytes := i.rxBytes + i.sock.n, sock := Up))
  }

  // ----- the API caller

  function StopBegun(c: Ctl): Ctl {
    if c.status == Running then c.(status := Stopping, api := ClosingSocket)
    else if c.status == SysError then c.(api := ClosingSocket)
    else c
  }

  function Popped(s: Sys): Sys
    requires s.ctl.api.ResetRecv? || s.ctl.api.ResetEvent?
  {
    if s.ctl.api.ResetRecv? then
      if s.inp.recvQ != [] then s.(inp := s.inp.(recvQ := s.inp.recvQ[1..]))
      else s.(ctl := s.ctl.(api := ResetEvent(s.ctl.api.saved)))
    else
      if s.out.eventQ != [] then s.(out := s.out.(eventQ := s.out.eventQ[1..]))
      else s.(ctl := s.ctl.(status := if s.ctl.api.saved == SysError then SysError else Idle, api := Free))
  }

  ghost function Do(s: Sys, step: Step): Sys
    requires Enabled(s, step)
  {
    match step
    case FramerStep(counts) => FramerDo(s, counts)
    case SockPut(chunk) =>
      s.(inp := s.inp.(recvQ := s.inp.recvQ + [chunk], received := s.inp.received + chunk, sock := Counting(|chunk|)))
    case SockCount => Counted(s)
    case SockClose => s.(inp := s.inp.(sock := Tripped(s.inp.sock.n)), ctl := s.ctl.(sockOpen := false))
    case SockExit(closes) =>
      s.(inp := s.inp.(sock := Closed), ctl := s.ctl.(sockOpen := s.ctl.sockOpen && !closes))
    case StopBegin => s.(ctl := StopBegun(s.ctl))
    case StopClose => s.(ctl := s.ctl.(sockOpen := false, api := Free))
    case ResetBegin =>
      s.(ctl := s.ctl.(status := Resetting, api := ResetRecv(s.ctl.status)))
    case ResetPop => Popped(s)
    case RunOk(a) =>
      s.(ctl := Ctl(Running, false, true, false, Free), framer := Configured(s.framer, a), pc := LoopTest,
         inp := s.inp.(sock := Up, recvLimit := a.recvLimit))
    case RunFails => s.(ctl := s.ctl.(status := SysError))
    case AppGet => s.(out := Outflow(s.out.eventQ[1..], s.out.delivered + [s.out.eventQ[0]]))
  }

  // ----- runs

  ghost predicate Legal(s: Sys, steps: seq<Step>)
    decreases |steps|, 0
  {
    steps == [] ||
    (Legal(s, steps[..|steps| - 1])
     && Enabled(After(s, steps[..|steps| - 1]), steps[|steps| - 1]))
  }

  /** The state after the steps, taken in this order. */
  ghost function After(s: Sys, steps: seq<Step>): Sys
    requires Legal(s, steps)
    decreases |steps|, 1
  {
    if steps == [] then s
    else Do(After(s, steps[..|steps| - 1]), steps[|steps| - 1])
  }

  lemma NoSteps(s: Sys)
    ensures Legal(s, []) && After(s, []) == s
  {
  }

  lemma Extend(s: Sys, steps: seq<Step>, step: Step)
    requires Legal(s, steps) && Enabled(After(s, steps), step)
    ensures Legal(s, steps + [step]) && After(s, steps + [step]) == Do(After(s, steps), step)
  {
    hide Do, Enabled;
    assert (steps + [step])[..|steps|] == steps;
  }

  lemma Unroll(s: Sys, steps: seq<Step>)
    requires steps != [] && Legal(s, steps)
    ensures var before, last := steps[..|steps| - 1], steps[|steps| - 1];
            && Legal(s, before) && Enabled(After(s, before), last)
            && After(s, steps) == Do(After(s, before), last)
  {
    hide Do, Enabled;
  }

  lemma {:induction false} Chain(s: Sys, a: seq<Step>, b: seq<Step>)
    requires Legal(s, a) && Legal(After(s, a), b)
    ensures Legal(s, a + b) && After(s, a + b) == After(After(s, a), b)
    decreases |b|
  {
    hide *;
    if b == [] {
      NoSteps(After(s, a));
      assert a + b == a;
    } else {
      var before, last := b[..|b| - 1], b[|b| - 1];
      Unroll(After(s, a), b);
      Chain(s, a, before);
      Extend(s, a + before, last);
      assert a + b == a + before + [last];
    }
  }

  lemma Steps1(s: Sys, a: Step)
    requires Enabled(s, a)
    ensures Legal(s, [a]) && After(s, [a]) == Do(s, a)
  {
    hide Do, Enabled;
    NoSteps(s);
    Extend(s, [], a);
    assert [] + [a] == [a];
  }

  lemma Steps2(s: Sys, a: Step, b: Step)
    requires Enabled(s, a) && Enabled(Do(s, a), b)
    ensures Legal(s, [a, b]) && After(s, [a, b]) == Do(Do(s, a), b)
  {
    hide Do, Enabled;
    Steps1(s, a);
    Extend(s, [a], b);
    assert [a] + [b] == [a, b];
  }

  lemma Steps3(s: Sys, a: Step, b: Step, c: Step)
    requires Enabled(s, a) && Enabled(Do(s, a), b) && Enabled(Do(Do(s, a), b), c)
    ensures Legal(s, [a, b, c]) && After(s, [a, b, c]) == Do(Do(Do(s, a), b), c)
  {
    hide Do, Enabled;
    Steps2(s, a, b);
    Extend(s, [a, b], c);
    assert [a, b] + [c] == [a, b, c];
  }

  lemma Steps4(s: Sys, a: Step, b: Step, c: Step, d: Step)
    requires Enabled(s, a) && Enabled(Do(s, a), b) && Enabled(Do(Do(s, a), b), c)
    requires Enabled(Do(Do(Do(s, a), b), c), d)
    ensures Legal(s, [a, b, c, d]) && After(s, [a, b, c, d]) == Do(Do(Do(Do(s, a), b), c), d)
  {
    hide Do, Enabled;
    Steps3(s, a, b, c);
    Extend(s, [a, b, c], d);
    assert [a, b, c] + [d] == [a, b, c, d];
  }

  lemma Steps5(s: Sys, a: Step, b: Step, c: Step, d: Step, e: Step)
    requires Enabled(s, a) && Enabled(Do(s, a), b) && Enabled(Do(Do(s, a), b), c)
    requires Enabled(Do(Do(Do(s, a), b), c), d) && Enabled(Do(Do(Do(Do(s, a), b), c), d), e)
    ensures Legal(s, [a, b, c, d, e]) && After(s, [a, b, c, d, e]) == Do(Do(Do(Do(Do(s, a), b), c), d), e)
  {
    hide Do, Enabled;
    Steps4(s, a, b, c, d);
    Extend(s, [a, b, c, d], e);
    assert [a, b, c, d] + [e] == [a, b, c, d, e];
  }

  // ----- when a caller resets

  /** The moment a reset begins: the status, and whether the framer thread still lives. */
  datatype ResetAt = ResetAt(status: Status, threadLives: bool)

  predicate Allows(policy: set<ResetAt>, s: Sys, step: Step) {
    step.ResetBegin? ==> ResetAt(s.ctl.status, s.pc != Off) in policy
  }

  /** Resets begin only at moments the policy allows. */
  ghost predicate ResetsWithin(policy: set<ResetAt>, s: Sys, steps: seq<Step>)
    requires Legal(s, steps)
  {
    steps == [] ||
    (ResetsWithin(policy, s, steps[..|steps| - 1])
     && Allows(policy, After(s, steps[..|steps| - 1]), steps[|steps| - 1]))
  }

  predicate NoReset(step: Step) {
    !step.ResetBegin? && !step.ResetPop?
  }

  predicate NoResets(steps: seq<Step>) {
    forall i :: 0 <= i < |steps| ==> NoReset(steps[i])
  }

  predicate NoRun(steps: seq<Step>) {
    forall i :: 0 <= i < |steps| ==> !steps[i].RunOk? && !steps[i].RunFails?
  }

  // ----- where the bytes are

  /** Frames queued or on their way to the queue, after those the application has. */
  function Emitted(s: Sys): seq<seq<Byte>> {
    s.out.delivered + s.out.eventQ + (if s.pc.Putting? then s.pc.frames else [])
  }

  function InHand(s: Sys): seq<Byte> {
    if s.pc.Hand? then s.pc.chunk else []
  }
}
