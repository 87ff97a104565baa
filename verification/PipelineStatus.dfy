/** Errors, the end of the framer thread and its last status, over every interleaving. */
module PipelineStatus {
  import opened Bytes
  import opened FramerSpec
  import opened FramerCalls
  import opened Pipeline
  import opened PipelineSafety

  // ----- the error latch

  predicate InReset(a: ApiPc, saved: Status) {
    (a.ResetRecv? || a.ResetEvent?) && a.saved == saved
  }

  /** An error shows as SYS_ERROR, or as RESET while a reset begun in SYS_ERROR is at work. */
  predicate Shown(c: Ctl) {
    c.status == SysError || (c.status == Resetting && InReset(c.api, SysError))
  }

  predicate LatchInv(s: Sys) {
    && (s.ctl.errorFlg ==> Shown(s.ctl) || (s.ctl.status == Idle && !s.ctl.api.ResetRecv? && !s.ctl.api.ResetEvent?))
    && (s.ctl.api.ResetRecv? || s.ctl.api.ResetEvent? ==> s.ctl.api.saved == SysError || s.ctl.api.saved == Stopping)
    && (s.ctl.status == Resetting ==> s.ctl.api.ResetRecv? || s.ctl.api.ResetEvent?)
    && (s.pc.ExitIdle? ==> !s.ctl.errorFlg)
    && (s.pc.Off? ==> s.ctl.status != Running && s.ctl.status != Stopping)
  }

  /** Who raised an error has closed the socket, or is about to. */
  predicate SocketInv(s: Sys) {
    && (s.pc.Closing? ==> s.ctl.errorFlg)
    && (s.ctl.errorFlg || s.ctl.queueError ==> !s.ctl.sockOpen || s.pc.Closing? || s.inp.sock.Tripping?)
  }

  /** The flag goes up in plain sight, and only SiDaqRun takes it down. */
  predicate FlagKept(c: Ctl, c': Ctl) {
    && (c.errorFlg ==> c'.errorFlg)
    && (!c.errorFlg && c'.errorFlg ==> Shown(c'))
  }

  lemma FramerLatchKept(s: Sys, counts: nat -> nat)
    requires LatchInv(s) && Enabled(s, FramerStep(counts))
    ensures LatchInv(FramerDo(s, counts)) && FlagKept(s.ctl, FramerDo(s, counts).ctl)
  {
    hide Recv, Valid, Flushed;
  }

  lemma LatchKept(s: Sys, step: Step)
    requires LatchInv(s) && Enabled(s, step)
    ensures LatchInv(Do(s, step))
    ensures !step.RunOk? ==> FlagKept(s.ctl, Do(s, step).ctl)
  {
    hide FramerDo, Valid;
    if step.FramerStep? { FramerLatchKept(s, step.counts); }
  }

  lemma SocketKept(s: Sys, step: Step)
    requires SocketInv(s) && Enabled(s, step)
    ensures SocketInv(Do(s, step))
  {
    hide Recv, Valid, Flushed;
  }

  lemma {:induction false} LatchOverRuns(s: Sys, steps: seq<Step>)
    requires LatchInv(s) && SocketInv(s) && Legal(s, steps)
    ensures LatchInv(After(s, steps)) && SocketInv(After(s, steps))
  {
    hide Do, Enabled, LatchInv, SocketInv;
    if steps != [] {
      LatchOverRuns(s, steps[..|steps| - 1]);
      LatchKept(After(s, steps[..|steps| - 1]), steps[|steps| - 1]);
      SocketKept(After(s, steps[..|steps| - 1]), steps[|steps| - 1]);
    }
  }

  /** The step with which a reset begun in STOPPING ends: it sets IDLE whatever the status is by then. */
  predicate EndsStoppingReset(s: Sys, step: Step) {
    step.ResetPop? && s.ctl.api == ResetEvent(Stopping) && s.out.eventQ == []
  }

  /** One of the steps ends a reset begun in STOPPING. */
  ghost predicate StoppingResetEnds(s: Sys, steps: seq<Step>)
    requires Legal(s, steps)
  {
    steps != [] &&
    (StoppingResetEnds(s, steps[..|steps| - 1])
     || EndsStoppingReset(After(s, steps[..|steps| - 1]), steps[|steps| - 1]))
  }

  /** With the flag up only the end of a reset begun in STOPPING hides the error, and only SiDaqRun undoes that. */
  lemma ShownKept(s: Sys, step: Step)
    requires LatchInv(s) && Enabled(s, step) && s.ctl.errorFlg && !step.RunOk? && !step.RunFails?
    ensures Shown(Do(s, step).ctl) <==> Shown(s.ctl) && !EndsStoppingReset(s, step)
  {
    hide Recv, Valid, Flushed;
  }

  lemma {:induction false} ShownOverRuns(s: Sys, steps: seq<Step>)
    requires LatchInv(s) && SocketInv(s) && Legal(s, steps) && s.ctl.errorFlg && NoRun(steps)
    ensures After(s, steps).ctl.errorFlg
    ensures Shown(After(s, steps).ctl) <==> Shown(s.ctl) && !StoppingResetEnds(s, steps)
  {
    hide Do, Enabled, LatchInv, SocketInv, Shown, EndsStoppingReset;
    if steps != [] {
      var before, last := steps[..|steps| - 1], steps[|steps| - 1];
      ShownOverRuns(s, before);
      LatchOverRuns(s, before);
      LatchKept(After(s, before), last);
      ShownKept(After(s, before), last);
    }
  }

  lemma InitLatched()
    ensures LatchInv(INIT) && SocketInv(INIT)
  {
  }

  /**
   The error latch. From the step that raises the error flag until the next SiDaqRun the flag stays up, the
   socket is closed but for the moments between raising an error and closing it, and the error shows if
   and only if no reset begun in STOPPING has ended since; if one has, the status is IDLE.
   */
  lemma {:induction false} ErrorLatch(steps: seq<Step>, raising: Step, more: seq<Step>)
    requires Legal(INIT, steps) && Enabled(After(INIT, steps), raising) && !After(INIT, steps).ctl.errorFlg
    requires Do(After(INIT, steps), raising).ctl.errorFlg
    requires Legal(Do(After(INIT, steps), raising), more) && NoRun(more)
    ensures var s := Do(After(INIT, steps), raising);
            var s' := After(s, more);
            && s'.ctl.errorFlg
            && (s'.ctl.sockOpen ==> s'.pc.Closing? || s'.inp.sock.Tripping?)
            && (Shown(s'.ctl) <==> !StoppingResetEnds(s, more))
            && (s'.ctl.status == Idle <==> StoppingResetEnds(s, more))
  {
    InitLatched();
    LatchOverRuns(INIT, steps);
    var before := After(INIT, steps);
    var s := Do(before, raising);
    assert !raising.RunOk?;
    LatchKept(before, raising);
    SocketKept(before, raising);
    hide Do, Enabled, After, Legal, StoppingResetEnds;
    ShownOverRuns(s, more);
    LatchOverRuns(s, more);
  }

  /** Whatever else happens, an error raised shows. */
  ghost predicate LatchHolds(policy: set<ResetAt>) {
    forall steps | Legal(INIT, steps) && ResetsWithin(policy, INIT, steps) && After(INIT, steps).ctl.errorFlg ::
      Shown(After(INIT, steps).ctl)
  }

  /** No reset at work began in STOPPING, and no error is hidden. */
  predicate NeverHidden(s: Sys) {
    && !InReset(s.ctl.api, Stopping) && (s.ctl.errorFlg ==> Shown(s.ctl))
  }

  lemma NeverHiddenKept(policy: set<ResetAt>, s: Sys, step: Step)
    requires LatchInv(s) && NeverHidden(s) && Enabled(s, step) && Allows(policy, s, step)
    requires ResetAt(Stopping, true) !in policy
    ensures NeverHidden(Do(s, step))
  {
    hide Recv, Valid, Flushed;
  }

  lemma {:induction false} NeverHiddenOverRuns(policy: set<ResetAt>, steps: seq<Step>)
    requires Legal(INIT, steps) && ResetsWithin(policy, INIT, steps) && ResetAt(Stopping, true) !in policy
    ensures NeverHidden(After(INIT, steps))
  {
    hide Do, Enabled, NeverHidden, LatchInv, SocketInv, Allows;
    if steps != [] {
      var before, last := steps[..|steps| - 1], steps[|steps| - 1];
      NeverHiddenOverRuns(policy, before);
      InitLatched();
      LatchOverRuns(INIT, before);
      NeverHiddenKept(policy, After(INIT, before), last);
    } else {
      InitNotHidden();
    }
  }

  lemma InitNotHidden()
    ensures NeverHidden(INIT)
  {
  }

  // ----- the end of the framer thread

  /** The socket is closed for good and its thread has stopped: no more chunks can arrive in this run. */
  predicate Quiet(s: Sys) {
    !s.ctl.sockOpen && (s.inp.sock.Closed? || s.inp.sock.Tripped?)
  }

  /** How many more times the framer thread can look at the receive queue. */
  function Budget(s: Sys): nat {
    if s.pc.LoopTest? || s.pc.Fetch? || s.pc.Hand? || s.pc.Putting? || s.pc.CheckError? || s.pc.Closing?
    then |s.inp.recvQ| + 1 else 0
  }

  /** How far the thread is from its next look at the queue, or from its end. */
  function Rank(pc: FramerPc): nat {
    match pc
    case Hand(_) => 10
    case Putting(_) => 9
    case CheckError => 8
    case Closing => 7
    case LoopTest => 6
    case Fetch => 5
    case SawEmpty => 5
    case CheckSocket => 4
    case Flush => 3
    case Exit => 2
    case ExitIdle => 1
    case Off => 0
  }

  function Pending(pc: FramerPc): nat {
    if pc.Putting? then |pc.frames| else 0
  }

  /** `s'` is closer to the end than `s`, in lexicographic order. */
  predicate Closer(s': Sys, s: Sys) {
    || Budget(s') < Budget(s)
    || (Budget(s') == Budget(s) && Rank(s'.pc) < Rank(s.pc))
    || (Budget(s') == Budget(s) && Rank(s'.pc) == Rank(s.pc) && Pending(s'.pc) < Pending(s.pc))
  }

  /** In quiet, every step of the framer thread brings it closer to its end. */
  lemma FramerProgress(s: Sys, counts: nat -> nat)
    requires Quiet(s) && Enabled(s, FramerStep(counts))
    ensures Quiet(FramerDo(s, counts)) && Closer(FramerDo(s, counts), s)
  {
    hide Recv, Valid, Flushed;
  }

  /** Nobody else can delay it, short of starting a new run. */
  lemma OthersDoNotDelay(s: Sys, step: Step)
    requires Quiet(s) && Enabled(s, step) && !step.FramerStep? && !step.RunOk?
    ensures var s' := Do(s, step);
            Quiet(s') && s'.pc == s.pc && Budget(s') <= Budget(s)
  {
    hide FramerDo, Valid;
  }

  /** In any state that can be reached the framer thread, while it lives, can take its next step. */
  lemma NeverStuck(steps: seq<Step>, counts: nat -> nat)
    requires Legal(INIT, steps) && After(INIT, steps).pc != Off
    ensures Enabled(After(INIT, steps), FramerStep(counts))
  {
    InitTidy();
    ValidOverRuns(INIT, steps);
  }

  predicate OnlyFramer(steps: seq<Step>) {
    forall i :: 0 <= i < |steps| ==> steps[i].FramerStep?
  }

  /** The thread takes nothing off the queue after its last look, and then only if it saw it empty. */
  lemma LeavingStep(s: Sys, counts: nat -> nat)
    requires Quiet(s) && KeepsGoing(s) && Enabled(s, FramerStep(counts))
    ensures var s' := FramerDo(s, counts);
            && s'.inp.received == s.inp.received
            && (Leaving(s) ==> Leaving(s') && s'.inp == s.inp)
            && (!Leaving(s) && Leaving(s') ==> s'.inp.recvQ == [])
  {
    hide Recv, Valid, Flushed;
  }

  /** In quiet the framer thread alone runs to its end; it takes all chunks, unless it had looked already. */
  lemma {:induction false} ThreadRunsOut(s: Sys, counts: nat -> nat) returns (steps: seq<Step>)
    requires Quiet(s) && Tidy(s)
    ensures Legal(s, steps) && OnlyFramer(steps)
    ensures var s' := After(s, steps);
            && s'.pc == Off && s'.inp.received == s.inp.received
            && (if Leaving(s) then s'.inp == s.inp else s'.inp.recvQ == [])
    decreases Budget(s), Rank(s.pc), Pending(s.pc)
  {
    hide Legal, After, Budget, Rank, Pending, FramerDo, Quiet, KeepsGoing, QueueSound, Valid;
    if s.pc == Off {
      steps := [];
      NoSteps(s);
    } else {
      var f := FramerStep(counts);
      FramerProgress(s, counts);
      LeavingStep(s, counts);
      TidyKept(s, f);
      Steps1(s, f);
      var more := ThreadRunsOut(Do(s, f), counts);
      Chain(s, [f], more);
      steps := [f] + more;
    }
  }

  ghost function Fetches(s: Sys, steps: seq<Step>): nat
    requires Legal(s, steps)
  {
    if steps == [] then 0
    else
      var before, last := steps[..|steps| - 1], steps[|steps| - 1];
      Fetches(s, before) + if last.FramerStep? && After(s, before).pc.Fetch? then 1 else 0
  }

  lemma FetchUsesBudget(s: Sys, step: Step)
    requires Quiet(s) && Enabled(s, step) && !step.RunOk?
    ensures Quiet(Do(s, step))
    ensures Budget(Do(s, step)) + (if step.FramerStep? && s.pc.Fetch? then 1 else 0) <= Budget(s)
  {
    hide Recv, Valid, Flushed;
  }

  /** In quiet the thread looks at the receive queue at most once per chunk left in it and once more. */
  lemma {:induction false} FetchesBounded(s: Sys, steps: seq<Step>)
    requires Quiet(s) && Legal(s, steps)
    requires forall i :: 0 <= i < |steps| ==> !steps[i].RunOk?
    ensures Quiet(After(s, steps))
    ensures Fetches(s, steps) + Budget(After(s, steps)) <= Budget(s) <= |s.inp.recvQ| + 1
  {
    hide Do, Enabled, Budget, Quiet;
    if steps != [] {
      FetchesBounded(s, steps[..|steps| - 1]);
      FetchUsesBudget(After(s, steps[..|steps| - 1]), steps[|steps| - 1]);
    } else {
      BudgetBound(s);
    }
  }

  lemma BudgetBound(s: Sys)
    ensures Budget(s) <= |s.inp.recvQ| + 1
  {
  }

  // ----- endless schedules

  function FirstSteps(schedule: nat -> Step, n: nat): (steps: seq<Step>)
    ensures |steps| == n && forall i :: 0 <= i < n ==> steps[i] == schedule(i)
  {
    seq(n, i requires 0 <= i < n => schedule(i))
  }

  /** A way for all actors to go on forever, without a new run. */
  ghost predicate Endless(s: Sys, schedule: nat -> Step) {
    && (forall n: nat :: Legal(s, FirstSteps(schedule, n)))
    && (forall n: nat :: !schedule(n).RunOk?)
  }

  ghost function StateAt(s: Sys, schedule: nat -> Step, n: nat): Sys
    requires Endless(s, schedule)
  {
    After(s, FirstSteps(schedule, n))
  }

  /** The framer thread takes a step at time `n`, or has ended. */
  ghost predicate FramerTurn(s: Sys, schedule: nat -> Step, n: nat)
    requires Endless(s, schedule)
  {
    schedule(n).FramerStep? || StateAt(s, schedule, n).pc == Off
  }

  ghost predicate TurnFrom(s: Sys, schedule: nat -> Step, n: nat)
    requires Endless(s, schedule)
  {
    exists m: nat :: n <= m && FramerTurn(s, schedule, m)
  }

  /** The framer thread gets its turn again and again. */
  ghost predicate Fair(s: Sys, schedule: nat -> Step)
    requires Endless(s, schedule)
  {
    forall n: nat :: TurnFrom(s, schedule, n)
  }

  lemma NextState(s: Sys, schedule: nat -> Step, n: nat)
    requires Endless(s, schedule)
    ensures var st := StateAt(s, schedule, n);
            Enabled(st, schedule(n)) && StateAt(s, schedule, n + 1) == Do(st, schedule(n)) && !schedule(n).RunOk?
  {
    var steps := FirstSteps(schedule, n + 1);
    assert steps[..n] == FirstSteps(schedule, n);
    Unroll(s, steps);
  }

  lemma {:induction false} QuietOnward(s: Sys, schedule: nat -> Step, n: nat)
    requires Quiet(s) && Endless(s, schedule)
    ensures Quiet(StateAt(s, schedule, n))
    ensures Fetches(s, FirstSteps(schedule, n)) <= |s.inp.recvQ| + 1
  {
    hide Quiet, Budget;
    FetchesBounded(s, FirstSteps(schedule, n));
  }

  lemma {:induction false} EndsBy(s: Sys, schedule: nat -> Step, n: nat, turn: nat)
    requires Quiet(s) && Endless(s, schedule) && Fair(s, schedule)
    requires n <= turn && FramerTurn(s, schedule, turn)
    ensures exists end: nat :: StateAt(s, schedule, end).pc == Off
    decreases Budget(StateAt(s, schedule, n)), Rank(StateAt(s, schedule, n).pc),
              Pending(StateAt(s, schedule, n).pc), turn - n
  {
    hide Do, Endless, StateAt, Quiet, Enabled, Budget, Rank, Pending;
    var st := StateAt(s, schedule, n);
    if st.pc != Off {
      NextState(s, schedule, n);
      QuietOnward(s, schedule, n);
      if schedule(n).FramerStep? {
        FramerTurnTaken(st, schedule(n));
        assert TurnFrom(s, schedule, n + 1);
        var m: nat :| n + 1 <= m && FramerTurn(s, schedule, m);
        EndsBy(s, schedule, n + 1, m);
      } else {
        OthersDoNotDelay(st, schedule(n));
        EndsBy(s, schedule, n + 1, turn);
      }
    }
  }

  lemma FramerTurnTaken(s: Sys, step: Step)
    requires Quiet(s) && Enabled(s, step) && step.FramerStep?
    ensures Quiet(Do(s, step)) && Closer(Do(s, step), s)
  {
    hide Quiet, Closer, FramerDo;
    FramerProgress(s, step.counts);
  }

  /**
   Termination. From the moment the socket is closed and no chunk can arrive any more, however all the others
   go on: a framer thread that keeps getting its turn ends, after at most one look at the receive queue
   per chunk left in it and one more.
   */
  lemma FairRunsEnd(s: Sys, schedule: nat -> Step)
    requires Quiet(s) && Endless(s, schedule) && Fair(s, schedule)
    ensures exists end: nat ::
              && StateAt(s, schedule, end).pc == Off
              && Fetches(s, FirstSteps(schedule, end)) <= |s.inp.recvQ| + 1
  {
    hide Quiet, StateAt, FramerTurn, FirstSteps;
    assert TurnFrom(s, schedule, 0);
    var turn: nat :| 0 <= turn && FramerTurn(s, schedule, turn);
    EndsBy(s, schedule, 0, turn);
    var end: nat :| StateAt(s, schedule, end).pc == Off;
    QuietOnward(s, schedule, end);
  }

  // ----- the last status

  /**
   While the framer thread lives: a framer error is noticed before the next chunk is looked at, the flag means
   an error, and a queue error not noticed yet will be with the next chunk, which there is.
   */
  predicate Noticed(s: Sys) {
    s.pc != Off ==>
      && (s.framer.error != NoError ==> s.ctl.errorFlg || s.pc.Putting? || s.pc.CheckError?)
      && (s.ctl.errorFlg ==> s.framer.error != NoError || s.ctl.queueError)
      && (s.ctl.queueError && !s.ctl.errorFlg ==>
            s.inp.recvQ != [] || s.pc.Hand? || s.pc.Putting? || s.pc.CheckError?)
  }

  lemma FramerNoticed(s: Sys, counts: nat -> nat)
    requires QueueSound(s) && Noticed(s) && Enabled(s, FramerStep(counts))
    ensures Noticed(FramerDo(s, counts))
  {
    hide Recv, Valid;
    if s.pc.Hand? { RecvFrames(s.framer, s.pc.chunk, counts); }
  }

  lemma NoticedKept(s: Sys, step: Step)
    requires KeepsGoing(s) && QueueSound(s) && Noticed(s) && Enabled(s, step)
    ensures Noticed(Do(s, step))
  {
    hide FramerDo, Valid;
    if step.FramerStep? { FramerNoticed(s, step.counts); }
  }

  lemma {:induction false} NoticedOverRuns(policy: set<ResetAt>, steps: seq<Step>)
    requires Legal(INIT, steps) && ResetsWithin(policy, INIT, steps) && NoLiveResets(policy)
    ensures Noticed(After(INIT, steps)) && Tidy(After(INIT, steps))
  {
    InitTidy();
    if steps != [] {
      hide Do, Enabled, Noticed, KeepsGoing, QueueSound, Aligned;
      NoticedOverRuns(policy, steps[..|steps| - 1]);
      NoticedKept(After(INIT, steps[..|steps| - 1]), steps[|steps| - 1]);
      TidyOverRuns(policy, INIT, steps);
    }
  }

  // ----- by which exit the thread has left

  /** The state in which the framer thread last decided to leave its loop by one of its breaks. */
  ghost function Leave(s: Sys, steps: seq<Step>): Option<Sys>
    requires Legal(s, steps)
  {
    if steps == [] then None
    else
      var before, last := steps[..|steps| - 1], steps[|steps| - 1];
      if last.FramerStep? && Do(After(s, before), last).pc == Flush then Some(After(s, before))
      else Leave(s, before)
  }

  predicate Outside(pc: FramerPc) {
    pc.Flush? || pc.Exit? || pc.ExitIdle?
  }

  /** From `l` the thread left because of a stop, or because the socket was closed and with a look for a queue error. */
  predicate LeftFrom(l: Sys, s: Sys) {
    && ((l.pc == SawEmpty && l.ctl.status == Stopping) || (l.pc == CheckSocket && !l.ctl.sockOpen))
    && s.framer.error == l.framer.error && (l.ctl.queueError ==> s.ctl.queueError)
    && (l.framer.error != NoError ==> l.ctl.errorFlg)
    && (l.ctl.errorFlg ==> l.framer.error != NoError || l.ctl.queueError)
    && (s.ctl.errorFlg <==> l.ctl.errorFlg || (l.pc == CheckSocket && l.ctl.queueError))
  }

  lemma Leaves(s: Sys, counts: nat -> nat)
    requires KeepsGoing(s) && Noticed(s) && Enabled(s, FramerStep(counts))
    ensures FramerDo(s, counts).pc == Flush ==> LeftFrom(s, FramerDo(s, counts))
    ensures Outside(FramerDo(s, counts).pc) && FramerDo(s, counts).pc != Flush ==> Outside(s.pc)
    ensures Outside(s.pc) ==> FramerDo(s, counts).ctl.errorFlg == s.ctl.errorFlg
                              && FramerDo(s, counts).framer.error == s.framer.error
                              && FramerDo(s, counts).ctl.queueError == s.ctl.queueError
  {
    hide Recv, Valid;
  }

  lemma OthersOutside(s: Sys, step: Step)
    requires Enabled(s, step) && !step.FramerStep? && Outside(s.pc)
    ensures var s' := Do(s, step);
            && s'.ctl.errorFlg == s.ctl.errorFlg && s'.framer.error == s.framer.error
            && (s.ctl.queueError ==> s'.ctl.queueError)
  {
    hide Valid;
  }

  lemma OthersStayPut(s: Sys, step: Step)
    requires Enabled(s, step) && !step.FramerStep? && !step.RunOk?
    ensures Do(s, step).pc == s.pc
  {
    hide Valid;
  }

  lemma {:induction false} LeftOverRuns(policy: set<ResetAt>, steps: seq<Step>)
    requires Legal(INIT, steps) && ResetsWithin(policy, INIT, steps) && NoLiveResets(policy)
    ensures Outside(After(INIT, steps).pc) ==>
              Leave(INIT, steps).Some? && LeftFrom(Leave(INIT, steps).value, After(INIT, steps))
  {
    if steps != [] {
      hide Do, Enabled, Noticed, KeepsGoing, QueueSound, Aligned, FramerDo, LeftFrom, Outside;
      var before, last := steps[..|steps| - 1], steps[|steps| - 1];
      LeftOverRuns(policy, before);
      NoticedOverRuns(policy, before);
      LeftStep(After(INIT, before), last, Leave(INIT, before));
    }
  }

  lemma LeftStep(s: Sys, step: Step, l: Option<Sys>)
    requires KeepsGoing(s) && Noticed(s) && Enabled(s, step)
    requires Outside(s.pc) ==> l.Some? && LeftFrom(l.value, s)
    ensures var s' := Do(s, step);
            var l' := if step.FramerStep? && s'.pc == Flush then Some(s) else l;
            Outside(s'.pc) ==> l'.Some? && LeftFrom(l'.value, s')
  {
    hide FramerDo, Valid, Noticed, KeepsGoing;
    if step.FramerStep? {
      Leaves(s, step.counts);
    } else if !step.RunOk? {
      OthersStayPut(s, step);
      if Outside(s.pc) { OthersOutside(s, step); }
    }
  }

  /**
   The status with which the framer thread ends. If no reset began while a framer thread lived it is SYS_ERROR or
   IDLE: SYS_ERROR after any error of the framer, and after an error of the receive queue that was noticed with
   a chunk or was up when the thread found the socket closed, whatever is queued. So an error of the
   receive queue is missed exactly if it was not noticed with a chunk and the thread left by the stopping exit
   or the error came behind its look at the socket; never when no chunk has been left in the queue. With
   other resets it may be RESET, with the reset still at work, and IDLE in spite of a raised error, though
   not unless a reset began in STOPPING. In SYS_ERROR the socket is closed.
   */
  lemma {:induction false} FinalStatus(policy: set<ResetAt>, steps: seq<Step>, counts: nat -> nat)
    requires Legal(INIT, steps) && ResetsWithin(policy, INIT, steps)
    requires Enabled(After(INIT, steps), FramerStep(counts)) && FramerDo(After(INIT, steps), counts).pc == Off
    ensures var s := FramerDo(After(INIT, steps), counts);
            var c, failed := s.ctl, s.framer.error != NoError || s.ctl.queueError;
            && (c.errorFlg ==> Shown(c) || (c.status == Idle && ResetAt(Stopping, true) in policy))
            && (!c.errorFlg ==> c.status == Idle || (c.status == Resetting && (c.api.ResetRecv? || c.api.ResetEvent?)))
            && (c.status == SysError && c.errorFlg ==> !c.sockOpen)
            && (NoLiveResets(policy) ==>
                  && c.status == (if c.errorFlg then SysError else Idle)
                  && (s.framer.error != NoError ==> c.status == SysError)
                  && (c.status == SysError ==> failed)
                  && (s.inp.recvQ == [] ==> (c.status == SysError <==> failed)))
    ensures NoLiveResets(policy) ==>
              && Leave(INIT, steps).Some?
              && var s, l := FramerDo(After(INIT, steps), counts), Leave(INIT, steps).value;
                 && ((l.pc == SawEmpty && l.ctl.status == Stopping) || (l.pc == CheckSocket && !l.ctl.sockOpen))
                 && (l.pc == CheckSocket && l.ctl.queueError ==> s.ctl.status == SysError)
                 && (s.ctl.queueError && s.ctl.status == Idle <==>
                     s.ctl.queueError && !l.ctl.errorFlg && (l.pc == SawEmpty || !l.ctl.queueError))
  {
    InitLatched();
    LatchOverRuns(INIT, steps);
    if ResetAt(Stopping, true) !in policy { NeverHiddenOverRuns(policy, steps); }
    if NoLiveResets(policy) {
      NoticedOverRuns(policy, steps);
      LeftOverRuns(policy, steps);
    }
    hide After, Legal, ResetsWithin, Recv, Valid, QueueSound, Aligned, Leave;
  }

  // ----- calls of the API

  /** A stop in RUN or SYS_ERROR closes the socket: it is closed when the call returns, and stays so. */
  lemma {:induction false} StopCloses(s: Sys, steps: seq<Step>)
    requires s.ctl.api.Free? && (s.ctl.status == Running || s.ctl.status == SysError)
    requires Legal(Do(s, StopBegin), steps) && forall i :: 0 <= i < |steps| ==> !steps[i].RunOk?
    ensures var c := After(Do(s, StopBegin), steps).ctl;
            c.api.ClosingSocket? || !c.sockOpen
  {
    if steps != [] {
      hide Do, Enabled;
      StopCloses(s, steps[..|steps| - 1]);
      StaysClosed(After(Do(s, StopBegin), steps[..|steps| - 1]), steps[|steps| - 1]);
    }
  }

  lemma StaysClosed(s: Sys, step: Step)
    requires Enabled(s, step) && !step.RunOk? && (s.ctl.api.ClosingSocket? || !s.ctl.sockOpen)
    ensures Do(s, step).ctl.api.ClosingSocket? || !Do(s, step).ctl.sockOpen
  {
    hide Recv, Valid, Flushed;
  }

  /** A run whose socket thread has ended without closing the socket, with nothing left to frame. */
  predicate Waiting(s: Sys) {
    && s.inp.sock.Closed? && s.inp.recvQ == [] && s.ctl.sockOpen
    && s.ctl.status == Running && s.ctl.api.Free?
    && (s.pc.LoopTest? || s.pc.Fetch? || s.pc.SawEmpty? || s.pc.CheckSocket?)
  }

  lemma WaitingKept(s: Sys, step: Step)
    requires Waiting(s) && Enabled(s, step) && !step.StopBegin?
    ensures Waiting(Do(s, step))
  {
    hide Recv, Valid, Flushed;
  }

  /**
   When the socket thread gives up on an error of select it leaves the socket open, and nobody notices: the framer
   thread goes on looking, in status RUN, until the caller stops the run.
   */
  lemma {:induction false} SelectErrorUnnoticed(s: Sys, steps: seq<Step>)
    requires s.inp.sock.Up? && s.inp.recvQ == [] && s.ctl.sockOpen && s.ctl.status == Running && s.ctl.api.Free?
    requires s.pc.LoopTest? || s.pc.Fetch? || s.pc.SawEmpty? || s.pc.CheckSocket?
    requires Legal(Do(s, SockExit(false)), steps) && forall i :: 0 <= i < |steps| ==> !steps[i].StopBegin?
    ensures Waiting(After(Do(s, SockExit(false)), steps))
  {
    if steps != [] {
      hide Do, Enabled, Waiting;
      SelectErrorUnnoticed(s, steps[..|steps| - 1]);
      WaitingKept(After(Do(s, SockExit(false)), steps[..|steps| - 1]), steps[|steps| - 1]);
    }
  }

  /** No thread, and an error that shows. */
  predicate FailedInv(s: Sys) {
    && s.pc == Off && Shown(s.ctl)
    && (s.ctl.api.ResetRecv? || s.ctl.api.ResetEvent? ==> s.ctl.api.saved == SysError)
  }

  lemma FailedKept(s: Sys, step: Step)
    requires FailedInv(s) && Enabled(s, step) && !step.RunOk?
    ensures FailedInv(Do(s, step))
  {
    hide Recv, Valid, Flushed;
  }

  /** A SiDaqRun that fails leaves SYS_ERROR, and nothing but a SiDaqRun that succeeds ends it; RESET apart. */
  lemma {:induction false} FailedRunShows(s: Sys, steps: seq<Step>)
    requires Enabled(s, RunFails) && Legal(Do(s, RunFails), steps)
    requires forall i :: 0 <= i < |steps| ==> !steps[i].RunOk?
    ensures FailedInv(After(Do(s, RunFails), steps))
  {
    if steps != [] {
      hide Do, Enabled, FailedInv;
      FailedRunShows(s, steps[..|steps| - 1]);
      FailedKept(After(Do(s, RunFails), steps[..|steps| - 1]), steps[|steps| - 1]);
    }
  }
}
