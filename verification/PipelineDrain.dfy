/** When the end of a run leaves received data behind: runs that are stopped and runs whose socket closes. */
module PipelineDrain {
  import opened Bytes
  import opened FramerSpec
  import opened Pipeline
  import opened PipelineSafety
  import opened PipelineStatus

  // ----- exactly when everything comes out

  /** No further chunk can be put in this run. */
  predicate Sealed(sock: SockPc) {
    sock.Tripping? || sock.Tripped? || sock.Closed?
  }

  /** Steps within one run, without resets. */
  predicate GoesOn(steps: seq<Step>) {
    NoResets(steps) && forall i :: 0 <= i < |steps| ==> !steps[i].RunOk?
  }

  /** However the run goes on from here, when the framer thread has left no chunk is left in the receive queue. */
  ghost predicate Drains(s: Sys) {
    forall steps | Legal(s, steps) && GoesOn(steps) && Left(After(s, steps)) :: After(s, steps).inp.recvQ == []
  }

  /** No more chunks, and the framer thread has not looked for the last time unless there are none. */
  predicate AllSeen(s: Sys) {
    Sealed(s.inp.sock) && (Leaving(s) ==> s.inp.recvQ == [])
  }

  lemma AllSeenKept(s: Sys, step: Step)
    requires KeepsGoing(s) && AllSeen(s) && Enabled(s, step) && NoReset(step) && !step.RunOk?
    ensures AllSeen(Do(s, step))
  {
    hide Recv, Valid, Flushed;
  }

  lemma {:induction false} AllSeenOnward(s: Sys, steps: seq<Step>)
    requires Tidy(s) && AllSeen(s) && Legal(s, steps) && GoesOn(steps)
    ensures AllSeen(After(s, steps))
  {
    if steps != [] {
      var before, last := steps[..|steps| - 1], steps[|steps| - 1];
      hide Do, Enabled, AllSeen, QueueSound, Aligned;
      AllSeenOnward(s, before);
      TidyWithoutResets(s, before);
      AllSeenKept(After(s, before), last);
    }
  }

  /** Up to its look at an empty queue the framer thread gets closer to it with every step. */
  lemma StepTowardLook(s: Sys, counts: nat -> nat)
    requires !Leaving(s) && KeepsGoing(s) && Enabled(s, FramerStep(counts))
    ensures var s' := FramerDo(s, counts);
            && s'.inp.sock == s.inp.sock && s'.inp.recvLimit == s.inp.recvLimit
            && (if Leaving(s') then s'.inp.recvQ == [] else Closer(s', s))
  {
    hide Recv, Valid, Flushed;
  }

  /** The framer thread alone gets to its look at an empty queue. */
  lemma {:induction false} ThreadLooks(s: Sys, counts: nat -> nat) returns (steps: seq<Step>)
    requires Tidy(s) && !Leaving(s)
    ensures Legal(s, steps) && OnlyFramer(steps)
    ensures var s' := After(s, steps);
            && Tidy(s') && Leaving(s') && s'.inp.recvQ == []
            && s'.inp.sock == s.inp.sock && s'.inp.recvLimit == s.inp.recvLimit
    decreases Budget(s), Rank(s.pc), Pending(s.pc)
  {
    hide Legal, After, Budget, Rank, Pending, FramerDo, KeepsGoing, QueueSound, Valid;
    var f := FramerStep(counts);
    StepTowardLook(s, counts);
    TidyKept(s, f);
    Steps1(s, f);
    steps := [f];
    if !Leaving(Do(s, f)) {
      var more := ThreadLooks(Do(s, f), counts);
      Chain(s, [f], more);
      steps := [f] + more;
    }
  }

  /** The socket thread at work can put one more chunk and end. */
  lemma UpSeals(s: Sys) returns (steps: seq<Step>)
    requires s.inp.sock.Up?
    ensures Legal(s, steps) && GoesOn(steps)
    ensures After(s, steps).inp.recvQ != [] && After(s, steps).pc == s.pc && Quiet(After(s, steps))
  {
    var s2 := Do(Do(s, SockPut([0])), SockCount);
    if s2.inp.sock.Up? {
      Steps3(s, SockPut([0]), SockCount, SockExit(true));
      steps := [SockPut([0]), SockCount, SockExit(true)];
    } else {
      Steps3(s, SockPut([0]), SockCount, SockClose);
      steps := [SockPut([0]), SockCount, SockClose];
    }
  }

  /** So can it when it is just counting: either the count trips, with chunks in the queue, or it goes on. */
  lemma CountingSeals(s: Sys) returns (steps: seq<Step>)
    requires s.inp.sock.Counting?
    ensures Legal(s, steps) && GoesOn(steps)
    ensures After(s, steps).inp.recvQ != [] && After(s, steps).pc == s.pc && Quiet(After(s, steps))
  {
    var s1 := Do(s, SockCount);
    if s1.inp.sock.Tripping? {
      Steps2(s, SockCount, SockClose);
      steps := [SockCount, SockClose];
    } else {
      Steps1(s, SockCount);
      hide Do, Enabled, Legal, After, Quiet;
      var more := UpSeals(s1);
      Chain(s, [SockCount], more);
      steps := [SockCount] + more;
    }
  }

  /** The socket of a live thread can be closed: by the socket thread, or by a stop. */
  lemma SocketCloses(s: Sys) returns (steps: seq<Step>)
    requires KeepsGoing(s) && s.pc != Off && Sealed(s.inp.sock)
    ensures Legal(s, steps) && GoesOn(steps)
    ensures After(s, steps).inp.recvQ == s.inp.recvQ && After(s, steps).pc == s.pc && Quiet(After(s, steps))
  {
    if s.inp.sock.Tripping? {
      Steps1(s, SockClose);
      steps := [SockClose];
    } else if !s.ctl.sockOpen {
      NoSteps(s);
      steps := [];
    } else if s.ctl.api.ClosingSocket? {
      Steps1(s, StopClose);
      steps := [StopClose];
    } else {
      Steps2(s, StopBegin, StopClose);
      steps := [StopBegin, StopClose];
    }
  }

  /** From a state in which a chunk may be missed, a way to miss one. */
  lemma LeavesBehind(s: Sys) returns (steps: seq<Step>)
    requires Tidy(s) && !AllSeen(s)
    ensures Legal(s, steps) && GoesOn(steps) && Left(After(s, steps)) && After(s, steps).inp.recvQ != []
  {
    var a: seq<Step> := [];
    NoSteps(s);
    hide Legal, After, Quiet, Tidy;
    if !Leaving(s) { a := ThreadLooks(s, CountsFrom(0)); }
    var s1 := After(s, a);
    var b: seq<Step> := [];
    if s1.inp.sock.Up? {
      b := UpSeals(s1);
    } else if s1.inp.sock.Counting? {
      b := CountingSeals(s1);
    } else if s1.pc == Off {
      steps := a;
      return;
    } else {
      assert KeepsGoing(s1) by { TidyKeepsGoing(s1); }
      b := SocketCloses(s1);
    }
    Chain(s, a, b);
    TidyWithoutResets(s1, b);
    var c := ThreadRunsOut(After(s1, b), CountsFrom(0));
    Chain(s, a + b, c);
    steps := a + b + c;
  }

  lemma TidyKeepsGoing(s: Sys)
    requires Tidy(s)
    ensures KeepsGoing(s)
  {
  }

  /**
   From a state of a run the end leaves nothing behind, by whichever exit, if and only if no more chunk can be put
   and the framer thread will look again or there is nothing to see. In particular when SiDaqStop begins, or when the
   socket closes: a chunk put after the look that sends the thread away stays in the receive queue.
   */
  lemma DrainsIff(s: Sys)
    requires Tidy(s)
    ensures Drains(s) <==> AllSeen(s)
  {
    hide Legal, After, Tidy;
    if AllSeen(s) {
      forall steps | Legal(s, steps) && GoesOn(steps) && Left(After(s, steps))
        ensures After(s, steps).inp.recvQ == []
      {
        AllSeenOnward(s, steps);
      }
    } else {
      var steps := LeavesBehind(s);
    }
  }

  // ----- when to stop

  /** What a caller can see as it calls SiDaqStop: whether the socket thread has ended, whether the queue is empty. */
  datatype StopAt = StopAt(socketDone: bool, queueEmpty: bool)

  function Seen(s: Sys): StopAt {
    StopAt(Sealed(s.inp.sock), s.inp.recvQ == [])
  }

  /** A run is going, and the caller may stop it now. */
  ghost predicate MayStop(policy: set<StopAt>, steps: seq<Step>) {
    && Legal(INIT, steps) && NoResets(steps)
    && After(INIT, steps).ctl.status == Running && After(INIT, steps).ctl.api.Free?
    && Seen(After(INIT, steps)) in policy
  }

  ghost function StopBegunAt(policy: set<StopAt>, steps: seq<Step>): Sys
    requires MayStop(policy, steps)
  {
    Do(After(INIT, steps), StopBegin)
  }

  /** All data received is framed and put on the event queue, whenever the policy allows a stop. */
  ghost predicate StopDrains(policy: set<StopAt>) {
    forall steps | MayStop(policy, steps) :: Drains(StopBegunAt(policy, steps))
  }

  lemma StopAllSeen(s: Sys)
    requires Enabled(s, StopBegin)
    ensures AllSeen(Do(s, StopBegin)) <==> AllSeen(s)
  {
  }

  /**
   Stopping frames all data received, over every interleaving of any number of runs, if and only if the caller stops
   only when the socket thread has ended and the receive queue is empty.
   */
  lemma StopDrainsIff(policy: set<StopAt>)
    ensures StopDrains(policy) <==> policy <= {StopAt(true, true)}
  {
    hide Legal, After, Tidy, Drains, MayStop, StopBegunAt, AllSeen;
    if policy <= {StopAt(true, true)} {
      forall steps | MayStop(policy, steps)
        ensures Drains(StopBegunAt(policy, steps))
      {
        StoppedTidy(policy, steps);
        DrainsIff(StopBegunAt(policy, steps));
      }
    } else {
      var at :| at in policy && at != StopAt(true, true);
      var steps := LateChunk(at);
      MayStopAt(policy, steps);
      StoppedTidy(policy, steps);
      DrainsIff(StopBegunAt(policy, steps));
    }
  }

  lemma StoppedTidy(policy: set<StopAt>, steps: seq<Step>)
    requires MayStop(policy, steps)
    ensures Tidy(StopBegunAt(policy, steps))
    ensures AllSeen(StopBegunAt(policy, steps)) <==> AllSeen(After(INIT, steps))
    ensures policy <= {StopAt(true, true)} ==> AllSeen(After(INIT, steps))
  {
    InitTidy();
    TidyWithoutResets(INIT, steps);
    hide Legal, After, Tidy;
    TidyKept(After(INIT, steps), StopBegin);
    StopAllSeen(After(INIT, steps));
  }

  lemma MayStopAt(policy: set<StopAt>, steps: seq<Step>)
    requires Legal(INIT, steps) && NoResets(steps)
    requires After(INIT, steps).ctl.status == Running && After(INIT, steps).ctl.api.Free?
    requires Seen(After(INIT, steps)) in policy
    ensures MayStop(policy, steps)
  {
  }

  // ----- runs that leave a chunk behind

  function TwoByteFrames(recvLimit: nat): RunArgs {
    RunArgs(Mode(None, 0, 2), 4, 0, recvLimit)
  }

  lemma TwoByteFramesValid(recvLimit: nat)
    ensures var f := Configured(INIT.framer, TwoByteFrames(recvLimit));
            Valid(f) && f.parked == []
  {
  }

  /** A run in which the framer thread has just looked at the empty receive queue. */
  lemma LookedOnce(recvLimit: nat, counts: nat -> nat)
    ensures var steps, a := [RunOk(TwoByteFrames(recvLimit)), FramerStep(counts), FramerStep(counts)],
                            TwoByteFrames(recvLimit);
            && Legal(INIT, steps)
            && After(INIT, steps) ==
               Sys(Ctl(Running, false, true, false, Free), Inflow(Up, recvLimit, [], 0, []), Outflow([], []),
                   Configured(INIT.framer, a), SawEmpty, 0)
  {
    TwoByteFramesValid(recvLimit);
    hide Valid;
    Steps3(INIT, RunOk(TwoByteFrames(recvLimit)), FramerStep(counts), FramerStep(counts));
  }

  lemma OneChunk(s: Sys)
    requires s.inp.sock.Up? && s.inp.recvQ == [] && s.inp.recvLimit == 0
    ensures var steps := [SockPut([7]), SockCount, SockExit(true)];
            && Legal(s, steps)
            && var s' := After(s, steps);
               && s'.inp.sock.Closed? && s'.inp.recvQ == [[7]] && s'.pc == s.pc && s'.framer == s.framer
               && s'.out == s.out && s'.ctl == s.ctl.(sockOpen := false)
  {
    Steps3(s, SockPut([7]), SockCount, SockExit(true));
  }

  /** The last chunk has come in behind the thread's look, and the socket thread has ended. */
  lemma ChunkBehindLook(counts: nat -> nat) returns (steps: seq<Step>)
    ensures Legal(INIT, steps) && NoResets(steps) && NoStops(steps)
    ensures var s := After(INIT, steps);
            && s.pc == SawEmpty && s.ctl == Ctl(Running, false, false, false, Free) && s.inp.sock.Closed?
            && s.inp.recvQ == [[7]] && s.framer.parked == [] && Valid(s.framer) && s.out == Outflow([], [])
  {
    var f := FramerStep(counts);
    var a, b := [RunOk(TwoByteFrames(0)), f, f], [SockPut([7]), SockCount, SockExit(true)];
    hide Legal, After, Do, Enabled, Configured, Valid, TwoByteFrames;
    LookedOnce(0, counts);
    TwoByteFramesValid(0);
    OneChunk(After(INIT, a));
    Chain(INIT, a, b);
    NoResetsJoin(a, b);
    steps := a + b;
  }

  predicate NoStops(steps: seq<Step>) {
    forall i :: 0 <= i < |steps| ==> !steps[i].StopBegin?
  }

  lemma NoResetsJoin(a: seq<Step>, b: seq<Step>)
    requires NoResets(a) && NoResets(b)
    ensures NoResets(a + b)
  {
    hide NoReset;
  }

  lemma FirstSteps()
    ensures var begin := RunOk(TwoByteFrames(0));
            && Legal(INIT, [begin]) && Legal(INIT, [begin, SockPut([7])])
            && var s, s' := After(INIT, [begin]), After(INIT, [begin, SockPut([7])]);
               && s.ctl == s'.ctl == Ctl(Running, false, true, false, Free)
               && s.inp.sock.Up? && s.inp.recvQ == [] && s'.inp.sock.Counting? && s'.inp.recvQ == [[7]]
  {
    TwoByteFramesValid(0);
    hide Valid;
    Steps1(INIT, RunOk(TwoByteFrames(0)));
    Steps2(INIT, RunOk(TwoByteFrames(0)), SockPut([7]));
  }

  /** For everything a caller may see but one, a run in which it stops too early. */
  lemma LateChunk(at: StopAt) returns (steps: seq<Step>)
    requires at != StopAt(true, true)
    ensures Legal(INIT, steps) && NoResets(steps)
    ensures var s := After(INIT, steps);
            s.ctl.status == Running && s.ctl.api.Free? && Seen(s) == at && !AllSeen(s)
  {
    hide Legal, After, Do, Enabled, TwoByteFrames;
    FirstSteps();
    if at == StopAt(false, true) {
      steps := [RunOk(TwoByteFrames(0))];
    } else if at == StopAt(false, false) {
      steps := [RunOk(TwoByteFrames(0)), SockPut([7])];
    } else {
      steps := ChunkBehindLook(CountsFrom(0));
    }
  }

  /** From its flush the thread goes to IDLE if the flag is down. */
  lemma FlushToIdle(s: Sys, counts: nat -> nat)
    requires s.pc == Flush && s.framer.parked == [] && Valid(s.framer)
    requires !s.ctl.errorFlg && s.ctl.status != Resetting
    ensures var f := FramerStep(counts);
            && Legal(s, [f, f, f])
            && After(s, [f, f, f]) == s.(pc := Off, ctl := s.ctl.(status := Idle))
  {
    hide Valid, Recv;
    assert s.out.eventQ + [] == s.out.eventQ;
    Steps3(s, FramerStep(counts), FramerStep(counts), FramerStep(counts));
  }

  lemma StopsBehindLook(s: Sys, counts: nat -> nat)
    requires s.pc == SawEmpty && s.ctl.status == Running && s.ctl.api.Free?
    ensures var steps := [StopBegin, FramerStep(counts)];
            && Legal(s, steps)
            && After(s, steps) == s.(pc := Flush, ctl := s.ctl.(status := Stopping, api := ClosingSocket))
  {
    hide Valid, Recv, Flushed;
    Steps2(s, StopBegin, FramerStep(counts));
  }

  /** A stop behind the thread's last look sends it away. */
  lemma LeavesAfterStop(s: Sys, counts: nat -> nat)
    requires s.pc == SawEmpty && s.ctl.status == Running && s.ctl.api.Free? && !s.ctl.errorFlg
    requires s.framer.parked == [] && Valid(s.framer)
    ensures var f := FramerStep(counts);
            var steps := [StopBegin, f, f, f, f];
            && Legal(s, steps)
            && After(s, steps) == s.(pc := Off, ctl := s.ctl.(status := Idle, api := ClosingSocket))
  {
    var f := FramerStep(counts);
    StopsBehindLook(s, counts);
    hide Legal, After, Do, Enabled, Valid;
    FlushToIdle(After(s, [StopBegin, f]), counts);
    Chain(s, [StopBegin, f], [f, f, f]);
    assert [StopBegin, f] + [f, f, f] == [StopBegin, f, f, f, f];
  }

  lemma LateChunkComesIn(s: Sys)
    requires s.inp.sock.Up? && s.inp.recvQ == [] && s.inp.recvLimit == 0 && s.ctl.api.ClosingSocket?
    ensures var steps := [SockPut([7]), SockCount, SockExit(true), StopClose];
            && Legal(s, steps)
            && var s' := After(s, steps);
               && s'.inp.sock.Closed? && s'.inp.recvQ == [[7]] && s'.pc == s.pc && s'.framer == s.framer
               && s'.out == s.out && s'.ctl == s.ctl.(sockOpen := false, api := Free)
  {
    Steps4(s, SockPut([7]), SockCount, SockExit(true), StopClose);
  }

  /** A run that is stopped before anything comes in, and whose thread has left. */
  lemma StoppedUnseen(counts: nat -> nat) returns (steps: seq<Step>)
    ensures Legal(INIT, steps) && NoResets(steps)
    ensures var s := After(INIT, steps);
            && s.pc == Off && s.ctl == Ctl(Idle, false, true, false, ClosingSocket)
            && s.inp == Inflow(Up, 0, [], 0, []) && s.framer == Configured(INIT.framer, TwoByteFrames(0))
            && s.out == Outflow([], [])
  {
    var f := FramerStep(counts);
    var a, b := [RunOk(TwoByteFrames(0)), f, f], [StopBegin, f, f, f, f];
    hide Legal, After, Do, Enabled, Configured, Valid, TwoByteFrames;
    LookedOnce(0, counts);
    TwoByteFramesValid(0);
    LeavesAfterStop(After(INIT, a), counts);
    Chain(INIT, a, b);
    NoResetsJoin(a, b);
    steps := a + b;
  }

  /** The run is stopped, the thread leaves after an empty look, and only then the last chunk comes in. */
  lemma StopLeavesChunk(counts: nat -> nat) returns (steps: seq<Step>)
    ensures Legal(INIT, steps) && NoResets(steps)
    ensures var s := After(INIT, steps);
            && s.pc == Off && s.ctl == Ctl(Idle, false, false, false, Free) && s.inp.sock.Closed?
            && s.inp.recvQ == [[7]] && s.framer == Configured(INIT.framer, TwoByteFrames(0)) && s.out == Outflow([], [])
  {
    hide Legal, After, Do, Enabled, Configured, Valid, TwoByteFrames;
    var a := StoppedUnseen(counts);
    var b := [SockPut([7]), SockCount, SockExit(true), StopClose];
    LateChunkComesIn(After(INIT, a));
    Chain(INIT, a, b);
    NoResetsJoin(a, b);
    steps := a + b;
  }

  lemma LooksAtSocket(s: Sys, counts: nat -> nat)
    requires s.pc == SawEmpty && s.ctl == Ctl(Running, false, false, false, Free)
    ensures var f := FramerStep(counts);
            Legal(s, [f, f]) && After(s, [f, f]) == s.(pc := Flush)
  {
    hide Valid, Recv, Flushed;
    Steps2(s, FramerStep(counts), FramerStep(counts));
  }

  /** So does the socket's closing. */
  lemma LeavesAfterClose(s: Sys, counts: nat -> nat)
    requires s.pc == SawEmpty && s.ctl == Ctl(Running, false, false, false, Free) && s.framer.parked == []
    requires Valid(s.framer)
    ensures var f := FramerStep(counts);
            && Legal(s, [f, f, f, f, f])
            && After(s, [f, f, f, f, f]) == s.(pc := Off, ctl := s.ctl.(status := Idle))
  {
    var f := FramerStep(counts);
    LooksAtSocket(s, counts);
    hide Legal, After, Do, Enabled, Valid;
    FlushToIdle(s.(pc := Flush), counts);
    Chain(s, [f, f], [f, f, f]);
    assert [f, f] + [f, f, f] == [f, f, f, f, f];
  }

  /** Nobody stops the run; the device sends a chunk and closes the socket between the thread's look and its check. */
  lemma CloseLeavesChunk(counts: nat -> nat) returns (steps: seq<Step>)
    ensures Legal(INIT, steps) && NoResets(steps) && NoStops(steps)
    ensures var s := After(INIT, steps);
            && s.pc == Off && s.ctl == Ctl(Idle, false, false, false, Free)
            && s.inp.recvQ == [[7]] && s.out == Outflow([], [])
  {
    hide Legal, After, Do, Enabled, Configured, Valid, TwoByteFrames;
    var f := FramerStep(counts);
    var a := ChunkBehindLook(counts);
    LeavesAfterClose(After(INIT, a), counts);
    Chain(INIT, a, [f, f, f, f, f]);
    NoResetsJoin(a, [f, f, f, f, f]);
    steps := a + [f, f, f, f, f];
  }

  // ----- a queue error nobody notices

  lemma SecondChunkTrips(s: Sys)
    requires s.inp.sock.Up? && s.inp.recvQ == [] && s.inp.recvLimit == 1
    ensures var steps := [SockPut([7]), SockCount, SockPut([7]), SockCount, SockClose];
            && Legal(s, steps)
            && var s' := After(s, steps);
               && s'.inp.recvQ == [[7], [7]] && s'.inp.sock.Tripped? && s'.pc == s.pc && s'.framer == s.framer
               && s'.out == s.out && s'.ctl == s.ctl.(queueError := true, sockOpen := false)
  {
    Steps5(s, SockPut([7]), SockCount, SockPut([7]), SockCount, SockClose);
  }

  lemma TrippedUnseen(counts: nat -> nat) returns (steps: seq<Step>)
    ensures Legal(INIT, steps) && NoResets(steps)
    ensures var s := After(INIT, steps);
            && s.pc == SawEmpty && s.ctl == Ctl(Running, false, false, true, Free)
            && s.framer.parked == [] && Valid(s.framer)
  {
    var f := FramerStep(counts);
    var a, b := [RunOk(TwoByteFrames(1)), f, f], [SockPut([7]), SockCount, SockPut([7]), SockCount, SockClose];
    hide Legal, After, Do, Enabled, Configured, Valid, TwoByteFrames;
    LookedOnce(1, counts);
    TwoByteFramesValid(1);
    SecondChunkTrips(After(INIT, a));
    Chain(INIT, a, b);
    NoResetsJoin(a, b);
    steps := a + b;
  }

  /** A stop right after the receive limit has tripped behind the thread's last look: the run ends IDLE all the same. */
  lemma QueueErrorMissed(counts: nat -> nat) returns (steps: seq<Step>)
    ensures Legal(INIT, steps) && NoResets(steps)
    ensures var s := After(INIT, steps);
            s.pc == Off && s.ctl.queueError && !s.ctl.errorFlg && s.ctl.status == Idle
  {
    hide Legal, After, Do, Enabled, Configured, Valid, TwoByteFrames;
    var f := FramerStep(counts);
    var a := TrippedUnseen(counts);
    LeavesAfterStop(After(INIT, a), counts);
    Chain(INIT, a, [StopBegin, f, f, f, f]);
    NoResetsJoin(a, [StopBegin, f, f, f, f]);
    steps := a + [StopBegin, f, f, f, f];
  }
}
