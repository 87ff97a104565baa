/** What resets and leftover data put at risk, and exactly when: hidden errors and misaligned runs. */
module PipelineReset {
  import opened Bytes
  import opened FramerSpec
  import opened FramerCalls
  import opened Pipeline
  import opened PipelineSafety
  import opened PipelineStatus
  import opened PipelineFrames
  import opened PipelineDrain

  // ----- runs with one reset

  predicate NoResetBegins(steps: seq<Step>) {
    forall i :: 0 <= i < |steps| ==> !steps[i].ResetBegin?
  }

  lemma {:induction false} OneReset(policy: set<ResetAt>, s: Sys, a: seq<Step>, b: seq<Step>)
    requires Legal(s, a) && Legal(s, a + [ResetBegin] + b) && NoResetBegins(a) && NoResetBegins(b)
    requires Allows(policy, After(s, a), ResetBegin)
    ensures ResetsWithin(policy, s, a + [ResetBegin] + b)
    decreases |b|
  {
    hide Do, Enabled, Allows;
    var all := a + [ResetBegin] + b;
    if b == [] {
      assert all[..|all| - 1] == a;
      NoResetsWithin(policy, s, a);
    } else {
      var before := b[..|b| - 1];
      assert all[..|all| - 1] == a + [ResetBegin] + before;
      OneReset(policy, s, a, before);
      NotBeginning(policy, After(s, all[..|all| - 1]), b[|b| - 1]);
    }
  }

  lemma NotBeginning(policy: set<ResetAt>, s: Sys, step: Step)
    requires !step.ResetBegin?
    ensures Allows(policy, s, step)
  {
  }

  // ----- the first chunk of a first run

  /** A run begins, its first chunk is queued and the framer thread about to look at the queue. */
  ghost function ChunkIn(a: RunArgs, chunk: seq<Byte>, counts: nat -> nat): seq<Step> {
    [RunOk(a), SockPut(chunk), SockCount, FramerStep(counts)]
  }

  lemma ChunkArrives(a: RunArgs, chunk: seq<Byte>, counts: nat -> nat)
    requires Valid(Configured(INIT.framer, a)) && chunk != []
    ensures Legal(INIT, ChunkIn(a, chunk, counts))
    ensures After(INIT, ChunkIn(a, chunk, counts)) ==
            Sys(Ctl(Running, false, true, false, Free), Inflow(Up, a.recvLimit, [chunk], |chunk|, chunk),
                Outflow([], []), Configured(INIT.framer, a), Fetch, 0)
  {
    hide Valid;
    assert [] + [chunk] == [chunk] && [] + chunk == chunk;
    Steps4(INIT, RunOk(a), SockPut(chunk), SockCount, FramerStep(counts));
  }

  lemma StopFrom(s: Sys)
    requires s.ctl.status == Running && s.ctl.api.Free? && s.inp.sock.Up?
    ensures var steps := [StopBegin, StopClose, SockExit(true)];
            && Legal(s, steps)
            && After(s, steps) ==
               s.(ctl := s.ctl.(status := Stopping, sockOpen := false), inp := s.inp.(sock := Closed))
  {
    Steps3(s, StopBegin, StopClose, SockExit(true));
  }

  // ----- hidden errors

  /**
   When a reset begins in STOPPING between a bad chunk and the check for it, and the queues are empty,
   the error is raised and the status ends IDLE all the same.
   */
  lemma ResetInStoppingHidesError(s: Sys, counts: nat -> nat)
    requires s.pc == CheckError && !s.ctl.errorFlg && s.framer.error != NoError
    requires s.ctl.status == Stopping && s.ctl.api.Free? && s.inp.recvQ == [] && s.out.eventQ == []
    ensures var steps := [ResetBegin, FramerStep(counts), ResetPop, ResetPop];
            Legal(s, steps) && After(s, steps).ctl.errorFlg && After(s, steps).ctl.status == Idle
  {
    Steps4(s, ResetBegin, FramerStep(counts), ResetPop, ResetPop);
  }

  /** A fixed length beyond the range of an int reads as negative: the first chunk is a length error. */
  function BadLength(): RunArgs {
    RunArgs(Mode(None, 0, 0x8000_0000), 4, 0, 0)
  }

  lemma BadLengthValid()
    ensures Valid(Configured(INIT.framer, BadLength()))
  {
  }

  lemma BadChunkFramed(s: Sys, counts: nat -> nat)
    requires s.pc == Fetch && s.inp.recvQ == [[7]] && s.framer == Configured(INIT.framer, BadLength())
    requires s.out == Outflow([], []) && Valid(s.framer)
    ensures var f := FramerStep(counts);
            && Legal(s, [f, f, f, f])
            && var s' := After(s, [f, f, f, f]);
               && s'.pc == CheckError && s'.ctl == s.ctl && s'.framer.error != NoError
               && s'.inp.recvQ == [] && s'.out == Outflow([[7]], [])
  {
    var f := FramerStep(counts);
    var s2 := Do(Do(s, f), f);
    assert s2.framer.error != NoError && s2.pc == Putting([[7]]) by {
      assert [7][..1] == [7] && [7][1..] == [];
      assert Judge(s.framer, [7]) == Verdict(NULL_MODE, GetFrameLengthFailed, 1);
    }
    hide Valid, Recv;
    Steps4(s, f, f, f, f);
  }

  lemma StopAndTake(s: Sys)
    requires s.ctl.status == Running && s.ctl.api.Free? && |s.out.eventQ| == 1
    ensures var steps := [StopBegin, StopClose, AppGet];
            && Legal(s, steps)
            && var s' := After(s, steps);
               && s'.pc == s.pc && s'.framer == s.framer && s'.inp == s.inp && s'.out.eventQ == []
               && s'.ctl == s.ctl.(status := Stopping, sockOpen := false)
  {
    Steps3(s, StopBegin, StopClose, AppGet);
  }

  /** A run whose first chunk is bad. */
  lemma BadRun(counts: nat -> nat) returns (steps: seq<Step>)
    ensures Legal(INIT, steps) && NoResetBegins(steps)
    ensures var s := After(INIT, steps);
            && s.pc == CheckError && !s.ctl.errorFlg && s.framer.error != NoError
            && s.ctl.status == Running && s.ctl.api.Free? && s.inp.recvQ == [] && |s.out.eventQ| == 1
  {
    hide Do, Enabled, Legal, After, Configured, BadLength, Valid;
    var f := FramerStep(counts);
    var a, b := ChunkIn(BadLength(), [7], counts), [f, f, f, f];
    BadLengthValid();
    ChunkArrives(BadLength(), [7], counts);
    BadChunkFramed(After(INIT, a), counts);
    Chain(INIT, a, b);
    steps := a + b;
  }

  /** A run stopped between its bad first chunk and the check for it. */
  lemma BadRunStopped(counts: nat -> nat) returns (steps: seq<Step>)
    ensures Legal(INIT, steps) && NoResetBegins(steps)
    ensures var s := After(INIT, steps);
            && s.pc == CheckError && !s.ctl.errorFlg && s.framer.error != NoError
            && s.ctl.status == Stopping && s.ctl.api.Free? && s.inp.recvQ == [] && s.out.eventQ == []
  {
    hide Legal, After;
    var a := BadRun(counts);
    var b := [StopBegin, StopClose, AppGet];
    StopAndTake(After(INIT, a));
    Chain(INIT, a, b);
    steps := a + b;
  }

  /** Resets begun in STOPPING can hide an error, in a run of the whole system that ends IDLE with the flag up. */
  lemma ErrorCanEndIdle(policy: set<ResetAt>)
    requires ResetAt(Stopping, true) in policy
    ensures exists steps ::
              && Legal(INIT, steps) && ResetsWithin(policy, INIT, steps)
              && After(INIT, steps).ctl.errorFlg && After(INIT, steps).ctl.status == Idle
  {
    var counts := CountsFrom(0);
    var a := BadRunStopped(counts);
    var b := [FramerStep(counts), ResetPop, ResetPop];
    hide Legal, After, ResetsWithin, CountsFrom;
    ResetInStoppingHidesError(After(INIT, a), counts);
    assert [ResetBegin, FramerStep(counts), ResetPop, ResetPop] == [ResetBegin] + b;
    Chain(INIT, a, [ResetBegin] + b);
    assert a + ([ResetBegin] + b) == a + [ResetBegin] + b;
    OneReset(policy, INIT, a, b);
    assert Legal(INIT, a + [ResetBegin] + b);
  }

  /**
   Under a policy of resets every error raised shows, over every interleaving of any number of runs, if and
   only if the policy has no reset begin in STOPPING.
   */
  lemma LatchIff(policy: set<ResetAt>)
    ensures LatchHolds(policy) <==> ResetAt(Stopping, true) !in policy
  {
    hide Legal, After, ResetsWithin, NeverHidden;
    if ResetAt(Stopping, true) in policy {
      ErrorCanEndIdle(policy);
    } else {
      forall steps | Legal(INIT, steps) && ResetsWithin(policy, INIT, steps) && After(INIT, steps).ctl.errorFlg
        ensures Shown(After(INIT, steps).ctl)
      {
        NeverHiddenOverRuns(policy, steps);
        ShownUnlessHidden(After(INIT, steps));
      }
    }
  }

  lemma ShownUnlessHidden(s: Sys)
    requires NeverHidden(s) && s.ctl.errorFlg
    ensures Shown(s.ctl)
  {
  }

  // ----- misaligned runs

  /** Once the thread has left nobody touches the parked bytes, and the next run starts with them. */
  lemma {:induction false} ResetKeepsRemainder(s: Sys, steps: seq<Step>)
    requires Left(s) && Legal(s, steps) && forall i :: 0 <= i < |steps| ==> !steps[i].RunOk?
    ensures After(s, steps).framer == s.framer && Left(After(s, steps))
    ensures forall a :: Enabled(After(s, steps), RunOk(a)) ==>
              Do(After(s, steps), RunOk(a)).framer == Configured(s.framer, a)
  {
    if steps != [] {
      hide Do, Enabled;
      ResetKeepsRemainder(s, steps[..|steps| - 1]);
      LeftKeepsFramer(After(s, steps[..|steps| - 1]), steps[|steps| - 1]);
    }
    RunKeepsParked(After(s, steps));
  }

  /** The thread is about to find the status IDLE, after a reset, or has left. */
  predicate Dismissed(s: Sys) {
    Left(s) || (s.pc == LoopTest && s.ctl.status == Idle && !s.ctl.api.ResetRecv? && !s.ctl.api.ResetEvent?)
  }

  lemma DismissedStep(s: Sys, step: Step)
    requires Dismissed(s) && Enabled(s, step) && !step.RunOk?
    ensures Dismissed(Do(s, step)) && Do(s, step).framer == s.framer
  {
    hide Valid, Recv;
  }

  /** A thread that a finished reset has overtaken, in IDLE before its loop test, takes no chunk any more. */
  lemma {:induction false} IdleThreadTakesNothing(s: Sys, steps: seq<Step>)
    requires Dismissed(s) && Legal(s, steps) && forall i :: 0 <= i < |steps| ==> !steps[i].RunOk?
    ensures Dismissed(After(s, steps)) && After(s, steps).framer == s.framer
  {
    if steps != [] {
      hide Do, Enabled, Dismissed;
      IdleThreadTakesNothing(s, steps[..|steps| - 1]);
      DismissedStep(After(s, steps[..|steps| - 1]), steps[|steps| - 1]);
    }
  }

  lemma LeftKeepsFramer(s: Sys, step: Step)
    requires Left(s) && Enabled(s, step) && !step.RunOk?
    ensures Do(s, step).framer == s.framer && Left(Do(s, step))
  {
    hide Valid, Recv;
  }

  lemma RunKeepsParked(s: Sys)
    ensures forall a :: Enabled(s, RunOk(a)) ==> Do(s, RunOk(a)).framer == Configured(s.framer, a)
  {
    hide Valid;
  }

  lemma PopOnce(s: Sys)
    requires s.ctl.api.ResetRecv? || s.ctl.api.ResetEvent?
    ensures Legal(s, [ResetPop])
    ensures var s' := After(s, [ResetPop]);
            && s'.pc == s.pc && s'.framer == s.framer && s'.inp.sock == s.inp.sock
            && (s.inp.recvQ == [] || s.ctl.api.ResetRecv? ==> s'.inp.recvQ == [] || s'.ctl.api.ResetRecv?)
            && (s'.ctl.api.Free? || s'.ctl.api.ResetRecv? || s'.ctl.api.ResetEvent?)
            && (s'.ctl.api.Free? || PopsLeft(s') < PopsLeft(s))
  {
    NoSteps(s);
    assert Do(s, ResetPop) == Popped(s);
    hide Do, Enabled, Legal, After;
    Extend(s, [], ResetPop);
    assert [] + [ResetPop] == [ResetPop];
  }

  function PopsLeft(s: Sys): nat {
    |s.inp.recvQ| + |s.out.eventQ| + if s.ctl.api.ResetRecv? then 1 else 0
  }

  /** A reset in progress runs to its end, however much is queued. */
  lemma {:induction false} ResetRuns(s: Sys) returns (pops: seq<Step>)
    requires s.ctl.api.ResetRecv? || s.ctl.api.ResetEvent?
    requires s.inp.recvQ == [] || s.ctl.api.ResetRecv?
    ensures Legal(s, pops) && NoResetBegins(pops)
    ensures var s' := After(s, pops);
            && s'.ctl.api.Free? && s'.pc == s.pc && s'.framer == s.framer && s'.inp.sock == s.inp.sock
            && s'.inp.recvQ == []
    decreases PopsLeft(s)
  {
    hide Legal, After, PopsLeft;
    PopOnce(s);
    pops := [ResetPop];
    if !After(s, [ResetPop]).ctl.api.Free? {
      var more := ResetRuns(After(s, [ResetPop]));
      Chain(s, [ResetPop], more);
      pops := [ResetPop] + more;
    }
  }

  lemma ThreadSeesReset(s: Sys, counts: nat -> nat)
    requires s.pc == LoopTest && s.ctl.api.Free? && (s.ctl.status == Stopping || s.ctl.status == SysError)
    ensures var steps := [ResetBegin, FramerStep(counts), FramerStep(counts)];
            && Legal(s, steps)
            && var s' := After(s, steps);
               && s'.ctl.api.ResetRecv? && s'.pc == Off && s'.framer == s.framer && s'.inp.sock == s.inp.sock
  {
    hide Valid, Recv;
    Steps3(s, ResetBegin, FramerStep(counts), FramerStep(counts));
  }

  /** A reset sees the thread, at its loop test, off without a flush. */
  lemma LiveReset(s: Sys, counts: nat -> nat) returns (rest: seq<Step>)
    requires s.pc == LoopTest && s.ctl.api.Free? && (s.ctl.status == Stopping || s.ctl.status == SysError)
    ensures Legal(s, [ResetBegin] + rest) && NoResetBegins(rest)
    ensures var s' := After(s, [ResetBegin] + rest);
            && s'.ctl.api.Free? && s'.pc == Off && s'.framer == s.framer && s'.inp.sock == s.inp.sock
            && s'.inp.recvQ == []
  {
    hide Legal, After;
    var f := FramerStep(counts);
    var begun := [ResetBegin, f, f];
    ThreadSeesReset(s, counts);
    var pops := ResetRuns(After(s, begun));
    Chain(s, begun, pops);
    rest := [f, f] + pops;
    assert [ResetBegin] + rest == begun + pops;
  }

  // ----- a chunk parked when a reset comes

  /** Fixed frames longer than the chunk, which is therefore parked. */
  predicate Parks(f: State, chunk: seq<Byte>) {
    && f.parked == [] && f.mode.lengthFunc == None && f.mode.headerLen == 0 && f.error == NoError
    && 0 < |chunk| < f.mode.fixedLen <= f.maxFrameLen <= BUFF_SIZE && |f.stale| == BUFF_SIZE - 1
  }

  lemma ParksChunk(f: State, chunk: seq<Byte>, counts: nat -> nat)
    requires Parks(f, chunk)
    ensures Valid(f) && Valid(Park(f, chunk)) && Recv(f, chunk, counts) == Outcome(Park(f, chunk), [], 0)
  {
  }

  lemma ChunkParked(s: Sys, chunk: seq<Byte>, counts: nat -> nat)
    requires s.pc == Fetch && s.inp.recvQ != [] && s.inp.recvQ[0] == chunk && Parks(s.framer, chunk)
    requires !s.ctl.errorFlg
    ensures var f := FramerStep(counts);
            && Legal(s, [f, f, f, f])
            && After(s, [f, f, f, f]) ==
               s.(pc := LoopTest, inp := s.inp.(recvQ := s.inp.recvQ[1..]), framer := Park(s.framer, chunk),
                  ctl := if s.ctl.queueError then Raised(s.ctl) else s.ctl)
  {
    ParksChunk(s.framer, chunk, counts);
    hide Recv, Valid, Park;
    Steps4(s, FramerStep(counts), FramerStep(counts), FramerStep(counts), FramerStep(counts));
  }

  /** A live thread at its loop test with framer `f`, and a caller that may reset. */
  ghost predicate Resettable(s: Sys, status: Status, f: State) {
    && s.pc == LoopTest && s.ctl.api.Free? && s.ctl.status == status && s.framer == f
    && (s.inp.sock.Closed? || s.inp.sock.Tripped?)
  }

  /** A run that is stopped when its first chunk is parked. */
  lemma StoppedHalfway(a: RunArgs, chunk: seq<Byte>, counts: nat -> nat) returns (steps: seq<Step>)
    requires Parks(Configured(INIT.framer, a), chunk)
    ensures Legal(INIT, steps) && NoResetBegins(steps)
    ensures Resettable(After(INIT, steps), Stopping, Park(Configured(INIT.framer, a), chunk))
  {
    var f := FramerStep(counts);
    var b, c, d := ChunkIn(a, chunk, counts), [f, f, f, f], [StopBegin, StopClose, SockExit(true)];
    ParksChunk(Configured(INIT.framer, a), chunk, counts);
    ChunkArrives(a, chunk, counts);
    ChunkParked(After(INIT, b), chunk, counts);
    hide Do, Enabled, Legal, After, Valid, Park, Configured, Parks, Recv;
    Chain(INIT, b, c);
    StopFrom(After(INIT, b + c));
    Chain(INIT, b + c, d);
    steps := b + c + d;
  }

  lemma NextChunkTrips(s: Sys)
    requires s.inp.sock.Up? && s.inp.recvLimit == 1 && |s.inp.recvQ| == 1
    ensures var steps := [SockPut([7]), SockCount, SockClose];
            && Legal(s, steps)
            && var s' := After(s, steps);
               && s'.pc == s.pc && s'.framer == s.framer && s'.inp.recvQ == s.inp.recvQ + [[7]]
               && s'.inp.sock.Tripped? && s'.ctl == s.ctl.(queueError := true, sockOpen := false)
  {
    Steps3(s, SockPut([7]), SockCount, SockClose);
  }

  /** The framer with the byte 7 parked, waiting for the second byte of a frame. */
  function Halfway(): State {
    Park(Configured(INIT.framer, TwoByteFrames(0)), [7])
  }

  lemma HalfwayParks()
    ensures Parks(Configured(INIT.framer, TwoByteFrames(0)), [7])
    ensures Halfway().parked == [7] && Valid(Halfway()) && Configured(Halfway(), TwoByteFrames(0)) == Halfway()
    ensures Configured(INIT.framer, TwoByteFrames(1)) == Configured(INIT.framer, TwoByteFrames(0))
  {
  }

  /** A run with two-byte frames whose second chunk trips the receive limit before the first is looked at. */
  lemma Tripped(counts: nat -> nat) returns (steps: seq<Step>)
    ensures Legal(INIT, steps) && NoResetBegins(steps)
    ensures var s := After(INIT, steps);
            && s.pc == Fetch && s.inp.recvQ == [[7], [7]] && s.framer == Configured(INIT.framer, TwoByteFrames(0))
            && s.ctl.queueError && !s.ctl.errorFlg && s.ctl.api.Free? && s.inp.sock.Tripped?
  {
    var a, b := ChunkIn(TwoByteFrames(1), [7], counts), [SockPut([7]), SockCount, SockClose];
    TwoByteFramesValid(1);
    HalfwayParks();
    ChunkArrives(TwoByteFrames(1), [7], counts);
    NextChunkTrips(After(INIT, a));
    hide Do, Enabled, Legal, After, Valid, Configured;
    Chain(INIT, a, b);
    steps := a + b;
  }

  /** And the first byte is parked before the error is noticed. */
  lemma TrippedHalfway(counts: nat -> nat) returns (steps: seq<Step>)
    ensures Legal(INIT, steps) && NoResetBegins(steps) && Resettable(After(INIT, steps), SysError, Halfway())
  {
    HalfwayParks();
    hide Do, Enabled, Legal, After, Valid, Configured, Park, Parks;
    var a := Tripped(counts);
    var b := [FramerStep(counts), FramerStep(counts), FramerStep(counts), FramerStep(counts)];
    ChunkParked(After(INIT, a), [7], counts);
    Chain(INIT, a, b);
    steps := a + b;
  }

  /** One reset while the thread lives leaves what is parked, and the next run can begin. */
  lemma ParkedAfterReset(policy: set<ResetAt>, status: Status, f: State, a: seq<Step>) returns (steps: seq<Step>)
    requires Legal(INIT, a) && NoResetBegins(a) && Resettable(After(INIT, a), status, f)
    requires status == Stopping || status == SysError
    requires ResetAt(status, true) in policy
    ensures Legal(INIT, steps) && ResetsWithin(policy, INIT, steps)
    ensures var s := After(INIT, steps);
            && s.framer == f && s.inp.recvQ == [] && s.pc == Off && s.ctl.api.Free?
            && (s.inp.sock.Closed? || s.inp.sock.Tripped?)
  {
    hide Legal, After, ResetsWithin, CountsFrom;
    var rest := LiveReset(After(INIT, a), CountsFrom(0));
    Chain(INIT, a, [ResetBegin] + rest);
    steps := a + [ResetBegin] + rest;
    assert a + ([ResetBegin] + rest) == steps;
    OneReset(policy, INIT, a, rest);
  }

  /** Under a policy that has a reset begin while the thread lives: a run about to begin with a byte of the last one. */
  lemma Misaligned(policy: set<ResetAt>) returns (steps: seq<Step>)
    requires !NoLiveResets(policy)
    ensures Legal(INIT, steps) && ResetsWithin(policy, INIT, steps)
    ensures var s := After(INIT, steps);
            s.framer == Halfway() && s.inp.recvQ == [] && Enabled(s, RunOk(TwoByteFrames(0)))
  {
    HalfwayParks();
    hide Legal, After, ResetsWithin, CountsFrom, Halfway, Parks, Valid;
    var a: seq<Step>;
    var status := if ResetAt(Stopping, true) in policy then Stopping else SysError;
    if status == Stopping {
      assert Park(Configured(INIT.framer, TwoByteFrames(0)), [7]) == Halfway() by { HalfwayIs(); }
      a := StoppedHalfway(TwoByteFrames(0), [7], CountsFrom(0));
    } else {
      a := TrippedHalfway(CountsFrom(0));
    }
    steps := ParkedAfterReset(policy, status, Halfway(), a);
  }

  lemma HalfwayIs()
    ensures Park(Configured(INIT.framer, TwoByteFrames(0)), [7]) == Halfway()
  {
  }

  // ----- which resets leave bytes parked

  /** Every run begins with nothing parked. */
  ghost predicate NeverParked(policy: set<ResetAt>) {
    forall steps, a |
      Legal(INIT, steps) && ResetsWithin(policy, INIT, steps) && Enabled(After(INIT, steps), RunOk(a)) ::
      Do(After(INIT, steps), RunOk(a)).framer.parked == []
  }

  /**
   Under a policy of resets every run begins with nothing parked, over every interleaving of any number of runs with
   any framing and any limits, if and only if no reset begins while a framer thread lives.
   */
  lemma NeverParkedIff(policy: set<ResetAt>)
    ensures NeverParked(policy) <==> NoLiveResets(policy)
  {
    hide Legal, After, ResetsWithin, Tidy;
    if NoLiveResets(policy) {
      forall steps, a |
        Legal(INIT, steps) && ResetsWithin(policy, INIT, steps) && Enabled(After(INIT, steps), RunOk(a))
        ensures Do(After(INIT, steps), RunOk(a)).framer.parked == []
      {
        InitTidy();
        TidyOverRuns(policy, INIT, steps);
        TidyRunBegins(After(INIT, steps), a);
      }
    } else {
      var steps := Misaligned(policy);
      HalfwayParks();
      assert Do(After(INIT, steps), RunOk(TwoByteFrames(0))).framer.parked == [7];
    }
  }

  lemma TidyRunBegins(s: Sys, a: RunArgs)
    requires Tidy(s) && Enabled(s, RunOk(a))
    ensures Do(s, RunOk(a)).framer.parked == []
  {
    hide Valid;
  }

  // ----- aligned runs

  /** The run begun here with arguments `a` frames its own bytes, for every device stream. */
  ghost predicate RunsOwn(s: Sys, a: RunArgs)
    requires Enabled(s, RunOk(a))
  {
    OwnFrames(Do(s, RunOk(a)), RunOf(a.mode, a.maxFrameLen, Emitted(s)))
  }

  /**
   A run frames the bytes the device sends in it and no others, for every stream and every interleaving, if and only
   if nothing is parked and the receive queue is empty when SiDaqRun is called; after any history whatever.
   */
  lemma {:induction false} RunsOwnIffClean(steps: seq<Step>, a: RunArgs)
    requires Legal(INIT, steps) && Enabled(After(INIT, steps), RunOk(a)) && ExactArgs(a)
    ensures RunsOwn(After(INIT, steps), a) <==> Clean(After(INIT, steps))
  {
    var s := After(INIT, steps);
    RunBegins(steps, a);
    assert Do(s, RunOk(a)).framer.parked == s.framer.parked && Do(s, RunOk(a)).inp.recvQ == s.inp.recvQ;
    hide Legal, After, Begun, OwnFrames, Enabled, Do;
    OwnFramesIffClean(Do(s, RunOk(a)), RunOf(a.mode, a.maxFrameLen, Emitted(s)));
  }

  /** A caller may begin a run: its resets keep to the policy, and if it is careful the receive queue is empty. */
  ghost predicate MayRun(policy: set<ResetAt>, careful: bool, steps: seq<Step>, a: RunArgs) {
    && Legal(INIT, steps) && ResetsWithin(policy, INIT, steps)
    && Enabled(After(INIT, steps), RunOk(a)) && ExactArgs(a)
    && (careful ==> After(INIT, steps).inp.recvQ == [])
  }

  /** Every run frames its own bytes. */
  ghost predicate AlwaysAligned(policy: set<ResetAt>, careful: bool) {
    forall steps, a | MayRun(policy, careful, steps, a) :: RunsOwn(After(INIT, steps), a)
  }

  /**
   A caller's runs all frame their own bytes, over every interleaving and for every device stream, if and only if it
   begins no reset while a framer thread lives and calls SiDaqRun only when SiDaqGetDataCount is 0.
   */
  lemma AlignedIff(policy: set<ResetAt>, careful: bool)
    ensures AlwaysAligned(policy, careful) <==> NoLiveResets(policy) && careful
  {
    hide Legal, After, ResetsWithin, Tidy, RunsOwn, Enabled, Do, ExactArgs;
    if NoLiveResets(policy) && careful {
      forall steps, a | MayRun(policy, careful, steps, a)
        ensures RunsOwn(After(INIT, steps), a)
      {
        RunsOwnIffClean(steps, a);
        InitTidy();
        TidyOverRuns(policy, INIT, steps);
        TidyParked(After(INIT, steps), a);
      }
    } else {
      var steps: seq<Step>;
      if careful {
        steps := Misaligned(policy);
        HalfwayParks();
      } else {
        steps := StopLeavesChunk(CountsFrom(0));
        StrandedMayRun(policy, steps);
      }
      TwoByteExact();
      assert MayRun(policy, careful, steps, TwoByteFrames(0));
      RunsOwnIffClean(steps, TwoByteFrames(0));
    }
  }

  lemma TidyParked(s: Sys, a: RunArgs)
    requires Tidy(s) && Enabled(s, RunOk(a))
    ensures s.framer.parked == []
  {
    hide Valid;
  }

  lemma TwoByteExact()
    ensures ExactArgs(TwoByteFrames(0))
  {
  }

  lemma StrandedMayRun(policy: set<ResetAt>, steps: seq<Step>)
    requires Legal(INIT, steps) && NoResets(steps)
    requires var s := After(INIT, steps);
             && s.pc == Off && s.ctl.api.Free? && s.inp.sock.Closed?
             && s.framer == Configured(INIT.framer, TwoByteFrames(0))
    ensures ResetsWithin(policy, INIT, steps) && Enabled(After(INIT, steps), RunOk(TwoByteFrames(0)))
  {
    NoResetsWithin(policy, INIT, steps);
    TwoByteFramesValid(0);
    hide Legal, After, ResetsWithin, Valid;
  }

  // ----- what goes wrong otherwise

  lemma NextRun(s: Sys)
    requires Enabled(s, RunOk(TwoByteFrames(0)))
    ensures var steps := [RunOk(TwoByteFrames(0)), SockPut([1, 2]), SockCount];
            && Legal(s, steps)
            && var s' := After(s, steps);
               && s'.pc == LoopTest && s'.ctl.status == Running && s'.inp.recvQ == s.inp.recvQ + [[1, 2]]
               && s'.framer == Configured(s.framer, TwoByteFrames(0)) && s'.inp.received == s.inp.received + [1, 2]
  {
    hide Valid;
    Steps3(s, RunOk(TwoByteFrames(0)), SockPut([1, 2]), SockCount);
  }

  /**
   Without any reset: a chunk that came in behind the last look of a stopped run is framed with the bytes of the
   next. The device has sent 7 in the first run and 1, 2 in the second, whose first frame is 7, 1.
   */
  lemma StrandedChunkMisframes() returns (before: seq<Step>, run: seq<Step>)
    ensures Legal(INIT, before + run) && NoResets(before + run) && Legal(INIT, before)
    ensures run == [RunOk(TwoByteFrames(0)), SockPut([1, 2]), SockCount]
    ensures var s := After(INIT, before + run);
            && s.pc == LoopTest && s.ctl.status == Running && s.framer.parked == [] && s.inp.recvQ == [[7], [1, 2]]
            && Since(After(INIT, before), s) == [1, 2]
            && Valid(s.framer) && RecvAll(s.framer, s.inp.recvQ, 0).frames == [[7, 1]]
  {
    hide Legal, After, Do, Enabled, Configured, RecvAll, Valid;
    before := StopLeavesChunk(CountsFrom(0));
    run := [RunOk(TwoByteFrames(0)), SockPut([1, 2]), SockCount];
    StrandedMayRun({}, before);
    NextRun(After(INIT, before));
    Chain(INIT, before, run);
    var s := After(INIT, before + run);
    assert s.inp.recvQ == [[7], [1, 2]];
    SevenThenOneTwo(s.framer);
  }

  lemma SevenThenOneTwo(s: State)
    requires s == Configured(Configured(INIT.framer, TwoByteFrames(0)), TwoByteFrames(0))
    ensures Valid(s) && s.parked == [] && RecvAll(s, [[7], [1, 2]], 0).frames == [[7, 1]]
  {
    HalfwayParks();
    HalfwayIs();
    ParksChunk(s, [7], CountsFrom(0));
    assert s.parked == [] && Park(s, [7]) == Halfway();
    hide Recv, RecvAll, Valid, CountsFrom, Park, Parks, Configured, Halfway;
    TwoChunks(s, Halfway(), [7], [1, 2]);
    SevenOneHalfway(CountsFrom(0));
  }

  lemma SevenOneHalfway(counts: nat -> nat)
    ensures Valid(Halfway()) && Recv(Halfway(), [1, 2], counts).frames == [[7, 1]]
  {
    HalfwayParks();
    hide Recv, Valid;
    SevenOne(Halfway(), counts);
  }

  lemma TwoChunks(s: State, t: State, a: seq<Byte>, b: seq<Byte>)
    requires Valid(s) && Valid(t) && a != [] && b != [] && Recv(s, a, CountsFrom(0)) == Outcome(t, [], 0)
    ensures RecvAll(s, [a, b], 0).frames == Recv(t, b, CountsFrom(0)).frames
  {
    hide Recv, RecvAll, Valid, CountsFrom;
    OneChunkFed(s, t, a);
    RecvAllSnoc(s, [a], b, 0);
    assert [a] + [b] == [a, b];
  }

  lemma OneChunkFed(s: State, t: State, a: seq<Byte>)
    requires Valid(s) && Valid(t) && a != [] && Recv(s, a, CountsFrom(0)) == Outcome(t, [], 0)
    ensures RecvAll(s, [a], 0) == Run(t, [])
  {
    hide Recv, RecvAll, Valid, CountsFrom;
    NothingFed(s, 0);
    RecvAllSnoc(s, [], a, 0);
    assert [] + [a] == [a];
  }

  /**
   And with a reset: there is a run, stopped and reset with a byte parked, after which the next run frames the bytes
   1, 2 as 7, 1.
   */
  lemma ResetMisalignsNextRun(counts: nat -> nat)
    ensures exists steps ::
              && Legal(INIT, steps)
              && var s := After(INIT, steps);
                 && s.pc == LoopTest && s.ctl.status == Running && Valid(s.framer) && s.inp.recvQ == [[1, 2]]
                 && Recv(s.framer, [1, 2], counts).frames == [[7, 1]]
  {
    hide Legal, After, Recv, ResetsWithin;
    var before := Misaligned({ResetAt(Stopping, true)});
    var run := [RunOk(TwoByteFrames(0)), SockPut([1, 2]), SockCount];
    NextRun(After(INIT, before));
    Chain(INIT, before, run);
    HalfwayParks();
    SevenOne(After(INIT, before + run).framer, counts);
  }

  lemma SevenOne(s: State, counts: nat -> nat)
    requires Valid(s) && s.parked == [7] && s.mode == TwoByteFrames(0).mode && s.maxFrameLen == 4
    ensures Recv(s, [1, 2], counts).frames == [[7, 1]]
  {
    assert Merged(s, [1, 2]) == [7, 1, 2];
    assert [7, 1, 2][..2] == [7, 1];
    assert [1, 2][1..] == [2];
  }

  function FixedLength(n: Uint32): RunArgs {
    RunArgs(Mode(None, 0, n), 16, 0, 0)
  }

  /**
   A live reset can leave ten bytes of a sixteen-byte frame to a run with frames of four bytes. SiDaqRun begins that
   run as well, though the framer is not valid in it: the code goes on six bytes in front of its first chunk.
   */
  lemma TenBytesLeft() returns (steps: seq<Step>)
    ensures Legal(INIT, steps)
    ensures var s, a := After(INIT, steps), FixedLength(4);
            var f := Configured(s.framer, a);
            && s.ctl.api.Free? && s.pc == Off && (s.inp.sock.Closed? || s.inp.sock.Tripped?)
            && |s.framer.parked| == 10 && a.mode.headerLen < a.maxFrameLen && !Valid(f) && !FitsMode(f)
            && forall data :: ChunkOffset(f, data) == -6
  {
    var chunk := Zeros(10);
    var parked := Park(Configured(INIT.framer, FixedLength(16)), chunk);
    TenBytesPark();
    hide Legal, After, CountsFrom, Parks, Zeros;
    var a := StoppedHalfway(FixedLength(16), chunk, CountsFrom(0));
    steps := ParkedAfterReset({ResetAt(Stopping, true)}, Stopping, parked, a);
    var f := Configured(parked, FixedLength(4));
    forall data
      ensures ChunkOffset(f, data) == -6
    {
      TenBytesInFourByteMode(f, data);
    }
    TenDoNotFit(f);
  }

  lemma TenBytesPark()
    ensures |Zeros(10)| == 10 && Parks(Configured(INIT.framer, FixedLength(16)), Zeros(10))
    ensures Park(Configured(INIT.framer, FixedLength(16)), Zeros(10)).parked == Zeros(10)
  {
  }

  lemma TenDoNotFit(f: State)
    requires |f.parked| == 10 && f.mode == Mode(None, 0, 4) && f.maxFrameLen == 16
    ensures !Valid(f) && !FitsMode(f)
  {
  }
}
