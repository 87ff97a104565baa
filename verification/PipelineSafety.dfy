/** Alignment, conservation of bytes and the drain at the end of a run, over every interleaving. */
module PipelineSafety {
  import opened Bytes
  import opened FramerSpec
  import opened FramerCalls
  import opened Pipeline

  /** After the framer thread's last look at the receive queue. */
  predicate Leaving(s: Sys) {
    s.pc.SawEmpty? || s.pc.CheckSocket? || s.pc.Flush? || s.pc.Exit? || s.pc.ExitIdle? || s.pc.Off?
  }

  predicate Left(s: Sys) {
    s.pc.Exit? || s.pc.ExitIdle? || s.pc.Off?
  }

  // ----- the framer stays valid, whatever happens

  lemma ValidKept(s: Sys, step: Step)
    requires Valid(s.framer) && Enabled(s, step)
    ensures Valid(Do(s, step).framer)
  {
    hide Recv, Valid, Flushed;
  }

  lemma {:induction false} ValidOverRuns(s: Sys, steps: seq<Step>)
    requires Valid(s.framer) && Legal(s, steps)
    ensures Valid(After(s, steps).framer)
  {
    hide Valid, Do, Enabled;
    if steps != [] {
      ValidOverRuns(s, steps[..|steps| - 1]);
      ValidKept(After(s, steps[..|steps| - 1]), steps[|steps| - 1]);
    }
  }

  // ----- alignment: what holds as long as no reset begins while the framer thread lives

  /**
   While the framer thread lives, no reset is at work and the status is one it keeps going for; in STOPPING
   the socket is closed or about to be.
   */
  predicate KeepsGoing(s: Sys) {
    s.pc != Off ==>
      && !s.ctl.api.ResetRecv? && !s.ctl.api.ResetEvent?
      && s.ctl.status != Idle && s.ctl.status != Resetting
      && (s.ctl.status == Stopping ==> s.ctl.api.ClosingSocket? || !s.ctl.sockOpen)
  }

  predicate QueueSound(s: Sys) {
    && AllNonEmpty(s.inp.recvQ) && (s.pc.Hand? ==> s.pc.chunk != [])
    && s.seenEmpty <= |s.inp.received|
  }

  /** When the thread has left nothing is parked. */
  ghost predicate Aligned(s: Sys) {
    Valid(s.framer) && (Left(s) ==> s.framer.parked == [])
  }

  ghost predicate Tidy(s: Sys) {
    KeepsGoing(s) && QueueSound(s) && Aligned(s)
  }

  lemma KeepsGoingKept(s: Sys, step: Step)
    requires KeepsGoing(s) && Enabled(s, step) && (step.ResetBegin? ==> s.pc == Off)
    ensures KeepsGoing(Do(s, step))
  {
    hide Recv, Valid, Flushed;
  }

  lemma QueueSoundKept(s: Sys, step: Step)
    requires QueueSound(s) && Enabled(s, step)
    ensures QueueSound(Do(s, step))
  {
    hide Recv, Valid, Flushed;
  }

  lemma {:induction false} QueueSoundOverRuns(s: Sys, steps: seq<Step>)
    requires QueueSound(s) && Legal(s, steps)
    ensures QueueSound(After(s, steps))
  {
    hide Do, Enabled, QueueSound;
    if steps != [] {
      QueueSoundOverRuns(s, steps[..|steps| - 1]);
      QueueSoundKept(After(s, steps[..|steps| - 1]), steps[|steps| - 1]);
    }
  }

  lemma FramerAligned(s: Sys, counts: nat -> nat)
    requires KeepsGoing(s) && Aligned(s) && Enabled(s, FramerStep(counts))
    ensures Aligned(FramerDo(s, counts))
  {
    hide Recv, Valid, Flushed;
  }

  lemma AlignedKept(s: Sys, step: Step)
    requires KeepsGoing(s) && Aligned(s) && Enabled(s, step)
    ensures Aligned(Do(s, step))
  {
    hide Valid, FramerDo;
    if step.FramerStep? { FramerAligned(s, step.counts); }
  }

  lemma TidyKept(s: Sys, step: Step)
    requires Tidy(s) && Enabled(s, step) && (step.ResetBegin? ==> s.pc == Off)
    ensures Tidy(Do(s, step))
  {
    hide Do, Enabled, KeepsGoing, QueueSound, Aligned;
    KeepsGoingKept(s, step);
    QueueSoundKept(s, step);
    AlignedKept(s, step);
  }

  /** No reset while the framer thread lives; in other statuses than these a reset does nothing. */
  predicate NoLiveResets(policy: set<ResetAt>) {
    ResetAt(Stopping, true) !in policy && ResetAt(SysError, true) !in policy
  }

  lemma {:induction false} TidyOverRuns(policy: set<ResetAt>, s: Sys, steps: seq<Step>)
    requires Tidy(s) && Legal(s, steps) && ResetsWithin(policy, s, steps) && NoLiveResets(policy)
    ensures Tidy(After(s, steps))
  {
    if steps != [] {
      var before, last := steps[..|steps| - 1], steps[|steps| - 1];
      TidyOverRuns(policy, s, before);
      BegunResets(After(s, before), last);
      hide Do, Enabled, Tidy;
      TidyKept(After(s, before), last);
    }
  }

  lemma BegunResets(s: Sys, step: Step)
    requires Enabled(s, step)
    ensures step.ResetBegin? ==> s.ctl.status == Stopping || s.ctl.status == SysError
  {
  }

  /** A run begins tidy after any history, resets of a live thread included. */
  lemma RunBeginsTidy(steps: seq<Step>, a: RunArgs)
    requires Legal(INIT, steps) && Enabled(After(INIT, steps), RunOk(a))
    ensures Tidy(Do(After(INIT, steps), RunOk(a)))
  {
    InitTidy();
    QueueSoundOverRuns(INIT, steps);
    hide After, Legal;
    QueueSoundKept(After(INIT, steps), RunOk(a));
  }

  lemma InitTidy()
    ensures Tidy(INIT)
  {
  }

  lemma {:induction false} NoResetsWithin(policy: set<ResetAt>, s: Sys, steps: seq<Step>)
    requires Legal(s, steps) && forall i :: 0 <= i < |steps| ==> !steps[i].ResetBegin?
    ensures ResetsWithin(policy, s, steps)
  {
    hide Do, Enabled;
    if steps != [] { NoResetsWithin(policy, s, steps[..|steps| - 1]); }
  }

  /** A stretch without resets keeps a tidy state tidy. */
  lemma TidyWithoutResets(s: Sys, steps: seq<Step>)
    requires Tidy(s) && Legal(s, steps) && NoResets(steps)
    ensures Tidy(After(s, steps))
  {
    hide Tidy, Legal, After;
    NoResetsWithin({}, s, steps);
    TidyOverRuns({}, s, steps);
  }

  // ----- bytes move, none changes

  /** Every byte inside or handed out, in the order of the stream. */
  function Line(s: Sys): seq<Byte> {
    Concat(Emitted(s)) + s.framer.parked + InHand(s) + Concat(s.inp.recvQ)
  }

  /** Headers of at most two bytes and no limit on the frame queue: the framer copies every byte. */
  predicate Exact(f: State) {
    f.mode.headerLen <= 2 && f.queueLimit == 0
  }

  predicate ExactRuns(steps: seq<Step>) {
    forall i :: 0 <= i < |steps| && steps[i].RunOk? ==>
      steps[i].args.mode.headerLen <= 2 && steps[i].args.frameLimit == 0
  }

  predicate UnlimitedRuns(steps: seq<Step>) {
    forall i :: 0 <= i < |steps| && steps[i].RunOk? ==> steps[i].args.frameLimit == 0
  }

  /** How one step of the framer thread changes the line: not at all unless the framer corrupts or drops bytes. */
  predicate LineKept(s: Sys, s': Sys) {
    && (Exact(s.framer) ==> Line(s') == Line(s))
    && (s.framer.queueLimit == 0 ==> |Line(s')| == |Line(s)|)
    && |Line(s')| <= |Line(s)|
  }

  lemma Regroup(out: seq<Byte>, frames: seq<Byte>, parked': seq<Byte>, parked: seq<Byte>, chunk: seq<Byte>)
    requires frames + parked' == parked + chunk
    ensures out + frames + parked' == out + parked + chunk
  {
    assert out + frames + parked' == out + (frames + parked');
    assert out + parked + chunk == out + (parked + chunk);
  }

  lemma Assoc(a: seq<Byte>, b: seq<Byte>, c: seq<Byte>)
    ensures a + (b + c) == (a + b) + c
  {
  }

  lemma FetchLine(s: Sys, s': Sys)
    requires s.pc.Fetch? && s.inp.recvQ != [] && s' == Fetched(s)
    ensures Line(s') == Line(s)
  {
    var front := Concat(Emitted(s)) + s.framer.parked;
    assert Emitted(s') == Emitted(s) && front + [] == front;
    Regroup(front, s.inp.recvQ[0], Concat(s.inp.recvQ[1..]), s.inp.recvQ[0], Concat(s.inp.recvQ[1..]));
  }

  lemma CallLine(s: Sys, s': Sys, o: Outcome)
    requires s.pc.Hand? && Accounts(s.framer.parked + s.pc.chunk, o)
    requires SameSetup(s.framer, o.state) && Valid(o.state) && (s.framer.queueLimit == 0 ==> 0 <= o.ret)
    requires s' == s.(framer := o.state, pc := Putting(o.frames))
    ensures LineKept(s, s')
  {
    assert Emitted(s') == Emitted(s) + o.frames && InHand(s') == [];
    ConcatAppend(Emitted(s), o.frames);
    assert Exact(s.framer) ==> Concat(o.frames) + o.state.parked == s.framer.parked + s.pc.chunk by {
      hide Concat;
    }
    hide Concat, Emitted, Accounts, Valid;
    if Exact(s.framer) {
      Regroup(Concat(Emitted(s)), Concat(o.frames), o.state.parked, s.framer.parked, s.pc.chunk);
    }
    var all := Concat(Emitted(s)) + Concat(o.frames) + o.state.parked;
    assert all + [] == all;
    AccountsSize(s.framer.parked, s.pc.chunk, o);
  }

  lemma AccountsSize(parked: seq<Byte>, chunk: seq<Byte>, o: Outcome)
    requires Accounts(parked + chunk, o)
    ensures |Concat(o.frames)| + |o.state.parked| <= |parked| + |chunk|
    ensures 0 <= o.ret ==> |Concat(o.frames)| + |o.state.parked| == |parked| + |chunk|
  {
    hide Concat;
  }

  lemma FlushLine(s: Sys, s': Sys)
    requires s.pc.Flush? && s'.inp == s.inp && s'.pc == Exit && s'.framer.parked == []
    requires s'.out == s.out.(eventQ := s.out.eventQ + LastFrame(s.framer))
    ensures Line(s') == Line(s)
  {
    assert Emitted(s') == Emitted(s) + LastFrame(s.framer);
    ConcatAppend(Emitted(s), LastFrame(s.framer));
    ConcatOne(s.framer.parked);
    assert Concat(LastFrame(s.framer)) == s.framer.parked;
    var all := Concat(Emitted(s)) + s.framer.parked;
    assert all + [] == all;
  }

  /** All other steps of the framer thread leave every byte where it is, or move it along the way out. */
  lemma FramerEmittedSame(s: Sys, counts: nat -> nat)
    requires Enabled(s, FramerStep(counts))
    requires !(s.pc.Hand? && s.pc.chunk != []) && !s.pc.Flush? && !(s.pc.Fetch? && s.inp.recvQ != [])
    ensures var s' := FramerDo(s, counts);
            && Emitted(s') == Emitted(s) && s'.framer == s.framer && InHand(s') == InHand(s) && s'.inp == s.inp
  {
    hide Valid, Recv;
  }

  lemma OthersLine(s: Sys, step: Step)
    requires Enabled(s, step) && !step.ResetPop? && !step.SockPut? && !step.FramerStep?
    ensures var s' := Do(s, step);
            && Emitted(s') == Emitted(s) && s'.framer.parked == s.framer.parked && InHand(s') == InHand(s)
            && s'.inp.recvQ == s.inp.recvQ && s'.inp.received == s.inp.received
  {
    hide Valid, FramerDo;
  }

  lemma FramerLine(s: Sys, counts: nat -> nat)
    requires Enabled(s, FramerStep(counts))
    ensures var s' := FramerDo(s, counts);
            && LineKept(s, s') && s'.inp.received == s.inp.received
            && s'.framer.queueLimit == s.framer.queueLimit && (Exact(s.framer) ==> Exact(s'.framer))
  {
    var s' := FramerDo(s, counts);
    hide Recv, Valid;
    if s.pc.Fetch? && s.inp.recvQ != [] {
      FetchLine(s, s');
    } else if s.pc.Hand? && s.pc.chunk != [] {
      var o := Recv(s.framer, s.pc.chunk, counts);
      RecvAccounts(s.framer, s.pc.chunk, counts);
      assert SameSetup(s.framer, o.state);
      CallLine(s, s', o);
    } else if s.pc.Flush? {
      FlushLine(s, s');
    } else {
      FramerEmittedSame(s, counts);
    }
  }

  lemma PutLine(s: Sys, chunk: seq<Byte>)
    requires Enabled(s, SockPut(chunk))
    ensures Line(Do(s, SockPut(chunk))) == Line(s) + chunk
  {
    ConcatSnoc(s.inp.recvQ, chunk);
    var s' := Do(s, SockPut(chunk));
    assert Emitted(s') == Emitted(s);
    var front := Concat(Emitted(s)) + s.framer.parked + InHand(s);
    hide Concat, Emitted;
    Assoc(front, Concat(s.inp.recvQ), chunk);
  }

  /** Bytes the step puts on the receive queue. */
  function Put(step: Step): seq<Byte> {
    if step.SockPut? then step.chunk else []
  }

  lemma StepLine(s: Sys, step: Step)
    requires Enabled(s, step) && !step.ResetPop? && Exact(s.framer) && ExactRuns([step])
    ensures var s' := Do(s, step);
            && Line(s') == Line(s) + Put(step) && s'.inp.received == s.inp.received + Put(step) && Exact(s'.framer)
  {
    assert [step][0] == step;
    hide FramerDo, Valid, Line, Concat, Emitted;
    var s' := Do(s, step);
    assert Line(s) + [] == Line(s) && s.inp.received + [] == s.inp.received;
    match step {
      case FramerStep(counts) => FramerLine(s, counts);
      case SockPut(chunk) => PutLine(s, chunk);
      case _ => OthersLine(s, step); SameLine(s, s');
    }
  }

  lemma SameLine(s: Sys, s': Sys)
    requires Emitted(s') == Emitted(s) && s'.framer.parked == s.framer.parked && InHand(s') == InHand(s)
    requires s'.inp.recvQ == s.inp.recvQ
    ensures Line(s') == Line(s)
  {
  }

  /** Bytes put on the receive queue between two states, the first of which comes first. */
  function Since(s: Sys, s': Sys): seq<Byte> {
    s'.inp.received[Min(|s.inp.received|, |s'.inp.received|)..]
  }

  /**
   Conservation. From any state on, after any interleaving of any number of runs, what the application has
   taken, the event queue, the frames about to be queued, the parked bytes, the chunk in the framer
   thread's hands and the receive queue together are what they were, followed by exactly the bytes the
   socket thread has put since, in order; length errors included. Only a reset takes bytes away.
   */
  lemma {:induction false} Conservation(s: Sys, steps: seq<Step>)
    requires Exact(s.framer) && Legal(s, steps) && ExactRuns(steps)
    requires forall i :: 0 <= i < |steps| ==> !steps[i].ResetPop?
    ensures var s' := After(s, steps);
            && s.inp.received <= s'.inp.received && Line(s') == Line(s) + Since(s, s') && Exact(s'.framer)
  {
    hide Do, Enabled, Line;
    if steps == [] {
      assert Since(s, s) == [] && Line(s) + [] == Line(s);
    } else {
      var before, last := steps[..|steps| - 1], steps[|steps| - 1];
      Conservation(s, before);
      var s1 := After(s, before);
      assert ExactRuns([last]);
      StepLine(s1, last);
      Appended(s.inp.received, s1.inp.received, Put(last));
      Assoc(Line(s), Since(s, s1), Put(last));
    }
  }

  lemma Appended(a: seq<Byte>, b: seq<Byte>, more: seq<Byte>)
    requires a <= b
    ensures a <= b + more && (b + more)[|a|..] == b[|a|..] + more
  {
  }

  /** From the very start: everything put, in order. */
  lemma {:induction false} ConservationFromStart(steps: seq<Step>)
    requires Legal(INIT, steps) && ExactRuns(steps) && forall i :: 0 <= i < |steps| ==> !steps[i].ResetPop?
    ensures Line(After(INIT, steps)) == After(INIT, steps).inp.received
  {
    NothingYet();
    hide Legal, After, Line, Exact;
    Conservation(INIT, steps);
    FromNothing(INIT, After(INIT, steps));
  }

  lemma NothingYet()
    ensures Line(INIT) == [] && INIT.inp.received == [] && Exact(INIT.framer)
  {
    assert Emitted(INIT) == [];
  }

  lemma FromNothing(s: Sys, s': Sys)
    requires s.inp.received == []
    ensures [] + Since(s, s') == s'.inp.received
  {
  }

  // ----- every byte is accounted for, with resets, long headers and limits

  /** Bytes this step of a reset frees. */
  function Freed(s: Sys, step: Step): nat {
    if !step.ResetPop? then 0
    else if s.ctl.api.ResetRecv? then (if s.inp.recvQ == [] then 0 else |s.inp.recvQ[0]|)
    else if s.out.eventQ == [] then 0 else |s.out.eventQ[0]|
  }

  ghost function FreedBy(s: Sys, steps: seq<Step>): nat
    requires Legal(s, steps)
  {
    if steps == [] then 0
    else FreedBy(s, steps[..|steps| - 1]) + Freed(After(s, steps[..|steps| - 1]), steps[|steps| - 1])
  }

  lemma PoppedLine(s: Sys)
    requires s.ctl.api.ResetRecv? || s.ctl.api.ResetEvent?
    ensures |Line(Popped(s))| + Freed(s, ResetPop) == |Line(s)|
  {
    var s' := Popped(s);
    if s.ctl.api.ResetEvent? && s.out.eventQ != [] {
      var rest := s'.out.eventQ + if s.pc.Putting? then s.pc.frames else [];
      assert Emitted(s) == s.out.delivered + ([s.out.eventQ[0]] + rest) && Emitted(s') == s.out.delivered + rest;
      ConcatAppend(s.out.delivered, [s.out.eventQ[0]] + rest);
      ConcatAppend(s.out.delivered, rest);
      ConcatAppend([s.out.eventQ[0]], rest);
      ConcatOne(s.out.eventQ[0]);
    } else {
      assert Emitted(s') == Emitted(s);
    }
  }

  lemma StepSize(s: Sys, step: Step)
    requires Enabled(s, step)
    ensures var s' := Do(s, step);
            && |Line(s')| + Freed(s, step) <= |Line(s)| + |Put(step)|
            && |s'.inp.received| == |s.inp.received| + |Put(step)|
            && (s.framer.queueLimit == 0 && UnlimitedRuns([step]) ==>
                  && |Line(s')| + Freed(s, step) == |Line(s)| + |Put(step)|
                  && s'.framer.queueLimit == 0)
  {
    assert [step][0] == step;
    hide FramerDo, Valid, Line, Concat, Emitted;
    var s' := Do(s, step);
    match step {
      case FramerStep(counts) => FramerLine(s, counts);
      case SockPut(chunk) => PutLine(s, chunk);
      case ResetPop => PoppedLine(s);
      case _ => OthersLine(s, step); SameLine(s, s');
    }
  }

  /**
   Accounting, over every interleaving there is, with any resets, headers and limits: the bytes in the pipeline
   and those freed by resets never exceed what was there and what was put since, and without a
   frame-queue limit they are exactly as many.
   */
  lemma {:induction false} BytesAccounted(s: Sys, steps: seq<Step>)
    requires Legal(s, steps)
    ensures var s' := After(s, steps);
            && |s.inp.received| <= |s'.inp.received|
            && |Line(s')| + FreedBy(s, steps) <= |Line(s)| + |Since(s, s')|
            && (s.framer.queueLimit == 0 && UnlimitedRuns(steps) ==>
                  && |Line(s')| + FreedBy(s, steps) == |Line(s)| + |Since(s, s')|
                  && s'.framer.queueLimit == 0)
  {
    hide Do, Enabled, Line, Freed;
    if steps != [] {
      var before, last := steps[..|steps| - 1], steps[|steps| - 1];
      BytesAccounted(s, before);
      StepSize(After(s, before), last);
      assert UnlimitedRuns(steps) ==> UnlimitedRuns(before) && UnlimitedRuns([last]);
    }
  }

  // ----- the drain

  /** The receive queue holds what was put since the framer thread's last empty look. */
  predicate SinceEmpty(s: Sys) {
    s.seenEmpty <= |s.inp.received| && (Leaving(s) ==> Concat(s.inp.recvQ) == s.inp.received[s.seenEmpty..])
  }

  lemma FramerSinceEmpty(s: Sys, counts: nat -> nat)
    requires KeepsGoing(s) && SinceEmpty(s) && Enabled(s, FramerStep(counts))
    ensures SinceEmpty(FramerDo(s, counts))
  {
    hide Recv, Valid, Flushed;
    assert s.inp.received[|s.inp.received|..] == [];
  }

  lemma SinceEmptyKept(s: Sys, step: Step)
    requires KeepsGoing(s) && SinceEmpty(s) && Enabled(s, step) && NoReset(step)
    ensures SinceEmpty(Do(s, step))
  {
    hide Valid, FramerDo;
    if step.FramerStep? { FramerSinceEmpty(s, step.counts); }
    if step.SockPut? { ConcatSnoc(s.inp.recvQ, step.chunk); }
  }

  lemma {:induction false} SinceEmptyOverRuns(s: Sys, steps: seq<Step>)
    requires Tidy(s) && SinceEmpty(s) && Legal(s, steps) && NoResets(steps)
    ensures SinceEmpty(After(s, steps))
  {
    if steps != [] {
      var before, last := steps[..|steps| - 1], steps[|steps| - 1];
      hide Do, Enabled, SinceEmpty, Aligned, QueueSound;
      SinceEmptyOverRuns(s, before);
      TidyWithoutResets(s, before);
      SinceEmptyKept(After(s, before), last);
    }
  }

  /**
   What is left when the thread has left, from any moment of a run at which it is still at work and with no reset
   from then on: nothing is parked; the receive queue holds exactly the bytes put since the thread's last
   empty look; and all the others have come out in frames, in order when the framer is exact.
   */
  lemma Drained(s: Sys, steps: seq<Step>)
    requires Tidy(s) && !Leaving(s) && Legal(s, steps) && NoResets(steps) && Left(After(s, steps))
    ensures var s' := After(s, steps);
            && s'.framer.parked == [] && s'.seenEmpty <= |s'.inp.received|
            && Concat(s'.inp.recvQ) == s'.inp.received[s'.seenEmpty..]
            && (s'.inp.recvQ == [] <==> s'.seenEmpty == |s'.inp.received|)
            && s.inp.received <= s'.inp.received
            && (Exact(s.framer) && ExactRuns(steps) ==>
                  Concat(s'.out.delivered + s'.out.eventQ) + Concat(s'.inp.recvQ) == Line(s) + Since(s, s'))
  {
    hide After, Legal;
    TidyWithoutResets(s, steps);
    SinceEmptyOverRuns(s, steps);
    ReceivedGrows(s, steps);
    var s' := After(s, steps);
    ConcatEmpty(s'.inp.recvQ);
    if Exact(s.framer) && ExactRuns(steps) {
      Conservation(s, steps);
      assert Emitted(s') == s'.out.delivered + s'.out.eventQ;
      var out := Concat(Emitted(s'));
      assert out + [] + [] == out;
    }
  }

  lemma {:induction false} ReceivedGrows(s: Sys, steps: seq<Step>)
    requires Legal(s, steps)
    ensures s.inp.received <= After(s, steps).inp.received
  {
    if steps != [] {
      ReceivedGrows(s, steps[..|steps| - 1]);
      ReceivedStep(After(s, steps[..|steps| - 1]), steps[|steps| - 1]);
    }
  }

  lemma ReceivedStep(s: Sys, step: Step)
    requires Enabled(s, step)
    ensures s.inp.received <= Do(s, step).inp.received
  {
    hide Recv, Valid, Flushed;
  }

  // ----- what SiDaqRun has set

  lemma FramerSettings(s: Sys, counts: nat -> nat)
    requires Enabled(s, FramerStep(counts))
    ensures var s' := FramerDo(s, counts);
            SameSetup(s.framer, s'.framer) && s'.inp.recvLimit == s.inp.recvLimit
  {
    hide Recv, Valid;
  }

  lemma SettingsStep(s: Sys, step: Step)
    requires Enabled(s, step) && !step.RunOk?
    ensures var s' := Do(s, step);
            SameSetup(s.framer, s'.framer) && s'.inp.recvLimit == s.inp.recvLimit
  {
    hide FramerDo, Valid;
    if step.FramerStep? { FramerSettings(s, step.counts); }
  }

  lemma {:induction false} SettingsKept(s: Sys, steps: seq<Step>)
    requires Legal(s, steps) && forall i :: 0 <= i < |steps| ==> !steps[i].RunOk?
    ensures SameSetup(s.framer, After(s, steps).framer) && After(s, steps).inp.recvLimit == s.inp.recvLimit
  {
    hide Do, Enabled;
    if steps != [] {
      SettingsKept(s, steps[..|steps| - 1]);
      SettingsStep(After(s, steps[..|steps| - 1]), steps[|steps| - 1]);
    }
  }

  /**
   Until the next SiDaqRun a run works with the limits and the maximum given to the last, and in its mode unless it
   has fallen back, under every interleaving.
   */
  lemma RunSettings(s: Sys, a: RunArgs, steps: seq<Step>)
    requires Enabled(s, RunOk(a)) && Legal(Do(s, RunOk(a)), steps)
    requires forall i :: 0 <= i < |steps| ==> !steps[i].RunOk?
    ensures var s' := After(Do(s, RunOk(a)), steps);
            && s'.inp.recvLimit == a.recvLimit && s'.framer.queueLimit == a.frameLimit
            && s'.framer.maxFrameLen == a.maxFrameLen && (s'.framer.mode == a.mode || s'.framer.mode == NULL_MODE)
  {
    SettingsKept(Do(s, RunOk(a)), steps);
    hide After, Legal, Valid;
  }

  // ----- when the receive limit trips

  predicate OverLimit(s: Sys) {
    s.inp.recvLimit != 0 && s.inp.recvLimit < |s.inp.recvQ|
  }

  /** At one of its counts the socket thread finds more chunks queued than the limit. */
  ghost predicate CountsOver(s: Sys, steps: seq<Step>)
    requires Legal(s, steps)
  {
    steps != [] &&
    (CountsOver(s, steps[..|steps| - 1])
     || (steps[|steps| - 1].SockCount? && OverLimit(After(s, steps[..|steps| - 1]))))
  }

  lemma QueueErrorStep(s: Sys, step: Step)
    requires Enabled(s, step) && !step.RunOk?
    ensures Do(s, step).ctl.queueError <==> s.ctl.queueError || (step.SockCount? && OverLimit(s))
  {
    hide Recv, Valid, Flushed;
  }

  /**
   The receive-queue error, over every interleaving of a run: it goes up if and only if the limit is not 0 and the
   socket thread, at one of its counts, finds more chunks queued than that.
   */
  lemma {:induction false} QueueErrorIff(s: Sys, steps: seq<Step>)
    requires Legal(s, steps) && forall i :: 0 <= i < |steps| ==> !steps[i].RunOk?
    ensures After(s, steps).ctl.queueError <==> s.ctl.queueError || CountsOver(s, steps)
    ensures s.inp.recvLimit == 0 ==> !CountsOver(s, steps)
  {
    hide Do, Enabled;
    if steps != [] {
      var before, last := steps[..|steps| - 1], steps[|steps| - 1];
      QueueErrorIff(s, before);
      SettingsKept(s, before);
      QueueErrorStep(After(s, before), last);
    }
  }

  /** The receive queue never holds more than the limit. */
  ghost predicate NeverOver(s: Sys, steps: seq<Step>)
    requires Legal(s, steps)
  {
    !OverLimit(After(s, steps)) && (steps == [] || NeverOver(s, steps[..|steps| - 1]))
  }

  /** In particular a run whose receive queue never holds more than the limit does not raise it. */
  lemma {:induction false} NeverOverNeverTrips(s: Sys, steps: seq<Step>)
    requires Legal(s, steps) && forall i :: 0 <= i < |steps| ==> !steps[i].RunOk?
    requires NeverOver(s, steps) && !s.ctl.queueError
    ensures !After(s, steps).ctl.queueError
  {
    hide Do, Enabled, OverLimit;
    if steps != [] {
      NeverOverNeverTrips(s, steps[..|steps| - 1]);
      NotOverBefore(s, steps[..|steps| - 1]);
      QueueErrorStep(After(s, steps[..|steps| - 1]), steps[|steps| - 1]);
    }
  }

  lemma NotOverBefore(s: Sys, steps: seq<Step>)
    requires Legal(s, steps) && NeverOver(s, steps)
    ensures !OverLimit(After(s, steps))
  {
  }

  // ----- the socket thread's limit

  /** Bytes put by the socket thread that its byte count leaves out: a chunk not yet counted, or one that never is. */
  function Uncounted(sock: SockPc): nat {
    if sock.Up? || sock.Closed? then 0 else sock.n
  }

  /** Socket accounting since a state with `q0` bytes received and `r0` counted. */
  predicate SockInv(s: Sys, limit: nat, q0: nat, r0: nat) {
    && s.inp.recvLimit == limit && q0 <= |s.inp.received|
    && s.inp.rxBytes - r0 + Uncounted(s.inp.sock) == |s.inp.received| - q0
    && (s.inp.sock.Tripping? || s.inp.sock.Tripped? ==> 0 < limit && s.ctl.queueError)
    && (0 < limit ==> |s.inp.recvQ| <= limit + if s.inp.sock.Up? then 0 else 1)
  }

  lemma {:induction false} SockKeeps(s: Sys, steps: seq<Step>)
    requires Legal(s, steps) && s.inp.sock.Up? && (0 < s.inp.recvLimit ==> |s.inp.recvQ| <= s.inp.recvLimit)
    requires forall i :: 0 <= i < |steps| ==> !steps[i].RunOk?
    ensures SockInv(After(s, steps), s.inp.recvLimit, |s.inp.received|, s.inp.rxBytes)
  {
    hide Do, Enabled;
    if steps != [] {
      var before, last := steps[..|steps| - 1], steps[|steps| - 1];
      SockKeeps(s, before);
      SockStep(After(s, before), last, s.inp.recvLimit, |s.inp.received|, s.inp.rxBytes);
    }
  }

  lemma FramerLeavesSocket(s: Sys, counts: nat -> nat)
    requires Enabled(s, FramerStep(counts))
    ensures var s' := FramerDo(s, counts);
            s'.inp == s.inp || (s.inp.recvQ != [] && s'.inp == s.inp.(recvQ := s.inp.recvQ[1..]))
    ensures FramerDo(s, counts).ctl.queueError == s.ctl.queueError
  {
    hide Recv, Valid, Flushed;
  }

  lemma SockStep(s: Sys, step: Step, limit: nat, q0: nat, r0: nat)
    requires Enabled(s, step) && !step.RunOk? && SockInv(s, limit, q0, r0)
    ensures SockInv(Do(s, step), limit, q0, r0)
  {
    hide FramerDo, Valid;
    if step.FramerStep? { FramerLeavesSocket(s, step.counts); }
  }

  /**
   Receive-queue limit. During a run that began with at most `recvLimit` entries the receive queue never
   holds more than `recvLimit + 1`, although the socket thread reads the count after releasing the
   lock; and the byte count is all bytes put, minus the chunk that tripped the limit once it has.
   */
  lemma ReceiveBound(s: Sys, steps: seq<Step>)
    requires Legal(s, steps) && s.inp.sock.Up? && |s.inp.recvQ| <= s.inp.recvLimit && 0 < s.inp.recvLimit
    requires forall i :: 0 <= i < |steps| ==> !steps[i].RunOk?
    ensures var i, i' := s.inp, After(s, steps).inp;
            && |i'.recvQ| <= i.recvLimit + 1
            && i'.rxBytes - i.rxBytes == |i'.received| - |i.received| - Uncounted(i'.sock)
            && (i'.sock.Tripping? || i'.sock.Tripped? ==> After(s, steps).ctl.queueError)
  {
    SockKeeps(s, steps);
  }
}
