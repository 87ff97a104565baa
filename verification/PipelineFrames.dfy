/** What frames a run delivers, over every interleaving of the four actors. */
module PipelineFrames {
  import opened Bytes
  import opened FramerSpec
  import opened FramerCalls
  import opened Chunking
  import opened Pipeline
  import opened PipelineSafety
  import opened PipelineStatus
  import EndToEnd

  /** A run in progress; `earlier` are the frames emitted before it began. */
  datatype RunOf = RunOf(mode: Mode, max: nat, earlier: seq<seq<Byte>>)

  ghost predicate Sane(r: RunOf) {
    r.mode.headerLen <= 2 && Framing(r.mode) && HeaderDetermined(r.mode)
  }

  /** The frames this run has emitted so far. */
  function Frames(s: Sys, r: RunOf): seq<seq<Byte>>
    requires |r.earlier| <= |Emitted(s)|
  {
    Emitted(s)[|r.earlier|..]
  }

  /** The bytes the framer has worked on in this run. */
  function Framed(s: Sys, r: RunOf): seq<Byte>
    requires |r.earlier| <= |Emitted(s)|
  {
    Concat(Frames(s, r)) + s.framer.parked
  }

  /** The whole stream is out: all frames, and its unfinished end as a last one. */
  ghost predicate Complete(m: Mode, max: nat, frames: seq<seq<Byte>>) {
    var p := Parse(m, max, Concat(frames));
    if p.failed then p.frames <= frames
    else frames == p.frames + if p.rest == [] then [] else [p.rest]
  }

  ghost predicate OnTrack(s: Sys, r: RunOf) {
    && r.earlier <= Emitted(s)
    && s.framer.maxFrameLen == r.max
    && (if Left(s) then s.framer.parked == [] && Complete(r.mode, r.max, Frames(s, r))
        else Follows(r.mode, r.max, Framed(s, r), s.framer, Frames(s, r)))
  }

  lemma TailOf(earlier: seq<seq<Byte>>, out: seq<seq<Byte>>, more: seq<seq<Byte>>)
    requires earlier <= out
    ensures earlier <= out + more && (out + more)[|earlier|..] == out[|earlier|..] + more
  {
  }

  lemma CallEmits(s: Sys, counts: nat -> nat)
    requires Valid(s.framer) && s.pc.Hand? && s.pc.chunk != []
    ensures var o, s' := Recv(s.framer, s.pc.chunk, counts), FramerDo(s, counts);
            && s' == s.(framer := o.state, pc := Putting(o.frames))
            && Emitted(s') == Emitted(s) + o.frames
  {
    hide Recv, Valid;
  }

  /** The call of the framer, wherever in the pipeline the frames before it have got to. */
  lemma CallOnTrack(s: Sys, r: RunOf, counts: nat -> nat)
    requires Sane(r) && Aligned(s) && QueueSound(s) && Exact(s.framer) && OnTrack(s, r) && s.pc.Hand?
    ensures OnTrack(FramerDo(s, counts), r)
  {
    hide Recv, Emitted, Parse, Valid, FramerDo, Follows, Complete, Sane, Concat;
    var chunk, frames, stream := s.pc.chunk, Frames(s, r), Framed(s, r);
    var o := Recv(s.framer, chunk, counts);
    var s' := FramerDo(s, counts);
    CallEmits(s, counts);
    TailOf(r.earlier, Emitted(s), o.frames);
    CallFollows(r, s.framer, frames, stream, chunk, counts);
    assert Framed(s', r) == stream + chunk;
  }

  lemma CallFollows(r: RunOf, f: State, frames: seq<seq<Byte>>, stream: seq<Byte>, chunk: seq<Byte>, counts: nat -> nat)
    requires Sane(r) && Valid(f) && f.queueLimit == 0 && f.mode.headerLen <= 2 && f.maxFrameLen == r.max && chunk != []
    requires stream == Concat(frames) + f.parked && Follows(r.mode, r.max, stream, f, frames)
    ensures var o := Recv(f, chunk, counts);
            && Follows(r.mode, r.max, stream + chunk, o.state, frames + o.frames)
            && SameSetup(f, o.state)
            && Concat(frames + o.frames) + o.state.parked == stream + chunk
  {
    var o := Recv(f, chunk, counts);
    assert SameSetup(f, o.state);
    ShortHeadersCutWell(r.mode, r.max, stream, chunk);
    FollowsOn(r.mode, stream, f, frames, chunk, counts);
    RecvAccounts(f, chunk, counts);
    hide Recv, Parse, Valid, Follows, Concat;
    ConcatAppend(frames, o.frames);
    Regroup(Concat(frames), Concat(o.frames), o.state.parked, f.parked, chunk);
  }

  lemma FlushOnTrack(s: Sys, r: RunOf, counts: nat -> nat)
    requires Sane(r) && Aligned(s) && OnTrack(s, r) && s.pc.Flush?
    ensures OnTrack(FramerDo(s, counts), r)
  {
    var s' := FramerDo(s, counts);
    var last := LastFrame(s.framer);
    assert Emitted(s') == Emitted(s) + last;
    TailOf(r.earlier, Emitted(s), last);
    ConcatAppend(Frames(s, r), last);
    ConcatOne(s.framer.parked);
    assert Concat(last) == s.framer.parked;
    hide Parse, Valid, Emitted;
    assert Concat(Frames(s', r)) == Framed(s, r);
    assert Concat(Frames(s, r)) + [] == Concat(Frames(s, r));
  }

  lemma FramerOnTrack(s: Sys, r: RunOf, counts: nat -> nat)
    requires Sane(r) && Tidy(s) && Exact(s.framer) && OnTrack(s, r) && Enabled(s, FramerStep(counts))
    ensures OnTrack(FramerDo(s, counts), r)
  {
    hide Recv, Valid, Parse, Follows, Complete, Emitted, Frames, Framed;
    if s.pc.Hand? {
      CallOnTrack(s, r, counts);
    } else if s.pc.Flush? {
      FlushOnTrack(s, r, counts);
    } else {
      FramerKeepsFrames(s, r, counts);
    }
  }

  lemma FramerKeepsFrames(s: Sys, r: RunOf, counts: nat -> nat)
    requires Tidy(s) && OnTrack(s, r) && Enabled(s, FramerStep(counts)) && !s.pc.Hand? && !s.pc.Flush?
    ensures OnTrack(FramerDo(s, counts), r)
  {
    hide Recv, Valid, Parse, Follows, Complete;
    var s' := FramerDo(s, counts);
    if !(s.pc.Fetch? && s.inp.recvQ != []) { FramerEmittedSame(s, counts); }
    assert Emitted(s') == Emitted(s);
    assert s'.framer == s.framer;
    assert Left(s') ==> Left(s);
  }

  lemma StepOnTrack(s: Sys, r: RunOf, step: Step)
    requires Sane(r) && Tidy(s) && Exact(s.framer) && OnTrack(s, r)
    requires Enabled(s, step) && NoReset(step) && !step.RunOk?
    ensures OnTrack(Do(s, step), r)
  {
    hide FramerDo, Valid, Parse, Follows, Complete;
    if step.FramerStep? {
      FramerOnTrack(s, r, step.counts);
    } else {
      var s' := Do(s, step);
      if !step.SockPut? { OthersLine(s, step); }
      assert Emitted(s') == Emitted(s) && s'.framer == s.framer && s'.pc == s.pc;
    }
  }

  /** A run just begun, whatever earlier ones have left. */
  ghost predicate Begun(s: Sys, r: RunOf) {
    && Tidy(s) && s.pc == LoopTest && s.inp.sock.Up? && Sane(r)
    && s.framer.mode == r.mode && s.framer.maxFrameLen == r.max && s.framer.error == NoError
    && s.framer.queueLimit == 0 && r.earlier == Emitted(s)
  }

  /** Steps within one run, before any reset. */
  ghost predicate OneRun(s: Sys, steps: seq<Step>) {
    Legal(s, steps) && NoResets(steps) && forall i :: 0 <= i < |steps| ==> !steps[i].RunOk?
  }

  /** Bytes parked at the start of a run are the start of a frame. */
  lemma BegunOnTrack(s: Sys, r: RunOf)
    requires Begun(s, r)
    ensures Exact(s.framer) && OnTrack(s, r)
  {
    assert Frames(s, r) == [] && Framed(s, r) == s.framer.parked;
  }

  lemma {:induction false} RunOnTrack(s: Sys, r: RunOf, steps: seq<Step>)
    requires Begun(s, r) && OneRun(s, steps)
    ensures Tidy(After(s, steps)) && Exact(After(s, steps).framer) && OnTrack(After(s, steps), r)
  {
    if steps == [] {
      BegunOnTrack(s, r);
    } else {
      hide Tidy, OnTrack, Do;
      var before, last := steps[..|steps| - 1], steps[|steps| - 1];
      RunOnTrack(s, r, before);
      assert ExactRuns([last]);
      StepLine(After(s, before), last);
      TidyWithoutResets(s, steps);
      StepOnTrack(After(s, before), r, last);
    }
  }

  /** What a caller can see to: short headers or none, no limit on the frame queue, a way to tell lengths. */
  predicate ExactArgs(a: RunArgs) {
    a.mode.headerLen <= 2 && a.frameLimit == 0 && Framing(a.mode)
  }

  /** Every such run, after any history whatever. */
  lemma {:induction false} RunBegins(steps: seq<Step>, a: RunArgs)
    requires Legal(INIT, steps) && Enabled(After(INIT, steps), RunOk(a)) && ExactArgs(a)
    ensures var s := After(INIT, steps);
            Begun(Do(s, RunOk(a)), RunOf(a.mode, a.maxFrameLen, Emitted(s)))
  {
    RunBeginsTidy(steps, a);
    hide Legal, After, Tidy;
  }

  /** What an earlier run has left to this one: bytes parked in the framer, chunks in the receive queue. */
  function Leftover(s: Sys): seq<Byte> {
    s.framer.parked + Concat(s.inp.recvQ)
  }

  /** The stream is the run's own: nothing is parked and the receive queue is empty. */
  predicate Clean(s: Sys) {
    s.framer.parked == [] && s.inp.recvQ == []
  }

  lemma CleanLeavesNothing(s: Sys)
    requires QueueSound(s)
    ensures Clean(s) <==> Leftover(s) == []
  {
    ConcatEmpty(s.inp.recvQ);
  }

  /**
   The frames of a run. Under every interleaving of socket, framer, API and application: while the framer
   thread works, the frames it has emitted are exactly those a parser of the framed bytes finds
   (up to the first bad length, after which no byte is lost); when it has left, the unfinished end
   has followed as one last frame. The framed bytes are what earlier runs have left and then all that the
   device has sent in this one, except the chunk in hand and those still queued.
   */
  lemma FramesOfRun(s: Sys, r: RunOf, steps: seq<Step>)
    requires Begun(s, r) && OneRun(s, steps)
    ensures var s' := After(s, steps);
            && r.earlier <= Emitted(s') && s.inp.received <= s'.inp.received
            && (if Left(s') then s'.framer.parked == [] && Complete(r.mode, r.max, Frames(s', r))
                else Follows(r.mode, r.max, Framed(s', r), s'.framer, Frames(s', r)))
            && Framed(s', r) + InHand(s') + Concat(s'.inp.recvQ) == Leftover(s) + Since(s, s')
  {
    RunOnTrack(s, r, steps);
    var s' := After(s, steps);
    BegunLine(s, r);
    assert Exact(s.framer) && ExactRuns(steps);
    hide Tidy, Parse, Follows, Complete, After, Legal, Emitted, Sane, OneRun, Begun, Line, Exact, Leftover;
    Conservation(s, steps);
    EmittedLine(s', r);
    hide Concat;
    Cancel(Concat(r.earlier), Framed(s', r), InHand(s'), Concat(s'.inp.recvQ), Leftover(s), Since(s, s'));
  }

  lemma BegunLine(s: Sys, r: RunOf)
    requires Begun(s, r)
    ensures Line(s) == Concat(r.earlier) + Leftover(s)
  {
    hide Valid, Concat;
    assert Concat(r.earlier) + s.framer.parked + [] == Concat(r.earlier) + s.framer.parked;
    Assoc(Concat(r.earlier), s.framer.parked, Concat(s.inp.recvQ));
  }

  lemma BegunBound(s: Sys, r: RunOf)
    requires Begun(s, r)
    ensures r.max <= BUFF_SIZE && HeaderDetermined(r.mode) && Framing(r.mode)
  {
  }

  lemma EmittedLine(s: Sys, r: RunOf)
    requires r.earlier <= Emitted(s)
    ensures Line(s) == Concat(r.earlier) + Framed(s, r) + InHand(s) + Concat(s.inp.recvQ)
  {
    assert Emitted(s) == r.earlier + Frames(s, r);
    ConcatAppend(r.earlier, Frames(s, r));
    hide Emitted, Concat;
    Assoc(Concat(r.earlier), Concat(Frames(s, r)), s.framer.parked);
  }

  lemma Cancel(earlier: seq<Byte>, framed: seq<Byte>, hand: seq<Byte>, queued: seq<Byte>,
               left: seq<Byte>, put: seq<Byte>)
    requires earlier + framed + hand + queued == earlier + left + put
    ensures framed + hand + queued == left + put
  {
    assert earlier + framed + hand + queued == earlier + (framed + hand + queued);
    assert earlier + left + put == earlier + (left + put);
    assert (earlier + (framed + hand + queued))[|earlier|..] == framed + hand + queued;
  }

  // ----- whose bytes a run frames

  /**
   What a run promises its caller: the bytes of its frames are the first the device has sent in this run, and the
   frames are a parser's; an unfinished end follows as one last frame when the thread has left.
   */
  ghost predicate Own(s: Sys, s': Sys, r: RunOf) {
    && r.earlier <= Emitted(s')
    && Framed(s', r) <= Since(s, s')
    && (if Left(s') then Complete(r.mode, r.max, Frames(s', r))
        else Follows(r.mode, r.max, Framed(s', r), s'.framer, Frames(s', r)))
  }

  /** The promise holds under every interleaving, for every device stream. */
  ghost predicate OwnFrames(s: Sys, r: RunOf) {
    forall steps | OneRun(s, steps) :: Own(s, After(s, steps), r)
  }

  /** A run the device sends nothing in: what it frames is exactly what earlier runs have left. */
  lemma SilentRun(s: Sys, r: RunOf) returns (steps: seq<Step>)
    requires Begun(s, r)
    ensures OneRun(s, steps)
    ensures var s' := After(s, steps);
            && s'.pc == Off && Since(s, s') == [] && r.earlier <= Emitted(s') && s'.framer.parked == []
            && Concat(Frames(s', r)) == Leftover(s)
  {
    var exit := SockExit(true);
    Steps1(s, exit);
    TidyWithoutResets(s, [exit]);
    var s1 := After(s, [exit]);
    assert Quiet(s1) && !Leaving(s1) && s1.inp.received == s.inp.received;
    hide Begun, Do, Enabled, Legal, After, Leftover, Complete, Follows, Concat, Tidy, Quiet, Emitted;
    var rest := ThreadRunsOut(s1, CountsFrom(0));
    Chain(s, [exit], rest);
    steps := [exit] + rest;
    FramesOfRun(s, r, steps);
    var s' := After(s, steps);
    FramedWhenLeft(s', r);
    AllFramed(Framed(s', r), Leftover(s));
    assert Concat(s'.inp.recvQ) == [] by { ConcatNone(); }
  }

  lemma ConcatNone()
    ensures Concat([]) == []
  {
  }

  lemma AllFramed(framed: seq<Byte>, left: seq<Byte>)
    ensures framed + [] + [] == framed && left + [] == left
  {
  }

  /** A run frames its own bytes, for every device stream and every interleaving, if and only if it begins clean. */
  lemma OwnFramesIffClean(s: Sys, r: RunOf)
    requires Begun(s, r)
    ensures OwnFrames(s, r) <==> Clean(s)
  {
    CleanLeavesNothing(s);
    hide Begun, OneRun, Leftover, Clean, Complete, Follows, Emitted, Framed, After;
    if Leftover(s) == [] {
      forall steps | OneRun(s, steps)
        ensures Own(s, After(s, steps), r)
      {
        FramesOfRun(s, r, steps);
        var s' := After(s, steps);
        StartOf(Framed(s', r), InHand(s'), Concat(s'.inp.recvQ), [] + Since(s, s'), Since(s, s'));
      }
    } else {
      var steps := SilentRun(s, r);
      var s' := After(s, steps);
      FramedWhenLeft(s', r);
      assert !Own(s, s', r);
    }
  }

  // ----- a well-formed device stream

  /** A parser of a prefix finds a prefix of the frames, and no error if there is none in the whole. */
  lemma ParsePrefix(m: Mode, max: nat, a: seq<Byte>, stream: seq<Byte>)
    requires HeaderDetermined(m) && Framing(m) && a <= stream && !Parse(m, max, stream).failed
    ensures !Parse(m, max, a).failed && Parse(m, max, a).frames <= Parse(m, max, stream).frames
  {
    var b := stream[|a|..];
    assert stream == a + b;
    ParseResumes(m, max, a, b);
  }

  /** How far a stream cut off after whole frames and `rest` gets into the next frame. */
  lemma CutRest(whole: nat, rest: seq<Byte>, a: seq<Byte>, sent: seq<seq<Byte>>)
    requires whole <= |sent| && a == Concat(sent[..whole]) + rest && a <= Concat(sent)
    ensures whole == |sent| ==> rest == []
    ensures whole < |sent| ==> if |rest| < |sent[whole]| then rest < sent[whole] else Concat(sent[..whole + 1]) <= a
  {
    ConcatSplit(sent, whole);
    ConcatHead(sent[whole..]);
    hide Concat;
    if whole < |sent| {
      assert sent[..whole + 1] == sent[..whole] + [sent[whole]];
      ConcatSnoc(sent[..whole], sent[whole]);
      CutHead(Concat(sent[..whole]), rest, sent[whole], Concat(sent[whole..][1..]));
    }
  }

  lemma ConcatHead(ss: seq<seq<Byte>>)
    ensures Concat(ss) == if ss == [] then [] else ss[0] + Concat(ss[1..])
  {
  }

  lemma CutHead(first: seq<Byte>, rest: seq<Byte>, head: seq<Byte>, tail: seq<Byte>)
    requires first + rest <= first + (head + tail)
    ensures if |rest| < |head| then rest < head else first + head <= first + rest
  {
    assert (first + (head + tail))[|first|..|first| + |rest|] == rest;
    assert (first + (head + tail))[|first|..] == head + tail;
    assert rest == (head + tail)[..|rest|];
  }

  /** A parser finds in any number of the frames those frames and nothing else. */
  predicate ParseAlone(m: Mode, max: nat, sent: seq<seq<Byte>>) {
    forall n :: 0 <= n <= |sent| ==> Parse(m, max, Concat(sent[..n])) == Parsed(sent[..n], [], false)
  }

  lemma ParseFirst(m: Mode, max: nat, sent: seq<seq<Byte>>, n: nat)
    requires ParseAlone(m, max, sent) && n <= |sent|
    ensures Parse(m, max, Concat(sent[..n])) == Parsed(sent[..n], [], false)
    ensures Parse(m, max, Concat(sent)) == Parsed(sent, [], false)
  {
    hide Parse, Concat;
    assert sent[..|sent|] == sent;
  }

  lemma ParsesFirstFrames(m: Mode, max: nat, a: seq<Byte>, sent: seq<seq<Byte>>)
    requires HeaderDetermined(m) && Framing(m) && a <= Concat(sent) && ParseAlone(m, max, sent)
    ensures var p := Parse(m, max, a);
            !p.failed && p.frames <= sent && a == Concat(sent[..|p.frames|]) + p.rest
  {
    hide Parse, HeaderDetermined, Framing, ParseAlone, Concat;
    ParseFirst(m, max, sent, 0);
    ParsePrefix(m, max, a, Concat(sent));
    ParseCovers(m, max, a);
    assert Parse(m, max, a).frames == sent[..|Parse(m, max, a).frames|];
  }

  /** A stream with the first `n` frames in it is parsed that far at least. */
  lemma ParsesThatFar(m: Mode, max: nat, a: seq<Byte>, sent: seq<seq<Byte>>, n: nat)
    requires HeaderDetermined(m) && Framing(m) && ParseAlone(m, max, sent)
    requires n <= |sent| && Concat(sent[..n]) <= a && !Parse(m, max, a).failed
    ensures n <= |Parse(m, max, a).frames|
  {
    hide Parse, HeaderDetermined, Framing, ParseAlone, Concat;
    ParseFirst(m, max, sent, n);
    ParsePrefix(m, max, Concat(sent[..n]), a);
  }

  /** A parse stops before the first of the frames it cannot complete. */
  lemma CutFrame(m: Mode, max: nat, a: seq<Byte>, sent: seq<seq<Byte>>)
    requires HeaderDetermined(m) && Framing(m) && a <= Concat(sent) && ParseAlone(m, max, sent)
    ensures var p := Parse(m, max, a);
            && !p.failed && p.frames <= sent
            && (if |p.frames| == |sent| then p.rest == [] else p.rest < sent[|p.frames|])
  {
    hide Parse, Concat, HeaderDetermined, Framing, ParseAlone;
    ParsesFirstFrames(m, max, a, sent);
    var p := Parse(m, max, a);
    var n := |p.frames|;
    CutRest(n, p.rest, a, sent);
    if n < |sent| && |sent[n]| <= |p.rest| { ParsesThatFar(m, max, a, sent, n + 1); }
  }

  lemma ConcatSplit(ss: seq<seq<Byte>>, n: nat)
    requires n <= |ss|
    ensures Concat(ss) == Concat(ss[..n]) + Concat(ss[n..])
  {
    assert ss == ss[..n] + ss[n..];
    ConcatAppend(ss[..n], ss[n..]);
  }

  /** The first of the frames sent, whole and in order, then at most one that is cut off. */
  predicate FirstThenCut(frames: seq<seq<Byte>>, sent: seq<seq<Byte>>) {
    || frames <= sent
    || (0 < |frames| <= |sent| && frames[..|frames| - 1] <= sent && frames[|frames| - 1] < sent[|frames| - 1])
  }

  /**
   How the frames the device sends arrive, and the payloads in them. While the framer thread works the frames
   emitted are the first of those sent, unbroken, and so are those the application has; when it has left the
   last may be cut off; and when no chunk is left queued and the device has sent everything they are all
   of them.
   */
  ghost predicate Arrives(s: Sys, s': Sys, r: RunOf, payloads: seq<seq<Byte>>, h: nat)
    requires EndToEnd.Encodable(payloads, h, r.max)
  {
    var sent := EndToEnd.EncodeAll(payloads, h, r.max);
    && r.earlier <= Emitted(s')
    && (if Left(s') then
          && FirstThenCut(Frames(s', r), sent)
          && (s'.inp.recvQ == [] && Since(s, s') == Concat(sent) ==>
                Frames(s', r) == sent && EndToEnd.Payloads(Frames(s', r), h) == payloads)
        else
          && Frames(s', r) <= sent && s'.framer.error == NoError
          && EndToEnd.Payloads(Frames(s', r), h) <= payloads
          && s'.out.delivered <= r.earlier + sent)
  }

  /** The device may send encoded frames with non-empty payloads, or any start of such a stream. */
  ghost predicate RoundTrips(s: Sys, r: RunOf, h: nat) {
    forall steps, payloads |
      && OneRun(s, steps) && AllNonEmpty(payloads) && EndToEnd.Encodable(payloads, h, r.max)
      && Since(s, After(s, steps)) <= Concat(EndToEnd.EncodeAll(payloads, h, r.max)) ::
      Arrives(s, After(s, steps), r, payloads, h)
  }

  /**
   End to end through the whole pipeline. Whatever encoded frames the device sends in a run, the whole stream or
   its start, they arrive, under every interleaving, if and only if the run begins clean.
   */
  lemma PipelineRoundTrip(s: Sys, r: RunOf, h: nat, fixedLen: Uint32)
    requires Begun(s, r) && 1 <= h <= 2 && r.mode == EndToEnd.HeaderMode(h, fixedLen)
    ensures RoundTrips(s, r, h) <==> Clean(s)
  {
    CleanLeavesNothing(s);
    hide Begun, OneRun, Leftover, Clean, Arrives, After, Concat, AllNonEmpty;
    if Leftover(s) == [] {
      forall steps, payloads |
        && OneRun(s, steps) && AllNonEmpty(payloads) && EndToEnd.Encodable(payloads, h, r.max)
        && Since(s, After(s, steps)) <= Concat(EndToEnd.EncodeAll(payloads, h, r.max))
        ensures Arrives(s, After(s, steps), r, payloads, h)
      {
        CleanRoundTrip(s, r, steps, payloads, h, fixedLen);
      }
    } else {
      var steps := SilentRun(s, r);
      NothingSentArrives(s, After(s, steps), r, h);
    }
  }

  /** A device that sends nothing, in a run that frames something all the same. */
  lemma NothingSentArrives(s: Sys, s': Sys, r: RunOf, h: nat)
    requires s'.pc == Off && r.earlier <= Emitted(s') && Concat(Frames(s', r)) != []
    ensures AllNonEmpty([]) && EndToEnd.Encodable([], h, r.max) && Concat(EndToEnd.EncodeAll([], h, r.max)) == []
    ensures !Arrives(s, s', r, [], h)
  {
    assert EndToEnd.EncodeAll([], h, r.max) == [];
  }

  lemma {:induction false} CleanRoundTrip(s: Sys, r: RunOf, steps: seq<Step>, payloads: seq<seq<Byte>>, h: nat,
                                          fixedLen: Uint32)
    requires Begun(s, r) && OneRun(s, steps) && Leftover(s) == []
    requires 1 <= h <= 2 && r.mode == EndToEnd.HeaderMode(h, fixedLen) && AllNonEmpty(payloads)
    requires EndToEnd.Encodable(payloads, h, r.max)
    requires Since(s, After(s, steps)) <= Concat(EndToEnd.EncodeAll(payloads, h, r.max))
    ensures Arrives(s, After(s, steps), r, payloads, h)
  {
    BegunBound(s, r);
    hide Parse, Follows, Complete, Tidy, Legal, After, Emitted, Begun, Framing, HeaderDetermined, OneRun, ParseAlone;
    hide Leftover;
    FramesOfRun(s, r, steps);
    PrefixesParse(payloads, h, fixedLen, r.max);
    var s', sent := After(s, steps), EndToEnd.EncodeAll(payloads, h, r.max);
    assert [] + Since(s, s') == Since(s, s');
    StartOf(Framed(s', r), InHand(s'), Concat(s'.inp.recvQ), Since(s, s'), Concat(sent));
    TrackedFrames(s', r, sent);
    EndToEnd.PayloadsRecovered(payloads, h, r.max);
    if Frames(s', r) <= sent { FirstPayloads(Frames(s', r), sent, h); }
    if Left(s') && s'.inp.recvQ == [] && Since(s, s') == Concat(sent) {
      assert InHand(s') == [] && Concat(s'.inp.recvQ) == [];
      assert Framed(s', r) + [] + [] == Framed(s', r);
    }
  }

  lemma FirstPayloads(frames: seq<seq<Byte>>, sent: seq<seq<Byte>>, h: nat)
    requires frames <= sent
    ensures EndToEnd.Payloads(frames, h) <= EndToEnd.Payloads(sent, h)
  {
  }

  lemma StartOf(a: seq<Byte>, b: seq<Byte>, c: seq<Byte>, all: seq<Byte>, stream: seq<Byte>)
    requires a + b + c == all && all <= stream
    ensures a <= stream
  {
    assert all[..|a|] == a;
  }

  /** Any number of the encoded frames parses to itself. */
  lemma PrefixesParse(payloads: seq<seq<Byte>>, h: nat, fixedLen: Uint32, max: nat)
    requires 0 < h && EndToEnd.Encodable(payloads, h, max) && max < 0x8000_0000 && AllNonEmpty(payloads)
    ensures var sent, m := EndToEnd.EncodeAll(payloads, h, max), EndToEnd.HeaderMode(h, fixedLen);
            ParseAlone(m, max, sent)
  {
    hide Parse, Concat;
    var sent, m := EndToEnd.EncodeAll(payloads, h, max), EndToEnd.HeaderMode(h, fixedLen);
    forall n | 0 <= n <= |sent|
      ensures Parse(m, max, Concat(sent[..n])) == Parsed(sent[..n], [], false)
    {
      EndToEnd.ParseEncoded(payloads[..n], h, fixedLen, max);
      assert sent[..n] == EndToEnd.EncodeAll(payloads[..n], h, max);
    }
  }

  /** The same for any stream of which every number of frames parses to itself. */
  lemma TrackedFrames(s: Sys, r: RunOf, sent: seq<seq<Byte>>)
    requires HeaderDetermined(r.mode) && Framing(r.mode) && r.earlier <= Emitted(s)
    requires ParseAlone(r.mode, r.max, sent)
    requires if Left(s) then s.framer.parked == [] && Complete(r.mode, r.max, Frames(s, r))
             else Follows(r.mode, r.max, Framed(s, r), s.framer, Frames(s, r))
    requires Framed(s, r) <= Concat(sent)
    ensures !Left(s) ==>
              Frames(s, r) <= sent && s.framer.error == NoError && s.out.delivered <= r.earlier + sent
    ensures Left(s) ==> FirstThenCut(Frames(s, r), sent)
    ensures Left(s) && Framed(s, r) == Concat(sent) ==> Frames(s, r) == sent
  {
    hide Parse, Concat, HeaderDetermined, Framing, ParseAlone;
    var a, frames := Framed(s, r), Frames(s, r);
    CutFrame(r.mode, r.max, a, sent);
    if Left(s) {
      ParseFirst(r.mode, r.max, sent, 0);
      hide Framed;
      var p := Parse(r.mode, r.max, a);
      assert a == Concat(frames) by { FramedWhenLeft(s, r); }
      assert p.frames == sent[..|p.frames|];
      assert frames == p.frames + if p.rest == [] then [] else [p.rest];
    } else {
      assert Emitted(s) == r.earlier + frames;
    }
  }

  lemma FramedWhenLeft(s: Sys, r: RunOf)
    requires r.earlier <= Emitted(s) && s.framer.parked == []
    ensures Framed(s, r) == Concat(Frames(s, r))
  {
    hide Concat, Emitted;
    assert Concat(Frames(s, r)) + [] == Concat(Frames(s, r));
  }
}
