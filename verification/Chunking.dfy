/**
 Chunking independence: what the framer makes of a byte stream does not depend on how the stream is
 cut into chunks. The reference is a parser that sees the whole stream at once.
 */
module Chunking {
  import opened Bytes
  import opened FramerSpec
  import opened FramerCalls

  // ----- the reference parser

  /** `rest` is the unfinished frame at the end, or what is left from the first bad length on. */
  datatype Parsed = Parsed(frames: seq<seq<Byte>>, rest: seq<Byte>, failed: bool)

  /** The mode takes frame lengths from a header or a constant; otherwise every chunk is a frame. */
  predicate Framing(m: Mode) {
    (m.lengthFunc.Some? && m.headerLen != 0) || m.fixedLen != 0
  }

  function Parse(m: Mode, max: nat, s: seq<Byte>): Parsed
    decreases |s|
  {
    if s == [] || |s| < m.headerLen then Parsed([], s, false)
    else
      var k := EventLen(m, s) + m.headerLen;
      if EventLen(m, s) < 0 || max < k then Parsed([], s, true)
      else if |s| < k then Parsed([], s, false)
      else
        Cons(s[..k], Parse(m, max, s[k..]))
  }

  /** One step of the parser. */
  lemma ParseOnce(m: Mode, max: nat, s: seq<Byte>)
    requires s != [] && m.headerLen <= |s|
    ensures var k := EventLen(m, s) + m.headerLen;
            Parse(m, max, s) ==
            if EventLen(m, s) < 0 || max < k then Parsed([], s, true)
            else if |s| < k then Parsed([], s, false)
            else Cons(s[..k], Parse(m, max, s[k..]))
  {
  }

  function Cons(frame: seq<Byte>, p: Parsed): Parsed {
    p.(frames := [frame] + p.frames)
  }

  lemma EventLenOfPrefix(m: Mode, a: seq<Byte>, b: seq<Byte>)
    requires HeaderDetermined(m) && Framing(m) && m.headerLen <= |a| && a <= b
    ensures EventLen(m, a) == EventLen(m, b)
  {
    if m.lengthFunc.Some? && m.headerLen != 0 {
      var f, h := m.lengthFunc.value, m.headerLen;
      assert AgreesOnHeader(f, h, a) && AgreesOnHeader(f, h, b);
      assert a[..h] == b[..h];
    }
  }

  function Resume(p: Parsed, q: Parsed): Parsed {
    q.(frames := p.frames + q.frames)
  }

  lemma ResumeCons(frame: seq<Byte>, p: Parsed, q: Parsed)
    ensures Resume(Cons(frame, p), q) == Cons(frame, Resume(p, q))
  {
  }

  /** Parsing can stop anywhere and go on from its own remainder. */
  lemma {:induction false} ParseResumes(m: Mode, max: nat, a: seq<Byte>, b: seq<Byte>)
    requires HeaderDetermined(m) && Framing(m)
    ensures var p := Parse(m, max, a);
            Parse(m, max, a + b) ==
            if p.failed then p.(rest := p.rest + b) else Resume(p, Parse(m, max, p.rest + b))
    decreases |a|
  {
    if a != [] && m.headerLen <= |a| {
      EventLenOfPrefix(m, a, a + b);
      var k := EventLen(m, a) + m.headerLen;
      if 0 <= EventLen(m, a) && k <= max && k <= |a| {
        var head, tail := a[..k], a[k..];
        assert (a + b)[k..] == tail + b && (a + b)[..k] == head;
        assert Parse(m, max, a) == Cons(head, Parse(m, max, tail));
        assert Parse(m, max, a + b) == Cons(head, Parse(m, max, tail + b));
        hide Parse, Resume, Cons, EventLen;
        ParseResumes(m, max, tail, b);
        var p := Parse(m, max, tail);
        ResumeCons(head, p, Parse(m, max, p.rest + b));
        ConsKeeps(head, p);
        ConsKeeps(head, p.(rest := p.rest + b));
      }
    }
  }

  lemma ConsKeeps(frame: seq<Byte>, p: Parsed)
    ensures Cons(frame, p).rest == p.rest && Cons(frame, p).failed == p.failed
    ensures Cons(frame, p).(rest := p.rest) == Cons(frame, p)
    ensures forall r :: Cons(frame, p.(rest := r)) == Cons(frame, p).(rest := r)
  {
  }

  /** Everything the stream holds, in order. */
  function Covered(p: Parsed): seq<Byte> {
    Concat(p.frames) + p.rest
  }

  lemma CoveredCons(frame: seq<Byte>, p: Parsed)
    ensures Covered(Cons(frame, p)) == frame + Covered(p)
  {
    assert ([frame] + p.frames)[1..] == p.frames;
    assert frame + (Concat(p.frames) + p.rest) == (frame + Concat(p.frames)) + p.rest;
  }

  /** The remainder is not yet a frame, and the parse covers the stream. */
  lemma {:induction false} ParseCovers(m: Mode, max: nat, s: seq<Byte>)
    ensures var p := Parse(m, max, s);
            && Covered(p) == s
            && Parse(m, max, p.rest) == Parsed([], p.rest, p.failed)
            && (!p.failed && p.rest != [] ==> |p.rest| < m.headerLen || |p.rest| < EventLen(m, p.rest) + m.headerLen)
    decreases |s|
  {
    if s != [] && m.headerLen <= |s| {
      var k := EventLen(m, s) + m.headerLen;
      if 0 <= EventLen(m, s) && k <= max && k <= |s| {
        assert Parse(m, max, s) == Cons(s[..k], Parse(m, max, s[k..]));
        hide Parse, Covered;
        ParseCovers(m, max, s[k..]);
        CoveredCons(s[..k], Parse(m, max, s[k..]));
        assert s == s[..k] + s[k..];
      }
    }
  }

  // ----- one call against the parser

  /** Outcome `o` of a call agrees with `p`, the parse of the bytes the call had to work on. */
  ghost predicate Matches(m: Mode, p: Parsed, o: Outcome) {
    if p.failed then
      p.frames <= o.frames && FellBack(o.state) && o.state.error != NoError
    else
      && o.frames == p.frames && o.state.mode == m && o.state.error == NoError
      && |o.state.parked| == |p.rest|
      && (Uncut(m, p) ==> o.state.parked == p.rest)
  }

  /** The stream so far does not end inside a header, except behind its first byte. */
  predicate Uncut(m: Mode, p: Parsed) {
    p.failed || |p.rest| <= 1 || m.headerLen <= |p.rest|
  }

  lemma MatchesCons(m: Mode, frame: seq<Byte>, p: Parsed, o: Outcome)
    requires Matches(m, p, o)
    ensures Matches(m, Cons(frame, p), Prepend(frame, o))
  {
  }

  lemma MatchesFailure(m: Mode, frame: seq<Byte>, p: Parsed, o: Outcome)
    requires p.failed && p.frames == [] && FellBack(o.state) && o.state.error != NoError
    ensures Matches(m, p, Prepend(frame, o))
  {
  }

  lemma MatchesParked(s: State, data: seq<Byte>, n: nat)
    requires Valid(s) && s.parked == [] && s.error == NoError && |data| <= |s.stale| + 1
    ensures data != [] ==> Matches(s.mode, Parsed([], data, false), Outcome(Park(s, data), [], n))
    ensures Matches(s.mode, Parsed([], data, false), Outcome(ParkShort(s, data), [], n)) || s.mode.headerLen <= |data|
  {
  }

  lemma ParseShort(m: Mode, max: nat, s: seq<Byte>)
    ensures s == [] || |s| < m.headerLen ==> Parse(m, max, s) == Parsed([], s, false)
  {
  }

  lemma {:induction false} LoopMatches(s: State, data: seq<Byte>, counts: nat -> nat, n: nat)
    requires Valid(s) && s.parked == [] && Framing(s.mode) && s.error == NoError && s.queueLimit == 0
    ensures Matches(s.mode, Parse(s.mode, s.maxFrameLen, data), Loop(s, data, counts, n))
    decreases |data|
  {
    hide Loop, Parse, Decide, EventLen, Matches, Valid, Framing, FellBack, Park;
    LoopOnce(s, data, counts, n);
    ParseShort(s.mode, s.maxFrameLen, data);
    if data == [] || |data| < s.mode.headerLen {
      MatchesParked(s, data, n);
      MatchesEmpty(s, n);
    } else {
      JudgeFacts(s, data);
      ParseOnce(s.mode, s.maxFrameLen, data);
      var v, p := Judge(s, data), Parse(s.mode, s.maxFrameLen, data);
      var s', k := s.(mode := v.mode, error := v.error), v.FrameLen();
      if |data| < k {
        MatchesParked(s, data, n);
      } else if v.error == NoError {
        LoopMatches(s, data[k..], counts, n + 1);
        MatchesCons(s.mode, data[..k], Parse(s.mode, s.maxFrameLen, data[k..]), Loop(s, data[k..], counts, n + 1));
      } else {
        NullLoopFallsBack(s', data[k..], counts, n + 1);
        MatchesFailure(s.mode, data[..k], p, Loop(s', data[k..], counts, n + 1));
      }
    }
  }

  lemma MatchesEmpty(s: State, n: nat)
    requires s.parked == [] && s.error == NoError
    ensures Matches(s.mode, Parsed([], [], false), Outcome(ParkShort(s, []), [], n))
  {
  }

  lemma NullLoopFallsBack(s: State, data: seq<Byte>, counts: nat -> nat, n: nat)
    requires Valid(s) && s.parked == [] && s.mode == NULL_MODE
    requires s.error in {GetFrameLengthFailed, ExceedMaxFrameLength}
    ensures var o := Loop(s, data, counts, n);
            FellBack(o.state) && o.state.error != NoError
  {
    LoopFallsBack(s, data, counts, n);
    LoopFrames(s, data, counts, n);
  }

  /** Completing the parked frame is one step of the parser. */
  lemma FirstPhaseParses(s: State, data: seq<Byte>, count: nat)
    requires Valid(s) && s.parked != [] && Framing(s.mode) && s.error == NoError && s.queueLimit == 0
    requires s.mode.headerLen <= |s.parked + data| && data != []
    ensures var all, f := s.parked + data, PhaseOne(s, data, count);
            var p := Parse(s.mode, s.maxFrameLen, all);
            match f.used
            case None => f.state.parked == all && p == Parsed([], all, false)
            case Some(n) =>
              if f.state.error == NoError then
                f.state.mode == s.mode && p == Cons(f.frames[0], Parse(s.mode, s.maxFrameLen, data[n..]))
              else
                p.failed && p.frames == [] && f.state.mode == NULL_MODE
                && f.state.error in {GetFrameLengthFailed, ExceedMaxFrameLength}
  {
    hide Parse, EventLen, PhaseOne, Merged, Valid, HeaderDetermined, Framing, Cons;
    ValidBounds(s);
    var all, merged := s.parked + data, Merged(s, data);
    MergedFacts(s, data);
    EventLenOfPrefix(s.mode, merged, all);
    PhaseOneByLength(s, data, count);
    ParseOnce(s.mode, s.maxFrameLen, all);
    var k := EventLen(s.mode, all) + s.mode.headerLen;
    if |s.parked| <= k <= |merged| { CutAt(s.parked, data, merged, k); }
  }

  lemma RecvMatches(s: State, data: seq<Byte>, counts: nat -> nat)
    requires Valid(s) && Framing(s.mode) && s.error == NoError && s.queueLimit == 0
    requires data != [] && (s.parked == [] || s.mode.headerLen <= |s.parked + data|)
    ensures Matches(s.mode, Parse(s.mode, s.maxFrameLen, s.parked + data), Recv(s, data, counts))
  {
    RecvByPhases(s, data, counts);
    if s.parked == [] {
      assert s.parked + data == data;
      LoopMatches(s, data, counts, 0);
    } else {
      FirstPhaseParses(s, data, counts(0));
      PhaseOneFacts(s, data, counts(0));
      var m, f := s.mode, PhaseOne(s, data, counts(0));
      var all := Parse(m, s.maxFrameLen, s.parked + data);
      hide Recv, Loop, PhaseOne, Parse, Matches;
      match f.used {
        case None => MatchesKept(m, all, Outcome(f.state, [], 0));
        case Some(n) =>
          var tail := data[n..];
          var o := Loop(f.state, tail, counts, 1);
          NoMoreData(f.state, counts);
          if f.state.error != NoError {
            NullLoopFallsBack(f.state, tail, counts, 1);
            MatchesFailure(m, f.frames[0], all, o);
          } else {
            LoopMatches(f.state, tail, counts, 1);
            MatchesCons(m, f.frames[0], Parse(m, s.maxFrameLen, tail), o);
          }
      }
    }
  }

  lemma MatchesKept(m: Mode, p: Parsed, o: Outcome)
    requires !p.failed && p.frames == [] && o.frames == [] && o.state.mode == m && o.state.error == NoError
    requires o.state.parked == p.rest
    ensures Matches(m, p, o)
  {
  }

  lemma NoMoreData(s: State, counts: nat -> nat)
    requires Valid(s) && s.parked == []
    ensures Loop(s, [], counts, 1) == Outcome(s, [], 1)
  {
  }

  // ----- runs against the parser

  /** State and frames are what the parser makes of the stream so far. */
  ghost predicate Follows(m: Mode, max: nat, stream: seq<Byte>, s: State, frames: seq<seq<Byte>>) {
    var p := Parse(m, max, stream);
    if p.failed then
      p.frames <= frames && Concat(frames) == stream && FellBack(s) && s.error != NoError
    else
      frames == p.frames && s.parked == p.rest && s.mode == m && s.error == NoError
  }

  /** Neither before nor after this chunk is a header cut where the framer would lose bytes. */
  predicate CutsWell(m: Mode, max: nat, stream: seq<Byte>, data: seq<Byte>) {
    var p := Parse(m, max, stream);
    && Uncut(m, Parse(m, max, stream + data))
    && (p.failed || p.rest == [] || m.headerLen <= |p.rest + data|)
  }

  lemma ShortHeadersCutWell(m: Mode, max: nat, stream: seq<Byte>, data: seq<Byte>)
    requires m.headerLen <= 2 && data != []
    ensures CutsWell(m, max, stream, data)
  {
    ParseCovers(m, max, stream + data);
  }

  lemma FollowsOn(m: Mode, stream: seq<Byte>, s: State, frames: seq<seq<Byte>>,
                  data: seq<Byte>, counts: nat -> nat)
    requires Valid(s) && s.queueLimit == 0 && Framing(m) && HeaderDetermined(m)
    requires Follows(m, s.maxFrameLen, stream, s, frames)
    requires data != [] && CutsWell(m, s.maxFrameLen, stream, data)
    ensures var o := Recv(s, data, counts);
            Follows(m, s.maxFrameLen, stream + data, o.state, frames + o.frames)
  {
    var max := s.maxFrameLen;
    var p, o := Parse(m, max, stream), Recv(s, data, counts);
    ParseResumes(m, max, stream, data);
    ParseCovers(m, max, stream);
    if p.failed {
      FallbackEchoes(s, data, counts);
      ConcatSnoc(frames, data);
    } else {
      RecvMatches(s, data, counts);
      var q := Parse(m, max, p.rest + data);
      if q.failed {
        RecvAccounts(s, data, counts);
        AllBytesOut(o, s.parked, data, frames);
      }
    }
  }

  lemma AllBytesOut(o: Outcome, parked: seq<Byte>, data: seq<Byte>, frames: seq<seq<Byte>>)
    requires Accounts(parked + data, o) && 0 <= o.ret && o.state.parked == []
    ensures Concat(frames + o.frames) == (Concat(frames) + parked) + data
  {
    ConcatAppend(frames, o.frames);
    assert Concat(o.frames) == parked + data;
  }

  // ----- which error a bad length sets

  /** A chunk in the null framer: one frame, and an error only if that is too long. */
  lemma NullLoopCode(s: State, data: seq<Byte>, counts: nat -> nat, n: nat)
    requires Valid(s) && s.parked == [] && s.mode == NULL_MODE && s.queueLimit == 0
    ensures Loop(s, data, counts, n).state.error == if |data| <= s.maxFrameLen then s.error else ExceedMaxFrameLength
  {
    LoopOnce(s, data, counts, n);
    if data != [] {
      JudgeCode(s, data);
      JudgeFacts(s, data);
      var v := Judge(s, data);
      var s' := s.(mode := v.mode, error := v.error);
      assert data[|data|..] == [];
      LoopOnce(s', [], counts, n + 1);
    }
  }

  /**
   The frames in which a call gives up on framing are within the maximum. `p` is the parse of what the call had to
   work on, and `resumed` says that some of it was parked: then the work buffer may have been too small for
   all of it, and there are two frames.
   */
  predicate GivesUpWithin(max: nat, p: Parsed, resumed: bool) {
    || |p.rest| <= max
    || (resumed && p.frames == [] && max == BUFF_SIZE && |p.rest| <= 2 * BUFF_SIZE)
  }

  /** The error code by the parse: of the length at the parser's first bad frame, or of the frame given up with. */
  function CodeOf(m: Mode, max: nat, p: Parsed, resumed: bool): ErrorCode {
    if !p.failed then NoError
    else if EventLen(m, p.rest) < 0 && GivesUpWithin(max, p, resumed) then GetFrameLengthFailed
    else ExceedMaxFrameLength
  }

  lemma CodeOfCons(m: Mode, max: nat, frame: seq<Byte>, p: Parsed)
    ensures CodeOf(m, max, Cons(frame, p), false) == CodeOf(m, max, p, false)
    ensures CodeOf(m, max, Cons(frame, p), true) == CodeOf(m, max, p, false)
  {
  }

  lemma {:induction false} LoopCode(s: State, data: seq<Byte>, counts: nat -> nat, n: nat)
    requires Valid(s) && s.parked == [] && Framing(s.mode) && s.error == NoError && s.queueLimit == 0
    ensures Loop(s, data, counts, n).state.error ==
            CodeOf(s.mode, s.maxFrameLen, Parse(s.mode, s.maxFrameLen, data), false)
    decreases |data|
  {
    hide Loop, Parse, Decide, EventLen, Valid, Framing;
    LoopOnce(s, data, counts, n);
    ParseShort(s.mode, s.maxFrameLen, data);
    if data != [] && s.mode.headerLen <= |data| {
      JudgeFacts(s, data);
      JudgeCode(s, data);
      ParseOnce(s.mode, s.maxFrameLen, data);
      var v := Judge(s, data);
      var s', k := s.(mode := v.mode, error := v.error), v.FrameLen();
      if v.error == NoError && k <= |data| {
        LoopCode(s, data[k..], counts, n + 1);
        CodeOfCons(s.mode, s.maxFrameLen, data[..k], Parse(s.mode, s.maxFrameLen, data[k..]));
      } else if v.error != NoError {
        NullLoopCode(s', data[k..], counts, n + 1);
      }
    }
  }

  /** The first phase by the parse: a frame, nothing yet, or the code of a bad length and a frame to give up with. */
  lemma FirstPhaseCode(s: State, data: seq<Byte>, count: nat)
    requires Valid(s) && s.parked != [] && Framing(s.mode) && s.error == NoError && s.queueLimit == 0
    requires s.mode.headerLen <= |s.parked + data| && data != []
    ensures var all, f := s.parked + data, PhaseOne(s, data, count);
            var p, given := Parse(s.mode, s.maxFrameLen, all), Min(|all|, BUFF_SIZE);
            f.state.error != NoError ==>
              && p == Parsed([], all, true) && f.used == Some(given - |s.parked|) && f.state.mode == NULL_MODE
              && f.state.error == (if EventLen(s.mode, all) < 0 && given <= s.maxFrameLen then GetFrameLengthFailed
                                   else ExceedMaxFrameLength)
  {
    hide Parse, EventLen, PhaseOne, Merged, Valid, HeaderDetermined, Framing;
    ValidBounds(s);
    var all, merged := s.parked + data, Merged(s, data);
    MergedFacts(s, data);
    MergedSize(s, data);
    EventLenOfPrefix(s.mode, merged, all);
    PhaseOneByLength(s, data, count);
    PhaseOneFacts(s, data, count);
    ParseOnce(s.mode, s.maxFrameLen, all);
  }

  lemma MergedSize(s: State, data: seq<Byte>)
    requires |s.parked| <= BUFF_SIZE
    ensures |Merged(s, data)| == Min(|s.parked + data|, BUFF_SIZE)
  {
  }

  /**
   Which error a call sets. With old remainder and chunk together within the maximum: GetFrameLengthFailed if and only
   if the length at the parser's first bad frame is negative, ExceedMaxFrameLength if and only if that
   length and the header exceed the maximum. With more bytes the frame given up with may be too long,
   which overrides the first of these; exactly when is `GivesUpWithin`.
   */
  lemma RecvCode(s: State, data: seq<Byte>, counts: nat -> nat)
    requires Valid(s) && Framing(s.mode) && s.error == NoError && s.queueLimit == 0
    requires data != [] && (s.parked == [] || s.mode.headerLen <= |s.parked + data|)
    ensures var p := Parse(s.mode, s.maxFrameLen, s.parked + data);
            var e, error := EventLen(s.mode, p.rest), Recv(s, data, counts).state.error;
            && error == CodeOf(s.mode, s.maxFrameLen, p, s.parked != [])
            && (p.failed && |s.parked + data| <= s.maxFrameLen ==>
                  && (error == GetFrameLengthFailed <==> e < 0)
                  && (error == ExceedMaxFrameLength <==> e + s.mode.headerLen > s.maxFrameLen))
  {
    var m, max, all := s.mode, s.maxFrameLen, s.parked + data;
    var p := Parse(m, max, all);
    RecvByPhases(s, data, counts);
    ParseFailure(m, max, all);
    hide Recv, Loop, PhaseOne, Parse;
    if s.parked == [] {
      assert all == data;
      LoopCode(s, data, counts, 0);
    } else {
      FirstPhaseParses(s, data, counts(0));
      FirstPhaseCode(s, data, counts(0));
      PhaseOneFacts(s, data, counts(0));
      var f := PhaseOne(s, data, counts(0));
      if f.used.Some? {
        var tail := data[f.used.value..];
        NoMoreData(f.state, counts);
        if f.state.error != NoError {
          NullLoopCode(f.state, tail, counts, 1);
        } else {
          LoopCode(f.state, tail, counts, 1);
          CodeOfCons(m, max, f.frames[0], Parse(m, max, tail));
        }
      }
    }
  }

  /** What the parser stops at is a bad length, and it is not longer than the stream. */
  lemma {:induction false} ParseFailure(m: Mode, max: nat, s: seq<Byte>)
    ensures var p := Parse(m, max, s);
            && |p.rest| <= |s|
            && (p.failed ==> EventLen(m, p.rest) < 0 || EventLen(m, p.rest) + m.headerLen > max)
            && (p.failed ==> m.headerLen <= |p.rest|)
    decreases |s|
  {
    if s != [] && m.headerLen <= |s| {
      var k := EventLen(m, s) + m.headerLen;
      if 0 <= EventLen(m, s) && k <= max && k <= |s| && 0 < k { ParseFailure(m, max, s[k..]); }
    }
  }

  /** A framer about to start a run. */
  ghost predicate Ready(s: State) {
    Valid(s) && s.parked == [] && s.error == NoError && s.queueLimit == 0 && Framing(s.mode)
  }

  /** No chunk boundary cuts a header where the framer would lose bytes. */
  predicate HeadersUncut(m: Mode, max: nat, chunks: seq<seq<Byte>>) {
    m.headerLen <= 2 ||
    forall i :: 0 <= i < |chunks| && chunks[i] != [] ==> CutsWell(m, max, Concat(chunks[..i]), chunks[i])
  }

  lemma UncutBefore(m: Mode, max: nat, chunks: seq<seq<Byte>>)
    requires HeadersUncut(m, max, chunks) && chunks != []
    ensures var before, last := chunks[..|chunks| - 1], chunks[|chunks| - 1];
            HeadersUncut(m, max, before) && (last != [] ==> CutsWell(m, max, Concat(before), last))
  {
    var before, last := chunks[..|chunks| - 1], chunks[|chunks| - 1];
    if m.headerLen <= 2 {
      if last != [] { ShortHeadersCutWell(m, max, Concat(before), last); }
    } else {
      assert forall i :: 0 <= i < |before| ==> before[..i] == chunks[..i];
    }
  }

  /**
   Chunking exactness, for every stream, good or bad, and every way of cutting it: up to the first
   length error the frames are the parser's and the remainder is parked; from the error on every
   byte still comes out, in order, and nothing is parked.
   */
  lemma {:induction false} RunFollowsParser(s: State, chunks: seq<seq<Byte>>, c: nat)
    requires Ready(s) && HeadersUncut(s.mode, s.maxFrameLen, chunks)
    ensures var r := RecvAll(s, chunks, c);
            Follows(s.mode, s.maxFrameLen, Concat(chunks), r.state, r.frames)
    decreases |chunks|
  {
    hide Recv, RecvAll, Parse, Follows, Valid, Framing, CutsWell, HeadersUncut, Concat;
    if chunks == [] {
      NothingFollows(s, c);
    } else {
      var before, last := chunks[..|chunks| - 1], chunks[|chunks| - 1];
      assert chunks == before + [last];
      var p := RecvAll(s, before, c);
      UncutBefore(s.mode, s.maxFrameLen, chunks);
      RunFollowsParser(s, before, c);
      RecvAllSnoc(s, before, last, c);
      ConcatSnoc(before, last);
      FollowsFed(s, p, Concat(before), last, c);
    }
  }

  lemma NothingFollows(s: State, c: nat)
    requires Ready(s)
    ensures Concat([]) == [] && RecvAll(s, [], c) == Run(s, [])
    ensures Follows(s.mode, s.maxFrameLen, [], s, [])
  {
    NothingFed(s, c);
    hide Recv, RecvAll, Valid, Framing;
  }

  lemma FollowsFed(s: State, p: Run, stream: seq<Byte>, last: seq<Byte>, c: nat)
    requires Ready(s) && Valid(p.state) && SameSetup(s, p.state)
    requires Follows(s.mode, s.maxFrameLen, stream, p.state, p.frames)
    requires last != [] ==> CutsWell(s.mode, s.maxFrameLen, stream, last)
    ensures var r := if last == [] then p
                     else
                       var o := Recv(p.state, last, CountsFrom(c + |p.frames|));
                       Run(o.state, p.frames + o.frames);
            Follows(s.mode, s.maxFrameLen, stream + last, r.state, r.frames)
  {
    hide Recv, Parse, Follows, CutsWell;
    if last == [] {
      assert stream + last == stream;
    } else {
      FollowsOn(s.mode, stream, p.state, p.frames, last, CountsFrom(c + |p.frames|));
    }
  }

  /** The frames given up with when the chunk `data` follows the bytes `stream` are within the maximum. */
  predicate StaysWithin(m: Mode, max: nat, stream: seq<Byte>, data: seq<Byte>) {
    var p := Parse(m, max, stream);
    if p.failed then |data| <= max
    else
      var q := Parse(m, max, p.rest + data);
      q.failed ==> GivesUpWithin(max, q, p.rest != [])
  }

  predicate AllWithin(m: Mode, max: nat, chunks: seq<seq<Byte>>) {
    chunks == [] ||
    var before, last := chunks[..|chunks| - 1], chunks[|chunks| - 1];
    AllWithin(m, max, before) && (last == [] || StaysWithin(m, max, Concat(before), last))
  }

  lemma {:induction false} WithinWhileGood(m: Mode, max: nat, chunks: seq<seq<Byte>>)
    requires HeaderDetermined(m) && Framing(m) && !Parse(m, max, Concat(chunks)).failed
    ensures AllWithin(m, max, chunks)
  {
    if chunks != [] {
      var before, last := chunks[..|chunks| - 1], chunks[|chunks| - 1];
      assert chunks == before + [last];
      ConcatSnoc(before, last);
      ParseResumes(m, max, Concat(before), last);
      hide Parse, HeaderDetermined, Framing, Concat;
      WithinWhileGood(m, max, before);
    }
  }

  /** The error code by the parse of a whole stream and its cutting. */
  function RunCodeOf(m: Mode, max: nat, chunks: seq<seq<Byte>>): ErrorCode {
    var p := Parse(m, max, Concat(chunks));
    if !p.failed then NoError
    else if EventLen(m, p.rest) < 0 && AllWithin(m, max, chunks) then GetFrameLengthFailed
    else ExceedMaxFrameLength
  }

  /** How the parse goes on with more bytes, as far as the error code is concerned. */
  lemma FailureGoesOn(m: Mode, max: nat, stream: seq<Byte>, data: seq<Byte>)
    requires HeaderDetermined(m) && Framing(m)
    ensures var p, r := Parse(m, max, stream), Parse(m, max, stream + data);
            var q := Parse(m, max, p.rest + data);
            if p.failed then r.failed && EventLen(m, r.rest) == EventLen(m, p.rest)
            else r.failed == q.failed && r.rest == q.rest
  {
    var p := Parse(m, max, stream);
    ParseResumes(m, max, stream, data);
    ParseFailure(m, max, stream);
    if p.failed { EventLenOfPrefix(m, p.rest, p.rest + data); }
  }

  lemma CodeAfterCall(s: State, st: State, chunks: seq<seq<Byte>>, last: seq<Byte>, counts: nat -> nat)
    requires Ready(s) && Valid(st) && SameSetup(s, st) && last != []
    requires var p := Parse(s.mode, s.maxFrameLen, Concat(chunks));
             if p.failed then FellBack(st) else st.parked == p.rest && st.mode == s.mode && st.error == NoError
    requires st.error == RunCodeOf(s.mode, s.maxFrameLen, chunks)
    requires CutsWell(s.mode, s.maxFrameLen, Concat(chunks), last)
    ensures Recv(st, last, counts).state.error == RunCodeOf(s.mode, s.maxFrameLen, chunks + [last])
  {
    var m, max := s.mode, s.maxFrameLen;
    var p := Parse(m, max, Concat(chunks));
    assert (chunks + [last])[..|chunks|] == chunks;
    ConcatSnoc(chunks, last);
    FailureGoesOn(m, max, Concat(chunks), last);
    hide Parse, Recv, Loop, EventLen, Decide, Concat;
    if p.failed {
      RecvByPhases(st, last, counts);
      NullLoopCode(st, last, counts, 0);
    } else {
      WithinWhileGood(m, max, chunks);
      RecvCode(st, last, counts);
    }
  }

  /**
   Which error a whole run of calls has set, for every stream and cutting: none while no length is bad; then
   GetFrameLengthFailed if and only if the first bad length is negative and no frame given up with, then or
   later, exceeds the maximum; otherwise ExceedMaxFrameLength.
   */
  lemma {:induction false} RunCode(s: State, chunks: seq<seq<Byte>>, c: nat)
    requires Ready(s) && HeadersUncut(s.mode, s.maxFrameLen, chunks)
    ensures RecvAll(s, chunks, c).state.error == RunCodeOf(s.mode, s.maxFrameLen, chunks)
    decreases |chunks|
  {
    hide Recv, RecvAll, Parse, Valid, Framing, CutsWell, HeadersUncut, Concat, RunCodeOf;
    if chunks == [] {
      NothingFed(s, c);
      NothingToGiveUp(s);
    } else {
      var before, last := chunks[..|chunks| - 1], chunks[|chunks| - 1];
      assert chunks == before + [last];
      UncutBefore(s.mode, s.maxFrameLen, chunks);
      RunCode(s, before, c);
      RunFollowsParser(s, before, c);
      RecvAllSnoc(s, before, last, c);
      var p := RecvAll(s, before, c);
      if last == [] {
        EmptyChunkKeepsCode(s.mode, s.maxFrameLen, before);
      } else {
        CodeAfterCall(s, p.state, before, last, CountsFrom(c + |p.frames|));
      }
    }
  }

  lemma NothingToGiveUp(s: State)
    requires Ready(s)
    ensures s.error == RunCodeOf(s.mode, s.maxFrameLen, [])
  {
  }

  lemma EmptyChunkKeepsCode(m: Mode, max: nat, chunks: seq<seq<Byte>>)
    ensures RunCodeOf(m, max, chunks + [[]]) == RunCodeOf(m, max, chunks)
  {
    assert (chunks + [[]])[..|chunks|] == chunks;
    ConcatSnoc(chunks, []);
    assert Concat(chunks) + [] == Concat(chunks);
  }

  /** Two ways of cutting the same stream: same frames, same remainder, and both agree on an error. */
  lemma {:induction false} ChunkingIndependent(s: State, chunks: seq<seq<Byte>>, chunks': seq<seq<Byte>>,
                                               c: nat, c': nat)
    requires Ready(s) && s.mode.headerLen <= 2 && Concat(chunks) == Concat(chunks')
    ensures var r, r' := RecvAll(s, chunks, c), RecvAll(s, chunks', c');
            var p := Parse(s.mode, s.maxFrameLen, Concat(chunks));
            && r.state.parked == r'.state.parked
            && (p.failed <==> r.state.error != NoError) && (p.failed <==> r'.state.error != NoError)
            && (!p.failed ==> r.frames == r'.frames == p.frames && r.state.parked == p.rest)
            && (p.failed ==> p.frames <= r.frames && p.frames <= r'.frames
                             && Concat(r.frames) == Concat(r'.frames) == Concat(chunks))
  {
    RunFollowsParser(s, chunks, c);
    RunFollowsParser(s, chunks', c');
  }

  // ----- long headers

  /** Whatever the stream, its cutting and the length function, good streams come out as parsed. */
  ghost predicate ExactForHeader(h: nat) {
    forall m: Mode, max: Uint32, chunks |
      m.headerLen == h && Ready(Fresh(m, max, 0)) && !Parse(m, max, Concat(chunks)).failed ::
      RecvAll(Fresh(m, max, 0), chunks, 0).frames == Parse(m, max, Concat(chunks)).frames
  }

  function OneByteEvents(): LengthFunc {
    (s: seq<Byte>, h: nat) => 1
  }

  function Ones(n: nat): (s: seq<Byte>)
    ensures |s| == n
  {
    seq(n, i => 1)
  }

  /** Cutting a header of three or more bytes behind its second byte replaces that byte. */
  lemma LongHeadersBreak(h: nat)
    requires 3 <= h < BUFF_SIZE
    ensures var m := Mode(Some(OneByteEvents()), h, 0);
            var chunks := [Ones(2), Ones(h - 1)];
            && Ready(Fresh(m, h + 1, 0)) && Concat(chunks) == Ones(h + 1)
            && Parse(m, h + 1, Ones(h + 1)) == Parsed([Ones(h + 1)], [], false)
            && RecvAll(Fresh(m, h + 1, 0), chunks, 0).frames == [[1, 0] + Ones(h - 1)]
  {
    var m := Mode(Some(OneByteEvents()), h, 0);
    var s0, a, b := Fresh(m, h + 1, 0), Ones(2), Ones(h - 1);
    var s1 := ParkShort(s0, a);
    assert AgreesOnHeader(m.lengthFunc.value, h, a);
    OnesParse(h);
    FirstChunkBreaks(s0, a);
    SecondChunkBreaks(s1, b, CountsFrom(0));
    hide Recv, RecvAll, Parse, Valid, ParkShort, Concat, Ones, HeaderDetermined;
    NothingFed(s0, 0);
    RecvAllSnoc(s0, [], a, 0);
    RecvAllSnoc(s0, [a], b, 0);
    assert [] + [a] == [a] && [a] + [b] == [a, b];
    ConcatSnoc([a], b);
    ConcatOne(a);
  }

  lemma OnesParse(h: nat)
    requires 3 <= h
    ensures Ones(2) + Ones(h - 1) == Ones(h + 1)
    ensures Parse(Mode(Some(OneByteEvents()), h, 0), h + 1, Ones(h + 1)) == Parsed([Ones(h + 1)], [], false)
  {
    assert Ones(h + 1)[..h + 1] == Ones(h + 1) && Ones(h + 1)[h + 1..] == [];
  }

  lemma FirstChunkBreaks(s: State, a: seq<Byte>)
    requires Valid(s) && s.parked == [] && 3 <= s.mode.headerLen && a == Ones(2)
    requires s.stale == Zeros(BUFF_SIZE - 1)
    ensures Recv(s, a, CountsFrom(0)) == Outcome(ParkShort(s, a), [], 0)
    ensures ParkShort(s, a).parked == [1, 0] && Valid(ParkShort(s, a))
  {
    assert s.stale[..1] == [0];
  }

  lemma SecondChunkBreaks(s: State, b: seq<Byte>, counts: nat -> nat)
    requires Valid(s) && s.parked == [1, 0] && s.queueLimit == 0 && |b| == s.mode.headerLen - 1
    requires s.mode.lengthFunc == Some(OneByteEvents()) && s.mode.headerLen + 1 == s.maxFrameLen
    ensures Recv(s, b, counts).frames == [[1, 0] + b]
  {
    var merged := Merged(s, b);
    assert b[..|b|] == b && merged == [1, 0] + b;
    assert EventLen(s.mode, merged) == 1;
    assert merged[..|merged|] == merged;
  }

  /** The framer is exact for every cutting of every good stream if and only if headers have at most two bytes. */
  lemma ExactIffShortHeader(h: nat)
    requires h < BUFF_SIZE
    ensures ExactForHeader(h) <==> h <= 2
  {
    if h <= 2 {
      forall m: Mode, max: Uint32, chunks |
        m.headerLen == h && Ready(Fresh(m, max, 0)) && !Parse(m, max, Concat(chunks)).failed
        ensures RecvAll(Fresh(m, max, 0), chunks, 0).frames == Parse(m, max, Concat(chunks)).frames
      {
        RunFollowsParser(Fresh(m, max, 0), chunks, 0);
      }
    } else {
      LongHeadersBreak(h);
      var m := Mode(Some(OneByteEvents()), h, 0);
      var chunks := [Ones(2), Ones(h - 1)];
      assert ([1, 0] + Ones(h - 1))[1] != Ones(h + 1)[1];
      assert RecvAll(Fresh(m, h + 1, 0), chunks, 0).frames != Parse(m, h + 1, Concat(chunks)).frames;
    }
  }

  // ----- fixed-length frames in closed form

  /** Where frame `i` begins. */
  function Offset(k: nat, i: nat): nat {
    k * i
  }

  lemma OffsetStep(k: nat, i: nat)
    ensures Offset(k, 0) == 0 && Offset(k, i + 1) == k + Offset(k, i)
  {
  }

  predicate Piece(s: seq<Byte>, at: nat, k: nat, frame: seq<Byte>) {
    at + k <= |s| && frame == s[at..at + k]
  }

  /** Whole frames of `k` bytes and a shorter rest, each by its position in the stream. */
  predicate CutEvery(k: nat, s: seq<Byte>, frames: seq<seq<Byte>>, rest: seq<Byte>) {
    && |s| == Offset(k, |frames|) + |rest| && |rest| < k
    && (forall i :: 0 <= i < |frames| ==> Piece(s, Offset(k, i), k, frames[i]))
    && rest == s[|s| - |rest|..]
  }

  lemma {:induction false} ParseFixed(m: Mode, max: nat, s: seq<Byte>)
    requires (m.lengthFunc == None || m.headerLen == 0) && 0 < m.fixedLen < 0x8000_0000
    requires m.fixedLen + m.headerLen <= max
    ensures !Parse(m, max, s).failed
    ensures CutEvery(m.fixedLen + m.headerLen, s, Parse(m, max, s).frames, Parse(m, max, s).rest)
    decreases |s|
  {
    hide CutEvery;
    var k := m.fixedLen + m.headerLen;
    if |s| < k {
      CutNone(k, s);
    } else {
      ParseFixed(m, max, s[k..]);
      CutOneMore(k, s, Parse(m, max, s[k..]));
    }
  }

  lemma CutNone(k: nat, s: seq<Byte>)
    requires |s| < k
    ensures CutEvery(k, s, [], s)
  {
    OffsetStep(k, 0);
  }

  lemma PieceShifts(s: seq<Byte>, at: nat, k: nat, frame: seq<Byte>)
    requires k <= |s| && Piece(s[k..], at, k, frame)
    ensures Piece(s, k + at, k, frame)
  {
  }

  lemma CutOneMore(k: nat, s: seq<Byte>, p: Parsed)
    requires 0 < k <= |s| && CutEvery(k, s[k..], p.frames, p.rest)
    ensures CutEvery(k, s, [s[..k]] + p.frames, p.rest)
  {
    hide Offset, Piece;
    var frames := [s[..k]] + p.frames;
    OffsetStep(k, |p.frames|);
    forall i | 0 <= i < |frames|
      ensures Piece(s, Offset(k, i), k, frames[i])
    {
      if i == 0 {
        FirstPiece(s, k);
      } else {
        OffsetStep(k, i - 1);
        PieceShifts(s, Offset(k, i - 1), k, p.frames[i - 1]);
      }
    }
  }

  lemma FirstPiece(s: seq<Byte>, k: nat)
    requires k <= |s|
    ensures Piece(s, 0, k, s[..k])
  {
  }

  /**
   Fixed-length framing, however the stream is cut. Frames have F bytes, the fixed length and a header length given
   without a length function added: frame i is bytes i*F to (i+1)*F of the stream, and fewer than F
   bytes, the last ones, are parked.
   */
  lemma FixedFrames(s: State, chunks: seq<seq<Byte>>, c: nat)
    requires Ready(s) && s.mode.headerLen <= 2 && (s.mode.lengthFunc == None || s.mode.headerLen == 0)
    requires 0 < s.mode.fixedLen && s.mode.fixedLen + s.mode.headerLen <= s.maxFrameLen
    ensures var r, k := RecvAll(s, chunks, c), s.mode.fixedLen + s.mode.headerLen;
            CutEvery(k, Concat(chunks), r.frames, r.state.parked) && r.state.error == NoError
  {
    hide CutEvery;
    ParseFixed(s.mode, s.maxFrameLen, Concat(chunks));
    RunFollowsParser(s, chunks, c);
  }
}
