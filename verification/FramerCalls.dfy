/** What every single call of the framer does, whatever the mode, the chunk and the consumers. */
module FramerCalls {
  import opened Bytes
  import opened FramerSpec

  // ----- accounting for bytes

  /** The parked bytes are a copy: either the header is complete, or at most its first byte is parked. */
  predicate HeadKept(s: State) {
    |s.parked| <= 1 || s.mode.headerLen <= |s.parked|
  }

  /** What a call hands on: its frames, then what it still holds. */
  function Output(o: Outcome): seq<Byte> {
    Concat(o.frames) + o.state.parked
  }

  /** `o` turns the bytes `input` into frames and a parked remainder. */
  predicate Accounts(input: seq<Byte>, o: Outcome) {
    && (o.ret < 0 ==> Concat(o.frames) <= input && o.state.parked == [])
    && (0 <= o.ret ==> |Output(o)| == |input|)
    && (0 <= o.ret && HeadKept(o.state) ==> Output(o) == input)
  }

  lemma AccountsPrepend(frame: seq<Byte>, input: seq<Byte>, o: Outcome)
    requires Accounts(input, o)
    ensures Accounts(frame + input, Prepend(frame, o))
  {
    assert ([frame] + o.frames)[1..] == o.frames;
    assert Concat([frame] + o.frames) == frame + Concat(o.frames);
    assert Output(Prepend(frame, o)) == frame + Output(o);
  }

  lemma KeptAccounts(data: seq<Byte>, o: Outcome)
    requires o.frames == [] && 0 <= o.ret && |o.state.parked| == |data|
    requires HeadKept(o.state) ==> o.state.parked == data
    ensures Accounts(data, o)
  {
    assert Output(o) == o.state.parked;
  }

  lemma ParkAccounts(s: State, data: seq<Byte>, n: nat)
    requires s.parked == [] && |data| <= |s.stale| + 1
    ensures data != [] ==> Accounts(data, Outcome(Park(s, data), [], n))
    ensures |data| < s.mode.headerLen || data == [] ==> Accounts(data, Outcome(ParkShort(s, data), [], n))
  {
    hide Accounts;
    if data != [] { KeptAccounts(data, Outcome(Park(s, data), [], n)); }
    if |data| < s.mode.headerLen || data == [] {
      assert |data| == 1 ==> [data[0]] == data;
      KeptAccounts(data, Outcome(ParkShort(s, data), [], n));
    }
  }

  lemma {:induction false} LoopAccounts(s: State, data: seq<Byte>, counts: nat -> nat, n: nat)
    requires Valid(s) && s.parked == []
    ensures Accounts(data, Loop(s, data, counts, n))
    decreases |data|
  {
    hide Accounts, Loop, Decide, EventLen, Park, ParkShort;
    LoopOnce(s, data, counts, n);
    if data == [] || |data| < s.mode.headerLen {
      ParkAccounts(s, data, n);
    } else {
      var v := Judge(s, data);
      var s', k := s.(mode := v.mode, error := v.error), v.FrameLen();
      if |data| < k {
        ParkAccounts(s', data, n);
      } else if LimitHit(s', counts(n)) {
        TripAccounts(s', data, k);
      } else {
        LoopAccounts(s', data[k..], counts, n + 1);
        AccountsPrepend(data[..k], data[k..], Loop(s', data[k..], counts, n + 1));
        assert data == data[..k] + data[k..];
      }
    }
  }

  lemma TripAccounts(s: State, data: seq<Byte>, k: nat)
    requires s.parked == [] && k <= |data|
    ensures Accounts(data, Outcome(s.(error := ExceedFrameQueueCount), [data[..k]], -1))
  {
    ConcatOne(data[..k]);
  }

  /** The codes a call can set. */
  predicate NewCode(before: ErrorCode, after: ErrorCode) {
    after in {before, ExceedFrameQueueCount, GetFrameLengthFailed, ExceedMaxFrameLength}
  }

  /** The first phase splits old remainder and chunk into one frame and the unread part, or keeps all of it. */
  lemma PhaseOneFacts(s: State, data: seq<Byte>, count: nat)
    requires Valid(s) && s.parked != []
    ensures var f := PhaseOne(s, data, count);
            match f.used
            case None =>
              f.state.parked == s.parked + data && f.state.error == s.error && f.state.mode == s.mode
            case Some(n) =>
              && f.frames[0] != [] && f.frames[0] + data[n..] == s.parked + data
              && (f.state.error == NoError ==> s.error == NoError && |f.frames[0]| <= s.maxFrameLen)
              && NewCode(s.error, f.state.error)
              && (FallsBackOnError(s) ==> FallsBackOnError(f.state))
  {
    hide Decide, EventLen, Valid, Completes, Used, FirstFrame, AfterFirst, PhaseOne, Merged;
    ValidBounds(s);
    PhaseOneCases(s, data, count);
    FirstPhase(s, data, count);
    FirstPhaseLength(s, data);
    MergedFacts(s, data);
    JudgeFacts(s, Merged(s, data));
    var k := Judge(s, Merged(s, data)).FrameLen();
    if k <= |Merged(s, data)| {
      CutAt(s.parked, data, Merged(s, data), k);
    }
  }

  lemma FrameAccounts(frame: seq<Byte>, s: State)
    requires s.parked == []
    ensures Accounts(frame, Outcome(s, [frame], 1))
  {
    ConcatOne(frame);
  }

  lemma ParkedAccounts(s: State)
    ensures Accounts(s.parked, Outcome(s, [], 0))
  {
  }

  /**
   One call loses nothing, duplicates nothing and reorders nothing: frames and remainder are the old
   remainder followed by the chunk, byte for byte when the saved header is a copy, and always in
   number. Only giving up on the frame-queue limit drops bytes, and then the frames are a prefix.
   */
  lemma RecvAccounts(s: State, data: seq<Byte>, counts: nat -> nat)
    requires Valid(s)
    ensures Accounts(s.parked + data, Recv(s, data, counts))
  {
    hide Recv, Loop, PhaseOne;
    RecvByPhases(s, data, counts);
    if s.parked == [] {
      assert s.parked + data == data;
      hide Recv, Loop;
      LoopAccounts(s, data, counts, 0);
    } else {
      PhaseOneFacts(s, data, counts(0));
      var f := PhaseOne(s, data, counts(0));
      if f.used.Some? {
        var frame, tail := f.frames[0], data[f.used.value..];
        LoopAccounts(f.state, tail, counts, 1);
        AccountsPrepend(frame, tail, Loop(f.state, tail, counts, 1));
        FrameAccounts(frame, f.state);
        assert tail == [] ==> frame + tail == frame;
      } else {
        ParkedAccounts(f.state);
      }
    }
  }

  /**
   What a run of calls begun in `s` makes of the bytes `input`: with short headers and no frame-queue limit every
   byte comes out or is parked, in order; with longer headers as many bytes; under a limit at most as many.
   */
  predicate RunAccounted(s: State, input: seq<Byte>, r: Run) {
    && (s.queueLimit == 0 && s.mode.headerLen <= 2 ==> Concat(r.frames) + r.state.parked == input)
    && (s.queueLimit == 0 ==> |Concat(r.frames)| + |r.state.parked| == |input|)
    && |Concat(r.frames)| + |r.state.parked| <= |input|
  }

  /** Accounting over a whole run, whatever the mode, the limit and the chunks. */
  lemma {:induction false} RunAccounts(s: State, chunks: seq<seq<Byte>>, c: nat)
    requires Valid(s)
    ensures RunAccounted(s, s.parked + Concat(chunks), RecvAll(s, chunks, c))
  {
    hide Recv, RecvAll, Valid, Concat, Accounts, RunAccounted;
    if chunks == [] {
      NothingFed(s, c);
      NothingAccounts(s);
    } else {
      var before, last := chunks[..|chunks| - 1], chunks[|chunks| - 1];
      assert chunks == before + [last];
      RunAccounts(s, before, c);
      RecvAllSnoc(s, before, last, c);
      ConcatSnoc(before, last);
      FedAccounts(s, s.parked + Concat(before), RecvAll(s, before, c), last, c);
      assert s.parked + (Concat(before) + last) == (s.parked + Concat(before)) + last;
    }
  }

  lemma NothingAccounts(s: State)
    ensures RunAccounted(s, s.parked + Concat([]), Run(s, []))
  {
    assert Concat([]) + s.parked == s.parked + Concat([]);
  }

  lemma FedAccounts(s: State, input: seq<Byte>, p: Run, last: seq<Byte>, c: nat)
    requires Valid(p.state) && SameSetup(s, p.state) && RunAccounted(s, input, p)
    ensures var r := if last == [] then p
                     else
                       var o := Recv(p.state, last, CountsFrom(c + |p.frames|));
                       Run(o.state, p.frames + o.frames);
            RunAccounted(s, input + last, r)
  {
    hide Recv, Valid, Concat, CountsFrom;
    if last == [] {
      assert input + last == input;
    } else {
      var o := Recv(p.state, last, CountsFrom(c + |p.frames|));
      RecvAccounts(p.state, last, CountsFrom(c + |p.frames|));
      assert SameSetup(p.state, o.state);
      ConcatAppend(p.frames, o.frames);
      if s.queueLimit == 0 && s.mode.headerLen <= 2 {
        assert HeadKept(o.state);
        Rechain(Concat(p.frames), Concat(o.frames), o.state.parked, p.state.parked, last);
      }
    }
  }

  lemma Rechain(out: seq<Byte>, more: seq<Byte>, parked': seq<Byte>, parked: seq<Byte>, last: seq<Byte>)
    requires more + parked' == parked + last
    ensures out + more + parked' == out + parked + last
  {
    assert out + more + parked' == out + (more + parked');
    assert out + (parked + last) == out + parked + last;
  }

  // ----- frames and return value

  predicate GoodFrames(max: nat, n: nat, o: Outcome) {
    && AllNonEmpty(o.frames)
    && (o.state.error == NoError ==> forall i :: 0 <= i < |o.frames| ==> |o.frames[i]| <= max)
    && (0 <= o.ret ==> o.ret == n + |o.frames|)
    && (o.ret < 0 ==> o.ret == -1 && o.state.error == ExceedFrameQueueCount)
  }

  lemma {:induction false} LoopFrames(s: State, data: seq<Byte>, counts: nat -> nat, n: nat)
    requires Valid(s) && s.parked == []
    ensures GoodFrames(s.maxFrameLen, n, Loop(s, data, counts, n))
    ensures s.error != NoError ==> Loop(s, data, counts, n).state.error != NoError
    ensures NewCode(s.error, Loop(s, data, counts, n).state.error)
    decreases |data|
  {
    hide Loop, Decide, EventLen;
    LoopOnce(s, data, counts, n);
    if data != [] && s.mode.headerLen <= |data| {
      JudgeFacts(s, data);
      var v := Judge(s, data);
      var s', k := s.(mode := v.mode, error := v.error), v.FrameLen();
      if k <= |data| && !LimitHit(s', counts(n)) {
        LoopFrames(s', data[k..], counts, n + 1);
      }
    }
  }

  /**
   Every queued frame is non-empty, and no longer than the maximum unless an error code is set; the
   return value is the number of frames queued, or -1 with the queue-limit error; an error code never
   returns to NoError; and no codes are set but those of the queue limit and of a bad length, so never the one
   of the buffer size.
   */
  lemma RecvFrames(s: State, data: seq<Byte>, counts: nat -> nat)
    requires Valid(s)
    ensures GoodFrames(s.maxFrameLen, 0, Recv(s, data, counts))
    ensures s.error != NoError ==> Recv(s, data, counts).state.error != NoError
    ensures NewCode(s.error, Recv(s, data, counts).state.error)
  {
    hide Recv, Loop, PhaseOne;
    RecvByPhases(s, data, counts);
    if s.parked == [] {
      LoopFrames(s, data, counts, 0);
    } else {
      PhaseOneFacts(s, data, counts(0));
      var f := PhaseOne(s, data, counts(0));
      if f.used.Some? { LoopFrames(f.state, data[f.used.value..], counts, 1); }
    }
  }

  /**
   When the parked frame stays incomplete the whole chunk has been copied behind it: the buffer is never too
   small for a frame that may still be completed. What is parked begins a longer frame.
   */
  lemma ParkingTakesWholeChunk(s: State, data: seq<Byte>, counts: nat -> nat)
    requires Valid(s) && s.parked != [] && !Completes(s, data)
    ensures Recv(s, data, counts).state.parked == s.parked + data
    ensures |s.parked + data| < s.maxFrameLen
    ensures |s.parked + data| < s.mode.headerLen
            || |s.parked + data| < EventLen(s.mode, s.parked + data) + s.mode.headerLen
  {
    JudgeFacts(s, Merged(s, data));
    FrameOutgrowsParked(s, Merged(s, data));
  }

  // ----- a parked frame under another run's mode

  /** Where in the chunk the code goes on once it has completed the parked frame: frame length minus `_rest`. */
  function ChunkOffset(s: State, data: seq<Byte>): int
    requires |s.parked| <= BUFF_SIZE
  {
    Judge(s, Merged(s, data)).FrameLen() - |s.parked|
  }

  /** What a caller can check before a run: the parked bytes are not longer than the frame they begin in its mode. */
  predicate FitsMode(s: State) {
    |s.parked| < s.mode.headerLen || |s.parked| <= Judge(s, s.parked).FrameLen()
  }

  /**
   When the parked bytes come from a run of another mode the code reads in front of the chunk, at a negative
   offset, unless they fit the new mode; whatever the chunk.
   */
  lemma OffsetNegativeUnlessFits(s: State, data: seq<Byte>)
    requires 0 < |s.parked| <= BUFF_SIZE && HeaderDetermined(s.mode)
    ensures 0 <= ChunkOffset(s, data) <==> FitsMode(s)
  {
    var merged := Merged(s, data);
    MergedFacts(s, data);
    if s.mode.lengthFunc.Some? && s.mode.headerLen != 0 && s.mode.headerLen <= |s.parked| {
      var f, h := s.mode.lengthFunc.value, s.mode.headerLen;
      assert AgreesOnHeader(f, h, merged) && AgreesOnHeader(f, h, s.parked);
      assert merged[..h] == s.parked[..h];
    }
  }

  /** Ten bytes parked by a run of longer frames, then a run with frames of four: the code goes on at -6. */
  lemma TenBytesInFourByteMode(s: State, data: seq<Byte>)
    requires |s.parked| == 10 && s.mode == Mode(None, 0, 4) && s.maxFrameLen == 16
    ensures ChunkOffset(s, data) == -6 && Judge(s, Merged(s, data)).FrameLen() <= |Merged(s, data)|
  {
    MergedFacts(s, data);
  }

  // ----- why the maximum frame length may not exceed the buffer

  /** The second phase parks a chunk that begins a longer frame: it copies all of it into the work buffer. */
  predicate ParksWhole(s: State, data: seq<Byte>) {
    s.parked == [] && data != [] && s.mode.headerLen <= |data| < Judge(s, data).FrameLen()
  }

  /** Whatever mode and chunk SiDaqRun accepts with this maximum, such a copy stays inside the buffer. */
  ghost predicate CopiesInside(max: Uint32) {
    forall s: State, data: seq<Byte> |
      s.maxFrameLen == max && s.mode.headerLen < max && ParksWhole(s, data) :: |data| <= BUFF_SIZE
  }

  /** Whatever is parked, as far as it fits, the first phase drops nothing of a chunk it parks behind it. */
  ghost predicate ParkingKeepsAll(max: Uint32) {
    forall s: State, data: seq<Byte> |
      && s.maxFrameLen == max && s.mode.headerLen < max && 0 < |s.parked| <= BUFF_SIZE && ParkedShort(s)
      && !Completes(s, data) ::
      Merged(s, data) == s.parked + data
  }

  function LongFrames(n: nat, max: Uint32, parked: seq<Byte>): State
    requires n < 0x1_0000_0000
  {
    State(parked, [], Mode(None, 0, n), NoError, max, 0)
  }

  /**
   The second phase's copies stay inside the work buffer, for every mode and chunk, if and only if the maximum frame
   length is at most one more than the buffer; SiDaqRun accepts any.
   */
  lemma CopiesInsideIff(max: Uint32)
    ensures CopiesInside(max) <==> max <= BUFF_SIZE + 1
  {
    if max > BUFF_SIZE + 1 {
      var s, data := LongFrames(BUFF_SIZE + 2, max, []), Zeros(BUFF_SIZE + 1);
      assert ParksWhole(s, data);
    }
  }

  /** And no byte is dropped behind a parked frame if and only if it is at most the buffer. */
  lemma ParkingKeepsAllIff(max: Uint32)
    ensures ParkingKeepsAll(max) <==> max <= BUFF_SIZE
  {
    if max <= BUFF_SIZE {
      forall s: State, data: seq<Byte> |
        && s.maxFrameLen == max && s.mode.headerLen < max && 0 < |s.parked| <= BUFF_SIZE && ParkedShort(s)
        && !Completes(s, data)
        ensures Merged(s, data) == s.parked + data
      {
        MergedFacts(s, data);
      }
    } else {
      var s, data := LongFrames(BUFF_SIZE + 1, max, Zeros(BUFF_SIZE)), [0];
      MergedFacts(s, data);
      assert ParkedShort(s) && !Completes(s, data);
      assert |Merged(s, data)| == BUFF_SIZE;
    }
  }

  // ----- pass-through

  /** Every chunk that may be a frame comes out as one, unchanged and at once. */
  ghost predicate PassesThrough(s: State)
    requires Valid(s)
  {
    forall data: seq<Byte>, counts: nat -> nat | 0 < |data| <= s.maxFrameLen ::
      Recv(s, data, counts).frames == [data]
  }

  /** Without a length function and a fixed length chunks pass through only if the header length is 0 too. */
  lemma PassThroughIffNoHeader(s: State)
    requires Valid(s) && s.parked == [] && s.mode.lengthFunc == None && s.mode.fixedLen == 0
    ensures PassesThrough(s) <==> s.mode.headerLen == 0
  {
    if s.mode.headerLen == 0 {
      assert s.mode == NULL_MODE;
      forall data: seq<Byte>, counts: nat -> nat | 0 < |data| <= s.maxFrameLen
        ensures Recv(s, data, counts).frames == [data]
      {
        FallbackEchoes(s, data, counts);
      }
    } else {
      var counts := CountsFrom(0);
      LoopOnce(s, [0], counts, 0);
      assert Recv(s, [0], counts).frames == [];
      assert Recv(s, [0], counts).frames != [[0]];
    }
  }

  // ----- error fallback

  /** A length error leaves the null framer with nothing parked. */
  ghost predicate FellBack(s: State) {
    s.mode == NULL_MODE && s.parked == []
  }

  ghost predicate FallsBackOnError(s: State) {
    s.error in {GetFrameLengthFailed, ExceedMaxFrameLength} ==> FellBack(s)
  }

  lemma {:induction false} LoopFallsBack(s: State, data: seq<Byte>, counts: nat -> nat, n: nat)
    requires Valid(s) && s.parked == [] && FallsBackOnError(s)
    ensures FallsBackOnError(Loop(s, data, counts, n).state)
    ensures s.mode == NULL_MODE ==> FellBack(Loop(s, data, counts, n).state)
    decreases |data|
  {
    hide Loop, Decide;
    LoopOnce(s, data, counts, n);
    if data != [] && s.mode.headerLen <= |data| {
      JudgeFacts(s, data);
      var v := Judge(s, data);
      var s', k := s.(mode := v.mode, error := v.error), v.FrameLen();
      if k <= |data| && !LimitHit(s', counts(n)) {
        LoopFallsBack(s', data[k..], counts, n + 1);
      }
    }
  }

  lemma RecvFallsBack(s: State, data: seq<Byte>, counts: nat -> nat)
    requires Valid(s) && FallsBackOnError(s)
    ensures FallsBackOnError(Recv(s, data, counts).state)
  {
    hide Recv, Loop, PhaseOne;
    RecvByPhases(s, data, counts);
    if s.parked == [] {
      LoopFallsBack(s, data, counts, 0);
    } else {
      PhaseOneFacts(s, data, counts(0));
      var f := PhaseOne(s, data, counts(0));
      if f.used.Some? { LoopFallsBack(f.state, data[f.used.value..], counts, 1); }
    }
  }

  /** After the fallback a chunk is one frame, verbatim, and nothing is parked. */
  lemma FallbackEchoes(s: State, data: seq<Byte>, counts: nat -> nat)
    requires Valid(s) && FellBack(s) && data != []
    ensures var o := Recv(s, data, counts);
            && o.frames == [data] && FellBack(o.state)
            && (s.error != NoError ==> o.state.error != NoError)
  {
    JudgeFacts(s, data);
    assert data[..|data|] == data && data[|data|..] == [];
    RecvFrames(s, data, counts);
    var v := Judge(s, data);
    var s' := s.(mode := v.mode, error := v.error);
    if !LimitHit(s', counts(0)) {
      assert Loop(s', [], counts, 1) == Outcome(s', [], 1);
      assert [data] + [] == [data];
    }
  }

  /** The fallback is absorbing: for the rest of the run every chunk is passed through unchanged. */
  lemma {:induction false} FallbackForever(s: State, chunks: seq<seq<Byte>>, c: nat)
    requires Valid(s) && FellBack(s) && AllNonEmpty(chunks)
    ensures var r := RecvAll(s, chunks, c);
            && r.frames == chunks && FellBack(r.state)
            && (s.error != NoError ==> r.state.error != NoError)
  {
    hide Recv, RecvAll, Valid, FellBack, CountsFrom;
    if chunks == [] {
      NothingFed(s, c);
    } else {
      var before, last := chunks[..|chunks| - 1], chunks[|chunks| - 1];
      FallbackForever(s, before, c);
      var p := RecvAll(s, before, c);
      assert before + [last] == chunks;
      RecvAllSnoc(s, before, last, c);
      FallbackEchoes(p.state, last, CountsFrom(c + |p.frames|));
    }
  }

  /** From a run's start to its end, whatever is fed: a length error means the null framer, empty-handed. */
  lemma {:induction false} RunFallsBack(s: State, chunks: seq<seq<Byte>>, c: nat)
    requires Valid(s) && FallsBackOnError(s)
    ensures FallsBackOnError(RecvAll(s, chunks, c).state)
    ensures s.error != NoError ==> RecvAll(s, chunks, c).state.error != NoError
  {
    hide Recv, RecvAll, Valid, FallsBackOnError, CountsFrom;
    if chunks == [] {
      NothingFed(s, c);
    } else {
      var before, last := chunks[..|chunks| - 1], chunks[|chunks| - 1];
      RunFallsBack(s, before, c);
      var p := RecvAll(s, before, c);
      assert before + [last] == chunks;
      RecvAllSnoc(s, before, last, c);
      RecvFallsBack(p.state, last, CountsFrom(c + |p.frames|));
      RecvFrames(p.state, last, CountsFrom(c + |p.frames|));
    }
  }

  // ----- the frame-queue limit

  /** `o` stops early where `u` goes on. */
  ghost predicate CutShort(o: Outcome, u: Outcome) {
    && o.frames <= u.frames
    && (0 <= o.ret ==> o.frames == u.frames && o.ret == u.ret && o.state.parked == u.state.parked
                       && o.state.mode == u.state.mode)
  }

  function Unlimited(s: State): State {
    s.(queueLimit := 0)
  }

  lemma SameDecision(s: State, t: State, data: seq<Byte>)
    requires t.mode == s.mode && t.maxFrameLen == s.maxFrameLen
    ensures var v, w := Judge(s, data), Judge(t, data);
            w.mode == v.mode && w.eventLen == v.eventLen
  {
  }

  lemma CutShortCons(frame: seq<Byte>, o: Outcome, u: Outcome)
    requires CutShort(o, u)
    ensures CutShort(Prepend(frame, o), Prepend(frame, u))
  {
  }

  lemma ValidUnlimited(s: State, error: ErrorCode)
    requires Valid(s)
    ensures Valid(Unlimited(s).(error := error))
  {
  }

  lemma {:induction false} LoopCutShort(s: State, t: State, data: seq<Byte>, counts: nat -> nat, n: nat)
    requires Valid(s) && s.parked == []
    requires t == Unlimited(s).(error := t.error)
    ensures Valid(t)
    ensures CutShort(Loop(s, data, counts, n), Loop(t, data, counts, n))
    decreases |data|
  {
    hide Loop, Decide, EventLen, Valid;
    ValidUnlimited(s, t.error);
    LoopOnce(s, data, counts, n);
    LoopOnce(t, data, counts, n);
    SameDecision(s, t, data);
    if data != [] && s.mode.headerLen <= |data| {
      var v, w := Judge(s, data), Judge(t, data);
      var s', k := s.(mode := v.mode, error := v.error), v.FrameLen();
      var t' := t.(mode := w.mode, error := w.error);
      if k <= |data| && !LimitHit(s', counts(n)) {
        hide CutShort;
        LoopCutShort(s', t', data[k..], counts, n + 1);
        CutShortCons(data[..k], Loop(s', data[k..], counts, n + 1), Loop(t', data[k..], counts, n + 1));
      }
    }
  }

  /** The limit has no say in the first phase, except for the error code. */
  lemma SameFirstPhase(s: State, t: State, data: seq<Byte>, count: nat)
    requires Valid(s) && s.parked != [] && t == Unlimited(s)
    ensures Valid(t)
    ensures var f, g := PhaseOne(s, data, count), PhaseOne(t, data, count);
            && g.used == f.used && g.frames == f.frames
            && g.state == Unlimited(f.state).(error := g.state.error)
  {
    hide Decide;
    assert Merged(t, data) == Merged(s, data);
  }

  /**
   Under a limit, a call queues a prefix of the frames it would queue without one, and exactly those
   frames when it does not give up, whatever consumers do to the count in between.
   */
  lemma LimitedIsPrefix(s: State, data: seq<Byte>, counts: nat -> nat)
    requires Valid(s)
    ensures Valid(Unlimited(s))
    ensures CutShort(Recv(s, data, counts), Recv(Unlimited(s), data, counts))
  {
    hide Recv, Loop, PhaseOne;
    var t := Unlimited(s);
    RecvByPhases(s, data, counts);
    RecvByPhases(t, data, counts);
    if s.parked == [] {
      LoopCutShort(s, t, data, counts, 0);
    } else {
      SameFirstPhase(s, t, data, counts(0));
      var f, g := PhaseOne(s, data, counts(0)), PhaseOne(t, data, counts(0));
      if f.used.Some? { LoopCutShort(f.state, g.state, data[f.used.value..], counts, 1); }
    }
  }

  function Limited(o: Outcome, limit: Uint32): Outcome {
    o.(state := o.state.(queueLimit := limit))
  }

  lemma {:induction false} LoopLimit(s: State, data: seq<Byte>, counts: nat -> nat, n: nat)
    requires Valid(s) && s.parked == [] && 0 < s.queueLimit
    ensures Valid(Unlimited(s))
    ensures var o, u := Loop(s, data, counts, n), Loop(Unlimited(s), data, counts, n);
            if o.ret < 0 then
              && 0 < |o.frames| <= |u.frames| && s.queueLimit <= counts(n + |o.frames| - 1)
              && forall i :: n <= i < n + |o.frames| - 1 ==> counts(i) < s.queueLimit
            else
              && o == Limited(u, s.queueLimit)
              && forall i :: n <= i < n + |u.frames| ==> counts(i) < s.queueLimit
    decreases |data|
  {
    hide Loop, Decide, EventLen, Valid;
    var t := Unlimited(s);
    ValidUnlimited(s, s.error);
    LoopOnce(s, data, counts, n);
    LoopOnce(t, data, counts, n);
    assert Judge(t, data) == Judge(s, data) by { UnlimitedJudge(s, data); }
    if data != [] && s.mode.headerLen <= |data| {
      var v := Judge(s, data);
      var s', k := s.(mode := v.mode, error := v.error), v.FrameLen();
      if k <= |data| && !LimitHit(s', counts(n)) { LoopLimit(s', data[k..], counts, n + 1); }
    }
  }

  lemma UnlimitedJudge(s: State, data: seq<Byte>)
    ensures Judge(Unlimited(s), data) == Judge(s, data)
  {
  }

  /** Puts of the call on which it does not give up: the one that completes the parked frame. */
  function FirstPuts(s: State, data: seq<Byte>): nat
    requires Valid(s)
  {
    if s.parked != [] && Completes(s, data) then 1 else 0
  }

  /**
   What a limit makes of a call that without one comes to `u`: it gives up at its first put, from put `first` on, after
   which the queue holds at least `limit` frames. When no put fills the queue that far the limit changes
   nothing at all, and when one does, an earlier one included, an error is set.
   */
  ghost predicate ByLimit(limit: Uint32, first: nat, counts: nat -> nat, o: Outcome, u: Outcome) {
    && (o.ret < 0 ==>
          && first < |o.frames| <= |u.frames| && limit <= counts(|o.frames| - 1)
          && forall i :: first <= i < |o.frames| - 1 ==> counts(i) < limit)
    && (0 <= o.ret ==> forall i :: first <= i < |u.frames| ==> counts(i) < limit)
    && ((forall i :: 0 <= i < |u.frames| ==> counts(i) < limit) ==> o == Limited(u, limit))
    && ((exists i :: 0 <= i < |u.frames| && limit <= counts(i)) ==> o.state.error != NoError)
  }

  lemma LoopByLimit(s: State, data: seq<Byte>, counts: nat -> nat)
    requires Valid(s) && s.parked == [] && 0 < s.queueLimit
    ensures Valid(Unlimited(s))
    ensures ByLimit(s.queueLimit, 0, counts, Loop(s, data, counts, 0), Loop(Unlimited(s), data, counts, 0))
  {
    hide Loop, Valid;
    LoopLimit(s, data, counts, 0);
    LoopFrames(s, data, counts, 0);
  }

  /** The put that completes the parked frame, `frame`, and then the rest of the call. */
  lemma PrependByLimit(limit: Uint32, counts: nat -> nat, frame: seq<Byte>, o: Outcome, u: Outcome, w: Outcome)
    requires if o.ret < 0 then
               && 0 < |o.frames| <= |w.frames| && limit <= counts(|o.frames|)
               && forall i :: 1 <= i < |o.frames| ==> counts(i) < limit
             else
               o == Limited(w, limit) && forall i :: 1 <= i < 1 + |w.frames| ==> counts(i) < limit
    requires u.frames == w.frames && (counts(0) < limit ==> u == w)
    requires o.ret < 0 || limit <= counts(0) ==> o.state.error != NoError
    ensures ByLimit(limit, 1, counts, Prepend(frame, o), Prepend(frame, u))
  {
    var all := Prepend(frame, u).frames;
    if forall i :: 0 <= i < |all| ==> counts(i) < limit {
      assert counts(0) < limit;
      assert o.ret < 0 ==> |o.frames| < |all|;
    }
  }

  /** When exactly a call gives up on the frame-queue limit; the put that completes the parked frame never makes it. */
  lemma LimitExact(s: State, data: seq<Byte>, counts: nat -> nat)
    requires Valid(s) && 0 < s.queueLimit
    ensures Valid(Unlimited(s))
    ensures ByLimit(s.queueLimit, FirstPuts(s, data), counts, Recv(s, data, counts),
                    Recv(Unlimited(s), data, counts))
  {
    hide Recv, Loop, PhaseOne, Decide, EventLen, Completes, Valid, ByLimit;
    var t := Unlimited(s);
    ValidUnlimited(s, s.error);
    RecvByPhases(s, data, counts);
    RecvByPhases(t, data, counts);
    if s.parked == [] {
      LoopByLimit(s, data, counts);
    } else {
      SameFirstPhase(s, t, data, counts(0));
      PhaseOneCases(s, data, counts(0));
      UnderLimitFirstPhase(s, data, counts(0));
      var f, g := PhaseOne(s, data, counts(0)), PhaseOne(t, data, counts(0));
      match f.used {
        case None =>
          NothingPut(s.queueLimit, counts, Outcome(f.state, [], 0), Outcome(g.state, [], 0));
        case Some(n) =>
          var tail := data[n..];
          ValidUnlimited(f.state, f.state.error);
          FirstThenLoop(s, data, counts);
          FirstThenLoop(t, data, counts);
          var o, u, w := Loop(f.state, tail, counts, 1), Loop(g.state, tail, counts, 1),
                         Loop(Unlimited(f.state), tail, counts, 1);
          LoopLimit(f.state, tail, counts, 1);
          LoopCutShort(Unlimited(f.state), g.state, tail, counts, 1);
          LoopFrames(f.state, tail, counts, 1);
          if s.queueLimit <= counts(0) { LimitSetsError(s, data, counts(0)); }
          PrependByLimit(s.queueLimit, counts, f.frames[0], o, u, w);
      }
    }
  }

  lemma NothingPut(limit: Uint32, counts: nat -> nat, o: Outcome, u: Outcome)
    requires o.frames == u.frames == [] && 0 <= o.ret && o == Limited(u, limit)
    ensures ByLimit(limit, 0, counts, o, u)
  {
  }

  /** A call that completes the parked frame: that frame, then the second phase. */
  lemma FirstThenLoop(s: State, data: seq<Byte>, counts: nat -> nat)
    requires Valid(s) && s.parked != []
    ensures var f := PhaseOne(s, data, counts(0));
            f.used.Some? ==>
              Recv(s, data, counts) == Prepend(f.frames[0], Loop(f.state, data[f.used.value..], counts, 1))
  {
    hide Recv, PhaseOne;
    RecvByPhases(s, data, counts);
    var f := PhaseOne(s, data, counts(0));
    if f.used == Some(|data|) {
      assert data[|data|..] == [] && [f.frames[0]] + [] == [f.frames[0]];
    }
  }

  lemma LimitSetsError(s: State, data: seq<Byte>, count: nat)
    requires Valid(s) && s.parked != [] && 0 < s.queueLimit <= count
    ensures PhaseOne(s, data, count).used.Some? ==> PhaseOne(s, data, count).state.error == ExceedFrameQueueCount
  {
    hide Decide;
  }

  lemma UnderLimitFirstPhase(s: State, data: seq<Byte>, count: nat)
    requires Valid(s) && s.parked != []
    ensures Valid(Unlimited(s))
    ensures count < s.queueLimit || PhaseOne(s, data, count).used == None ==>
              PhaseOne(Unlimited(s), data, count).state == Unlimited(PhaseOne(s, data, count).state)
  {
    hide Decide;
    assert Merged(Unlimited(s), data) == Merged(s, data);
  }

  /**
   The queue lengths reported by the successive puts of one call that begins with at most `c` frames queued.
   Only the framer thread puts; consumers take frames out at any time.
   */
  ghost predicate OnlyTaken(c: nat, counts: nat -> nat) {
    counts(0) <= c + 1 && forall i: nat :: counts(i + 1) <= counts(i) + 1
  }

  lemma {:induction false} LoopStopsAtLimit(s: State, data: seq<Byte>, counts: nat -> nat, n: nat, bound: nat)
    requires Valid(s) && s.parked == [] && 0 < s.queueLimit <= bound && counts(n) <= bound
    requires forall i: nat :: counts(i + 1) <= counts(i) + 1
    ensures forall i :: n <= i < n + |Loop(s, data, counts, n).frames| ==> counts(i) <= bound
    decreases |data|
  {
    hide Loop, Decide, EventLen;
    LoopOnce(s, data, counts, n);
    if data != [] && s.mode.headerLen <= |data| {
      JudgeFacts(s, data);
      var v := Judge(s, data);
      var s', k := s.(mode := v.mode, error := v.error), v.FrameLen();
      if k <= |data| && !LimitHit(s', counts(n)) {
        LoopStopsAtLimit(s', data[k..], counts, n + 1, bound);
      }
    }
  }

  /**
   With at most `c` frames queued at the start, and whatever consumers take out meanwhile, no put of a call makes the
   queue longer than `limit`, or than `c + 2` when that is more: the put that completes the parked frame does
   not stop the call.
   */
  lemma QueueStopsAtLimit(s: State, data: seq<Byte>, c: nat, counts: nat -> nat)
    requires Valid(s) && 0 < s.queueLimit && OnlyTaken(c, counts)
    ensures forall i :: 0 <= i < |Recv(s, data, counts).frames| ==> counts(i) <= Max(c + 2, s.queueLimit)
  {
    hide Recv, Loop, PhaseOne;
    var bound := Max(c + 2, s.queueLimit);
    RecvByPhases(s, data, counts);
    assert counts(0 + 1) <= counts(0) + 1;
    if s.parked == [] {
      LoopStopsAtLimit(s, data, counts, 0, bound);
    } else {
      var f := PhaseOne(s, data, counts(0));
      if f.used.Some? { LoopStopsAtLimit(f.state, data[f.used.value..], counts, 1, bound); }
    }
  }
}
