/** The framer as it is written: one work buffer updated in place, frames put on a queue. */
module SidaqFramer {
  import opened Bytes
  import opened FramerSpec
  import opened SQueueModel

  /** Frames already put, then those of `o`. */
  function After(done: seq<seq<Byte>>, o: Outcome): Outcome {
    o.(frames := done + o.frames)
  }

  class SiDaqFramer {
    var rest: int
    const buffPtr: array<Byte>
    var lengthFunc: Option<LengthFunc>
    var headerLen: nat
    var errorFlg: int
    var errorCode: ErrorCode
    var queueLimit: Uint32
    var maxFrameLen: Uint32
    var fixedFrameLen: Uint32

    ghost predicate InBounds()
      reads this
    {
      buffPtr.Length == BUFF_SIZE && 0 <= rest <= BUFF_SIZE
    }

    ghost function ModeNow(): Mode
      reads this
    {
      Mode(lengthFunc, headerLen, fixedFrameLen)
    }

    /** The state the buffer and the fields stand for. */
    ghost function Abs(): State
      requires InBounds()
      reads this, buffPtr
    {
      State(buffPtr[..rest], buffPtr[Max(rest, 1)..], ModeNow(), errorCode, maxFrameLen, queueLimit)
    }

    ghost predicate Valid()
      reads this, buffPtr
      ensures Valid() ==> InBounds() && FramerSpec.Valid(Abs()) && 0 <= rest && (Abs().parked == [] <==> rest == 0)
    {
      InBounds() && FramerSpec.Valid(Abs())
    }

    /** NewSiDaqFramer: everything zero. */
    constructor ()
      ensures InBounds() && rest == 0 && errorFlg == 0 && errorCode == NoError
      ensures fresh(buffPtr) && Abs() == Fresh(NULL_MODE, 0, 0)
    {
      rest, lengthFunc, headerLen, errorFlg, errorCode := 0, None, 0, 0, NoError;
      queueLimit, maxFrameLen, fixedFrameLen := 0, 0, 0;
      buffPtr := new Byte[BUFF_SIZE](i => 0);
    }

    /** SiDaqRun's set-up of the framer; the buffer and `_rest` are left as they are. */
    method Configure(lengthFunc: Option<LengthFunc>, headerLen: nat, fixedFrameLen: Uint32,
                     queueLimit: Uint32, maxFrameLen: Uint32)
      requires InBounds()
      modifies this
      ensures InBounds() && rest == old(rest) && errorFlg == 0
      ensures Abs() == State(old(Abs().parked), old(Abs().stale),
                             Mode(lengthFunc, headerLen, fixedFrameLen), NoError, maxFrameLen, queueLimit)
    {
      this.headerLen := headerLen;
      this.queueLimit := queueLimit;
      this.maxFrameLen := maxFrameLen;
      this.lengthFunc := lengthFunc;
      this.fixedFrameLen := fixedFrameLen;
      errorFlg := 0;
      errorCode := NoError;
    }

    /** memcpy into the work buffer. */
    method CopyIn(offset: nat, src: seq<Byte>)
      requires offset + |src| <= buffPtr.Length
      modifies buffPtr
      ensures buffPtr[..] == old(buffPtr[..offset]) + src + old(buffPtr[offset + |src|..])
    {
      forall i | 0 <= i < |src| {
        buffPtr[offset + i] := src[i];
      }
    }

    /** The length decision both phases make: a bad length switches to the null framer. */
    method JudgeFrame(avail: seq<Byte>) returns (eventLen: int)
      modifies this`lengthFunc, this`headerLen, this`fixedFrameLen, this`errorCode
      ensures Verdict(ModeNow(), errorCode, eventLen) ==
              Decide(old(ModeNow()), old(errorCode), maxFrameLen, avail)
      ensures InBounds() ==> Abs() == old(Abs()).(mode := ModeNow(), error := errorCode)
    {
      if lengthFunc.Some? && headerLen != 0 {
        eventLen := (lengthFunc.value)(avail, headerLen);
      } else if fixedFrameLen != 0 {
        eventLen := AsInt32(fixedFrameLen);
      } else {
        eventLen := |avail|;
      }
      if eventLen < 0 {
        errorCode := GetFrameLengthFailed;
        lengthFunc, headerLen, fixedFrameLen := None, 0, 0;
        eventLen := |avail|;
      }
      if eventLen + headerLen > maxFrameLen {
        errorCode := ExceedMaxFrameLength;
        lengthFunc, headerLen, fixedFrameLen := None, 0, 0;
        eventLen := |avail|;
      }
    }

    /** Puts a frame and compares the reported queue length with the limit. */
    method PutFrame(frame: seq<Byte>, queue: SQueue) returns (hit: bool)
      requires queue.Valid()
      modifies this`errorCode, queue, queue.repr
      ensures queue.Valid() && queue.contents == old(queue.contents) + [frame]
      ensures fresh(queue.repr - old(queue.repr))
      ensures hit == (queueLimit != 0 && |queue.contents| >= queueLimit)
      ensures errorCode == if hit then ExceedFrameQueueCount else old(errorCode)
      ensures InBounds() ==> Abs() == old(Abs()).(error := errorCode)
    {
      var count := queue.SQPut(frame);
      hit := queueLimit != 0 && count >= queueLimit;
      if hit { errorCode := ExceedFrameQueueCount; }
    }

    /** Start of the first phase: the chunk, as far as it fits, goes behind the parked bytes. */
    method AppendChunk(data: seq<Byte>) returns (copyLen: nat)
      requires Valid() && 0 < rest
      modifies buffPtr
      ensures buffPtr[..] == Merged(old(Abs()), data) + old(Abs()).stale[Copied(old(Abs()), data)..]
      ensures copyLen == |Merged(old(Abs()), data)|
    {
      copyLen := buffPtr.Length - rest;
      if |data| < copyLen { copyLen := |data|; }
      CopyIn(rest, data[..copyLen]);
      copyLen := rest + copyLen;
    }

    /** The chunk goes behind the parked bytes, then the length of the frame they begin is decided. */
    method LoadAndJudge(data: seq<Byte>) returns (copyLen: nat, eventLen: int)
      requires Valid() && 0 < rest
      modifies this`lengthFunc, this`headerLen, this`fixedFrameLen, this`errorCode, buffPtr
      ensures Loaded(old(Abs()), data, eventLen) && copyLen == |Merged(old(Abs()), data)|
      ensures eventLen + headerLen == Judge(old(Abs()), Merged(old(Abs()), data)).FrameLen()
    {
      hide Decide, Merged, Copied;
      ghost var s := Abs();
      copyLen := AppendChunk(data);
      assert buffPtr[..copyLen] == Merged(s, data);
      eventLen := JudgeFrame(buffPtr[..copyLen]);
    }

    /** First phase: bytes of the chunk used, or `None` when the frame is still incomplete. */
    method CompleteParked(data: seq<Byte>, queue: SQueue) returns (used: Option<nat>)
      requires Valid() && 0 < rest && queue.Valid()
      modifies this, buffPtr, queue, queue.repr
      ensures Valid() && queue.Valid() && errorFlg == old(errorFlg)
      ensures fresh(queue.repr - old(queue.repr)) && (used.Some? ==> rest == 0)
      ensures var f := PhaseOne(old(Abs()), data, |old(queue.contents)| + 1);
              Abs() == f.state && queue.contents == old(queue.contents) + f.frames && used == f.used
    {
      ghost var s := Abs();
      FirstPhaseLength(s, data);
      PhaseOneCases(s, data, |queue.contents| + 1);
      assert |s.parked| == rest && queue.contents + [] == queue.contents;
      hide *;
      var copyLen, eventLen := LoadAndJudge(data);
      if copyLen >= eventLen + headerLen {
        used := Some(eventLen + headerLen - rest);
        PutFromBuffer(eventLen, s, data, queue);
      } else {
        used := None;
        ParkBuffer(copyLen, eventLen, s, data);
      }
    }

    /** The buffer holds the parked bytes and the chunk, and the length of the frame they begin is decided. */
    ghost predicate Loaded(s: State, data: seq<Byte>, eventLen: int)
      requires FramerSpec.Valid(s) && s.parked != []
      reads this, buffPtr
    {
      && buffPtr.Length == BUFF_SIZE
      && buffPtr[..] == Merged(s, data) + s.stale[Copied(s, data)..]
      && Verdict(ModeNow(), errorCode, eventLen) == Judge(s, Merged(s, data))
      && s.maxFrameLen == maxFrameLen && s.queueLimit == queueLimit
    }

    /** The bytes at the start of the buffer stay parked. */
    method ParkBuffer(copyLen: nat, ghost eventLen: int, ghost s: State, ghost data: seq<Byte>)
      requires FramerSpec.Valid(s) && s.parked != [] && Loaded(s, data, eventLen)
      requires copyLen == |Merged(s, data)| && !Completes(s, data)
      modifies this`rest
      ensures Valid() && Abs() == s.(parked := Merged(s, data), stale := s.stale[Copied(s, data)..])
    {
      FirstPhase(s, data, 0);
      hide FramerSpec.Valid, Decide, Merged, Completes, Copied;
      rest := copyLen;
      assert buffPtr[..copyLen] == Merged(s, data) && buffPtr[copyLen..] == s.stale[Copied(s, data)..];
    }

    /** The completed frame leaves from the start of the buffer; nothing is parked any more. */
    method PutFromBuffer(eventLen: int, ghost s: State, ghost data: seq<Byte>, queue: SQueue)
      requires FramerSpec.Valid(s) && s.parked != [] && Loaded(s, data, eventLen) && Completes(s, data)
      requires queue.Valid()
      modifies this`rest, this`errorCode, queue, queue.repr
      ensures Valid() && rest == 0 && queue.Valid() && fresh(queue.repr - old(queue.repr))
      ensures queue.contents == old(queue.contents) + [FirstFrame(s, data)]
      ensures Abs() == AfterFirst(s, data, |queue.contents|)
    {
      FirstPhase(s, data, |queue.contents| + 1);
      ghost var merged, behind := Merged(s, data), s.stale[Copied(s, data)..];
      hide FramerSpec.Valid, Decide, Merged, Completes, Copied, FirstFrame, AfterFirst, SQueue.Valid;
      var frameLen := eventLen + headerLen;
      assert buffPtr[..frameLen] == merged[..frameLen];
      var hit := PutFrame(buffPtr[..frameLen], queue);
      rest := 0;
      assert buffPtr[1..] == (merged + behind)[1..];
    }

    /**
     One pass of the second phase over the unread bytes `data`: the length of the frame put, 0 when the
     chunk is used up or its end parked, negative when the queue limit is hit.
     */
    method NextFrame(data: seq<Byte>, past: Byte, queue: SQueue, ghost c: nat, ghost n: nat)
      returns (frameLen: int)
      requires Valid() && rest == 0 && queue.Valid() && |queue.contents| == c + n
      modifies this, buffPtr, queue, queue.repr
      ensures Valid() && queue.Valid() && errorFlg == old(errorFlg)
      ensures fresh(queue.repr - old(queue.repr))
      ensures frameLen <= |data|
      ensures var o := Loop(old(Abs()), data, CountsFrom(c), n);
              if frameLen == 0 then
                o == Outcome(Abs(), [], n) && queue.contents == old(queue.contents)
              else if frameLen < 0 then
                o == Outcome(Abs(), o.frames, -1) && queue.contents == old(queue.contents) + o.frames
              else
                && rest == 0 && o == Prepend(data[..frameLen], Loop(Abs(), data[frameLen..], CountsFrom(c), n + 1))
                && queue.contents == old(queue.contents) + [data[..frameLen]]
    {
      ghost var s := Abs();
      LoopOnce(s, data, CountsFrom(c), n);
      assert s.mode == ModeNow() && s.error == errorCode;
      assert s.maxFrameLen == maxFrameLen && s.queueLimit == queueLimit;
      hide Loop, FramerSpec.Valid, Decide, SQueue.Valid, Park, ParkShort, Abs;
      var dataLen := |data|;
      if dataLen == 0 || dataLen < headerLen {
        SaveShortHeader(data, past);
        return 0;
      }
      var eventLen := JudgeFrame(data);
      if dataLen >= eventLen + headerLen {
        frameLen := PutHead(s, data, eventLen, queue, c, n);
      } else {
        SaveRest(data);
        return 0;
      }
    }

    /** A complete frame at the head of the unread bytes. */
    method PutHead(ghost s: State, data: seq<Byte>, eventLen: int, queue: SQueue, ghost c: nat, ghost n: nat)
      returns (frameLen: int)
      requires InBounds() && queue.Valid() && |queue.contents| == c + n
      requires FramerSpec.Valid(s) && s.parked == [] && data != [] && s.mode.headerLen <= |data|
      requires Verdict(ModeNow(), errorCode, eventLen) == Judge(s, data) && eventLen + headerLen <= |data|
      requires Abs() == s.(mode := ModeNow(), error := errorCode)
      modifies this`errorCode, queue, queue.repr
      ensures Valid() && rest == 0 && queue.Valid() && fresh(queue.repr - old(queue.repr))
      ensures frameLen != 0 && frameLen <= |data|
      ensures var o := Loop(s, data, CountsFrom(c), n);
              if frameLen < 0 then
                o == Outcome(Abs(), o.frames, -1) && queue.contents == old(queue.contents) + o.frames
              else
                && o == Prepend(data[..frameLen], Loop(Abs(), data[frameLen..], CountsFrom(c), n + 1))
                && queue.contents == old(queue.contents) + [data[..frameLen]]
    {
      LoopOnce(s, data, CountsFrom(c), n);
      hide Loop, FramerSpec.Valid, Decide, SQueue.Valid;
      var hit := PutFrame(data[..eventLen + headerLen], queue);
      frameLen := if hit then -1 else eventLen + headerLen;
    }

    /** An incomplete frame: all of it is copied to the start of the buffer. */
    method SaveRest(data: seq<Byte>)
      requires InBounds() && rest == 0 && 0 < |data| <= BUFF_SIZE
      modifies this`rest, buffPtr
      ensures InBounds() && Abs() == Park(old(Abs()), data)
    {
      ghost var s := Abs();
      rest := |data|;
      CopyIn(0, data);
      assert buffPtr[..rest] == data;
      assert buffPtr[rest..] == s.stale[|data| - 1..];
    }

    /** Fewer bytes than a header: all are counted, the first one is copied. */
    method SaveShortHeader(data: seq<Byte>, past: Byte)
      requires InBounds() && rest == 0 && |data| <= BUFF_SIZE
      modifies this`rest, buffPtr
      ensures InBounds() && Abs() == ParkShort(old(Abs()), data)
    {
      ghost var s := Abs();
      rest := |data|;
      buffPtr[0] := if |data| > 0 then data[0] else past;
      assert buffPtr[1..] == s.stale;
      if |data| > 0 {
        assert buffPtr[..rest] == [data[0]] + s.stale[..|data| - 1];
        assert buffPtr[rest..] == s.stale[|data| - 1..];
      }
    }

    /** Second phase: frames the unread bytes of the chunk; `n` frames have been put before. */
    method FrameChunk(data: seq<Byte>, past: Byte, queue: SQueue, ghost c: nat, n: nat) returns (ret: int)
      requires Valid() && rest == 0 && queue.Valid() && |queue.contents| == c + n
      modifies this, buffPtr, queue, queue.repr
      ensures Valid() && queue.Valid() && errorFlg == old(errorFlg)
      ensures fresh(queue.repr - old(queue.repr))
      ensures var o := Loop(old(Abs()), data, CountsFrom(c), n);
              Abs() == o.state && queue.contents == old(queue.contents) + o.frames && ret == o.ret
    {
      hide *;
      ghost var whole := Loop(Abs(), data, CountsFrom(c), n);
      ghost var goal := After(queue.contents, whole);
      AfterIs(queue.contents, whole);
      assert data[0..] == data;
      var frameCount, pos := n, 0;
      while true
        invariant Valid() && queue.Valid() && errorFlg == old(errorFlg) && rest == 0
        invariant fresh(queue.repr - old(queue.repr))
        invariant 0 <= pos <= |data| && |queue.contents| == c + frameCount
        invariant goal == After(queue.contents, Loop(Abs(), data[pos..], CountsFrom(c), frameCount))
        decreases |data| - pos
      {
        ghost var tail, queued := data[pos..], queue.contents;
        AfterIs(queued, Loop(Abs(), tail, CountsFrom(c), frameCount));
        var frameLen := NextFrame(data[pos..], past, queue, c, frameCount);
        if frameLen < 0 { return -1; }
        if frameLen == 0 {
          assert queued + [] == queued;
          break;
        }
        AfterPrepend(queued, tail[..frameLen], Loop(Abs(), tail[frameLen..], CountsFrom(c), frameCount + 1));
        assert tail[frameLen..] == data[pos + frameLen..];
        frameCount := frameCount + 1;
        pos := pos + frameLen;
      }
      return frameCount;
    }

    /**
     RecvSiDaqData. `past` is the byte that follows the chunk in memory: the code reads it when
     the chunk ends with a frame, and nothing promised here depends on it.
     */
    method RecvSiDaqData(data: seq<Byte>, past: Byte, queue: SQueue) returns (ret: int)
      requires Valid() && queue.Valid()
      modifies this, buffPtr, queue, queue.repr
      ensures Valid() && queue.Valid() && errorFlg == old(errorFlg)
      ensures fresh(queue.repr - old(queue.repr))
      ensures var o := Recv(old(Abs()), data, CountsFrom(|old(queue.contents)|));
              && Abs() == o.state
              && queue.contents == old(queue.contents) + o.frames
              && ret == o.ret
    {
      ghost var s, queued := Abs(), queue.contents;
      ghost var f := if s.parked != [] then PhaseOne(s, data, |queued| + 1) else First(s, [], None);
      RecvByPhases(s, data, CountsFrom(|queued|));
      assert CountsFrom(|queued|)(0) == |queued| + 1;
      hide *;
      if rest > 0 {
        var used := CompleteParked(data, queue);
        if used == None { return 0; }
        if |data| <= used.value { return 1; }
        ghost var o := Loop(f.state, data[used.value..], CountsFrom(|queued|), 1);
        AfterPrepend(queued, f.frames[0], o);
        AfterIs(queued + [f.frames[0]], o);
        AfterIs(queued, Prepend(f.frames[0], o));
        ret := FrameChunk(data[used.value..], past, queue, |queued|, 1);
      } else {
        ret := FrameChunk(data, past, queue, |queued|, 0);
      }
    }
  }

  lemma AfterIs(done: seq<seq<Byte>>, o: Outcome)
    ensures After(done, o) == Outcome(o.state, done + o.frames, o.ret)
  {
  }

  lemma AfterPrepend(done: seq<seq<Byte>>, frame: seq<Byte>, o: Outcome)
    ensures After(done, Prepend(frame, o)) == After(done + [frame], o)
  {
    assert done + ([frame] + o.frames) == (done + [frame]) + o.frames;
  }
}
