/** The manager's operations on the real queues and the real framer, one caller at a time. */
module SiDaqManager {
  import opened Bytes
  import opened FramerSpec
  import opened FramerCalls
  import opened SQueueModel
  import opened SidaqFramer
  import opened Pipeline

  /** Clearing the error code leaves a valid framer valid. */
  lemma ErrorIsSeparate(s: State)
    requires FramerSpec.Valid(s)
    ensures FramerSpec.Valid(s.(error := NoError))
  {
  }

  lemma ErrorStays(s: State, chunk: seq<Byte>, counts: nat -> nat)
    requires FramerSpec.Valid(s) && s.error != NoError
    ensures Recv(s, chunk, counts).state.error != NoError
  {
    RecvFrames(s, chunk, counts);
  }

  class SiDaqMngr {
    var status: Status
    var sockOpen: bool
    var sockRun: bool
    var queueError: bool
    var framer: SiDaqFramer
    const recvQueue: SQueue
    const eventFrame: SQueue

    ghost predicate Valid()
      reads this, recvQueue, recvQueue.repr, eventFrame, eventFrame.repr, framer, framer.buffPtr
    {
      && recvQueue != eventFrame && recvQueue.Valid() && eventFrame.Valid()
      && recvQueue.repr !! eventFrame.repr
      && framer.InBounds()
    }

    /** SiDaqInitialize once the device has answered; the framer is made here rather than by the first run. */
    constructor ()
      ensures Valid() && status == Idle && !sockOpen && recvQueue.contents == [] && eventFrame.contents == []
      ensures framer.rest == 0
    {
      status, sockOpen, sockRun, queueError := Idle, false, true, false;
      var r := new SQueue();
      var e := new SQueue();
      var f := new SiDaqFramer();
      recvQueue, eventFrame, framer := r, e, f;
    }

    /**
     SiDaqRun. `connected` says whether every socket call succeeded. The header check comes first; a failed
     run leaves SYS_ERROR and touches neither framer nor queues.
     */
    method SiDaqRun(lengthFunc: Option<LengthFunc>, headerLen: nat, fixedFrameLen: Uint32,
                    frameQueueLimit: Uint32, maxFrameLen: Uint32, connected: bool)
      requires Valid()
      modifies this`status, this`sockOpen, this`sockRun, this`queueError, framer
      ensures Valid()
      ensures (status == Running) == (connected && headerLen < maxFrameLen)
      ensures status != Running ==>
        && status == SysError && unchanged(framer)
        && sockOpen == old(sockOpen) && sockRun == old(sockRun) && queueError == old(queueError)
      ensures status == Running ==>
        && sockOpen && sockRun && !queueError && framer.errorFlg == 0
        && framer.Abs() == old(framer.Abs()).(mode := Mode(lengthFunc, headerLen, fixedFrameLen), error := NoError,
                                              maxFrameLen := maxFrameLen, queueLimit := frameQueueLimit)
    {
      hide SQueue.Valid;
      if headerLen >= maxFrameLen || !connected {
        status := SysError;
        return;
      }
      sockOpen, sockRun, queueError := true, true, false;
      framer.Configure(lengthFunc, headerLen, fixedFrameLen, frameQueueLimit, maxFrameLen);
      status := Running;
    }

    /** SiDaqStop: closes the socket in RUN and SYS_ERROR; true unless it does not apply. */
    method SiDaqStop() returns (ok: bool)
      modifies this`status, this`sockOpen, this`sockRun
      ensures ok == (old(status) in {Running, SysError, Idle})
      ensures status == if old(status) == Running then Stopping else old(status)
      ensures sockOpen == (old(sockOpen) && old(status) !in {Running, SysError})
    {
      if status == Running {
        status := Stopping;
        sockRun, sockOpen := false, false;
        return true;
      } else if status == SysError {
        sockRun, sockOpen := false, false;
        return true;
      } else if status == Idle {
        return true;
      }
      return false;
    }

    /** SiDaqResetQueue: empties both queues in STOPPING and SYS_ERROR, and keeps what the framer has parked. */
    method SiDaqResetQueue()
      requires Valid()
      modifies this`status, recvQueue, recvQueue.repr, eventFrame, eventFrame.repr
      ensures Valid()
      ensures old(status) in {Stopping, SysError} ==>
        && recvQueue.contents == [] && eventFrame.contents == []
        && status == if old(status) == SysError then SysError else Idle
      ensures old(status) !in {Stopping, SysError} ==>
        status == old(status) && recvQueue.contents == old(recvQueue.contents)
        && eventFrame.contents == old(eventFrame.contents)
    {
      hide SQueue.Valid;
      var before := status;
      if before == Stopping || before == SysError {
        status := Resetting;
        var dropped := recvQueue.Drain();
        dropped := eventFrame.Drain();
        status := if before == SysError then SysError else Idle;
      }
    }

    /** SiDaqGetData: the next frame, in order. */
    method SiDaqGetData(waitMsec: int, timedOut: bool) returns (data: Option<seq<Byte>>, size: int)
      requires Valid()
      modifies eventFrame, eventFrame.repr
      ensures Valid()
      ensures data == None <==> old(eventFrame.contents) == [] || (0 <= waitMsec && timedOut)
      ensures data.Some? ==> [data.value] + eventFrame.contents == old(eventFrame.contents)
      ensures data == None ==> eventFrame.contents == old(eventFrame.contents)
      ensures size == if data == None then 0 else |data.value|
    {
      data, size := eventFrame.SQGet(waitMsec, timedOut);
    }

    /** The check after each chunk: the first error raises the flag; a framer error closes the socket. */
    method CheckErrors()
      modifies this`status, this`sockOpen, this`sockRun, framer`errorFlg
      ensures framer.errorFlg == if old(framer.errorFlg) == 0 && (framer.errorCode != NoError || queueError)
                                 then -1 else old(framer.errorFlg)
      ensures status == if old(framer.errorFlg) == 0 && (framer.errorCode != NoError || queueError)
                        then SysError else old(status)
      ensures sockOpen == (old(sockOpen) && !(old(framer.errorFlg) == 0 && framer.errorCode != NoError))
    {
      if framer.errorFlg == 0 {
        if framer.errorCode != NoError {
          framer.errorFlg := -1;
          status := SysError;
          sockRun, sockOpen := false, false;
        } else if queueError {
          framer.errorFlg := -1;
          status := SysError;
        }
      }
    }

    /** Puts what is parked as a last frame. */
    method FlushRest()
      requires Valid() && framer.Valid()
      modifies framer`rest, eventFrame, eventFrame.repr
      ensures Valid() && framer.Valid() && framer.Abs() == Flushed(old(framer.Abs())) && framer.rest == 0
      ensures eventFrame.contents == old(eventFrame.contents) + LastFrame(old(framer.Abs()))
      ensures fresh(eventFrame.repr - old(eventFrame.repr))
    {
      ghost var s := framer.Abs();
      if framer.rest > 0 {
        var n := eventFrame.SQPut(framer.buffPtr[..framer.rest]);
        framer.rest := 0;
        assert framer.buffPtr[1..] == (s.parked + s.stale)[1..];
      }
    }

    /** One chunk through framer and error check. */
    method FrameOne(chunk: seq<Byte>, past: Byte)
      requires Valid() && framer.Valid() && framer.errorFlg in {0, -1}
      modifies this`status, this`sockOpen, this`sockRun, framer, framer.buffPtr, eventFrame, eventFrame.repr
      ensures Valid() && framer == old(framer) && framer.Valid() && fresh(eventFrame.repr - old(eventFrame.repr))
      ensures recvQueue.contents == old(recvQueue.contents) && framer.errorFlg in {0, -1}
      ensures var o := Recv(old(framer.Abs()), chunk, CountsFrom(|old(eventFrame.contents)|));
              if chunk == [] then
                framer.Abs() == old(framer.Abs()) && eventFrame.contents == old(eventFrame.contents)
              else
                framer.Abs() == o.state && eventFrame.contents == old(eventFrame.contents) + o.frames
      ensures framer.errorFlg == -1 <==> old(framer.errorFlg) == -1 || framer.errorCode != NoError || queueError
      ensures status == if old(framer.errorFlg) == 0 && framer.errorFlg == -1 then SysError else old(status)
      ensures sockOpen ==> old(sockOpen) && (status == old(status) || queueError)
    {
      hide Recv, FramerSpec.Valid, SQueue.Valid, CountsFrom;
      if |chunk| > 0 {
        var frameCount := framer.RecvSiDaqData(chunk, past, eventFrame);
      }
      CheckErrors();
    }

    /**
     framer_thread from a point at which no more chunks can arrive, because the run is being stopped or the
     socket is closed. It ends; every queued chunk has been framed in order, the unfinished end
     flushed, and the status is SYS_ERROR or IDLE according to whether an error was noticed.
     */
    method FramerThread(past: Byte)
      requires Valid() && framer.Valid() && framer.errorFlg == 0
      requires status == Running || status == Stopping
      requires (status == Stopping || !sockOpen) && (queueError ==> !sockOpen)
      modifies this`status, this`sockOpen, this`sockRun, framer, framer.buffPtr
      modifies recvQueue, recvQueue.repr, eventFrame, eventFrame.repr
      ensures Valid() && framer == old(framer) && framer.Valid()
      ensures recvQueue.contents == [] && framer.rest == 0
      ensures FramerSpec.Valid(old(framer.Abs()).(error := NoError))
      ensures var chunks := old(recvQueue.contents);
              var r := RecvAll(old(framer.Abs()).(error := NoError), chunks, |old(eventFrame.contents)|);
              && framer.Abs() == Flushed(r.state)
              && eventFrame.contents == old(eventFrame.contents) + r.frames + LastFrame(r.state)
              && (framer.errorFlg == -1 <==>
                  (chunks != [] && r.state.error != NoError)
                  || (queueError && (chunks != [] || old(status) != Stopping)))
              && status == if framer.errorFlg == -1 then SysError else Idle
    {
      hide Recv, RecvAll, FramerSpec.Valid, SQueue.Valid, Flushed, LastFrame;
      ErrorIsSeparate(framer.Abs());
      framer.errorCode := NoError;
      NothingFed(framer.Abs(), |eventFrame.contents|);
      FramerLoop(framer.Abs(), |eventFrame.contents|, eventFrame.contents, recvQueue.contents, past);
      ExitThread();
    }

    /** The thread's loop, in a run whose flag is still down. */
    method FramerLoop(ghost s: State, ghost c: nat, ghost queued: seq<seq<Byte>>, ghost chunks: seq<seq<Byte>>,
                      past: Byte)
      requires Valid() && framer.Valid() && framer.errorFlg == 0 && Progress(s, c, queued, chunks, [])
      requires status == Running || status == Stopping
      requires (status == Stopping || !sockOpen) && (queueError ==> !sockOpen)
      modifies this`status, this`sockOpen, this`sockRun, framer, framer.buffPtr
      modifies recvQueue, recvQueue.repr, eventFrame, eventFrame.repr
      ensures Valid() && framer == old(framer) && framer.Valid() && recvQueue.contents == [] && framer.rest == 0
      ensures var r := RecvAll(s, chunks, c);
              && framer.Abs() == Flushed(r.state)
              && eventFrame.contents == queued + r.frames + LastFrame(r.state)
              && (framer.errorFlg == -1 <==>
                  (chunks != [] && r.state.error != NoError)
                  || (queueError && (chunks != [] || old(status) != Stopping)))
              && status == (if framer.errorFlg == -1 then SysError else old(status))
              && framer.errorFlg in {0, -1}
    {
      hide Recv, RecvAll, FramerSpec.Valid, SQueue.Valid, Flushed, LastFrame, SiDaqFramer.Valid;
      ghost var taken: seq<seq<Byte>> := [];
      while status != Idle && status != Resetting
        invariant Valid() && framer == old(framer) && framer.Valid()
        invariant recvQueue.repr == old(recvQueue.repr) && fresh(eventFrame.repr - old(eventFrame.repr))
        invariant Progress(s, c, queued, chunks, taken)
        invariant framer.errorFlg in {0, -1}
        invariant framer.errorFlg == -1 <==> taken != [] && (framer.errorCode != NoError || queueError)
        invariant status == if framer.errorFlg == -1 then SysError else old(status)
        invariant (status == Stopping || !sockOpen) && (queueError ==> !sockOpen)
        decreases |recvQueue.contents|
      {
        var byteData := TakeAndFrame(s, c, queued, chunks, taken, past);
        if byteData == None {
          LeaveLoop();
          break;
        }
        taken := taken + [byteData.value];
      }
    }

    /** The breaks of the loop: with the run stopping or the socket closed, what is parked is flushed. */
    method LeaveLoop()
      requires Valid() && framer.Valid()
      modifies this`status, framer`rest, framer`errorFlg, eventFrame, eventFrame.repr
      ensures Valid() && framer.Valid() && framer.Abs() == Flushed(old(framer.Abs())) && framer.rest == 0
      ensures eventFrame.contents == old(eventFrame.contents) + LastFrame(old(framer.Abs()))
      ensures fresh(eventFrame.repr - old(eventFrame.repr))
      ensures var noticed := old(status) != Stopping && old(framer.errorFlg) == 0 && queueError;
              && framer.errorFlg == (if noticed then -1 else old(framer.errorFlg))
              && status == if noticed then SysError else old(status)
    {
      // Unless the run is stopping the socket is closed here; were it open, the thread would look again.
      if status != Stopping && framer.errorFlg == 0 && queueError {
        framer.errorFlg := -1;
        status := SysError;
      }
      FlushRest();
    }

    /** Behind the loop: an error forces a stop, otherwise the status goes back to IDLE. */
    method ExitThread()
      modifies this`status, this`sockOpen, this`sockRun
      ensures status ==
              if framer.errorFlg < 0 then (if old(status) == Running then Stopping else old(status))
              else if old(status) == Resetting then Resetting else Idle
    {
      if framer.errorFlg < 0 {
        var ok := SiDaqStop();
      } else if status != Resetting {
        status := Idle;
      }
    }

    /** What the chunks taken so far have become. */
    ghost predicate Progress(s: State, c: nat, queued: seq<seq<Byte>>, chunks: seq<seq<Byte>>, taken: seq<seq<Byte>>)
      requires framer.InBounds()
      reads this, framer, framer.buffPtr, recvQueue, eventFrame
    {
      && FramerSpec.Valid(s) && c == |queued|
      && chunks == taken + recvQueue.contents
      && framer.Abs() == RecvAll(s, taken, c).state
      && eventFrame.contents == queued + RecvAll(s, taken, c).frames
    }

    /** One pass of the thread's loop: takes a chunk, if there is one, and frames it. */
    method TakeAndFrame(ghost s: State, ghost c: nat, ghost queued: seq<seq<Byte>>, ghost chunks: seq<seq<Byte>>,
                        ghost taken: seq<seq<Byte>>, past: Byte) returns (byteData: Option<seq<Byte>>)
      requires Valid() && framer.Valid() && framer.errorFlg in {0, -1}
      requires Progress(s, c, queued, chunks, taken)
      modifies this`status, this`sockOpen, this`sockRun, framer, framer.buffPtr
      modifies recvQueue, recvQueue.repr, eventFrame, eventFrame.repr
      ensures Valid() && framer == old(framer) && framer.Valid()
      ensures recvQueue.repr == old(recvQueue.repr) && fresh(eventFrame.repr - old(eventFrame.repr))
      ensures byteData == None ==>
        && recvQueue.contents == [] && taken == chunks && Progress(s, c, queued, chunks, taken)
        && status == old(status) && sockOpen == old(sockOpen)
        && framer.errorFlg == old(framer.errorFlg) && framer.errorCode == old(framer.errorCode)
      ensures byteData.Some? ==>
        && |recvQueue.contents| < |old(recvQueue.contents)|
        && Progress(s, c, queued, chunks, taken + [byteData.value])
        && framer.errorFlg in {0, -1}
        && (framer.errorFlg == -1 <==> old(framer.errorFlg) == -1 || framer.errorCode != NoError || queueError)
        && (old(framer.errorCode) != NoError ==> framer.errorCode != NoError)
        && status == (if old(framer.errorFlg) == 0 && framer.errorFlg == -1 then SysError else old(status))
        && (sockOpen ==> old(sockOpen) && (status == old(status) || queueError))
    {
      hide Recv, RecvAll, FramerSpec.Valid, SQueue.Valid, SiDaqFramer.Valid, CountsFrom;
      var dataSize;
      byteData, dataSize := recvQueue.SQGet(50, false);
      if byteData.Some? {
        Fed(s, queued, taken, byteData.value);
        Regrouped(taken, [byteData.value], recvQueue.contents);
        FrameOne(byteData.value, past);
      }
    }
  }

  /** Feeding one more chunk, as seen by the event queue. */
  lemma Fed(s: State, queued: seq<seq<Byte>>, taken: seq<seq<Byte>>, chunk: seq<Byte>)
    requires FramerSpec.Valid(s)
    ensures var p, q := RecvAll(s, taken, |queued|), RecvAll(s, taken + [chunk], |queued|);
            && (p.state.error != NoError ==> q.state.error != NoError)
            && (if chunk == [] then q == p
                else
                  var o := Recv(p.state, chunk, CountsFrom(|queued + p.frames|));
                  q.state == o.state && queued + q.frames == (queued + p.frames) + o.frames)
  {
    hide RecvAll, Recv, FramerSpec.Valid, CountsFrom;
    RecvAllSnoc(s, taken, chunk, |queued|);
    var p := RecvAll(s, taken, |queued|);
    assert |queued + p.frames| == |queued| + |p.frames|;
    var counts := CountsFrom(|queued + p.frames|);
    if p.state.error != NoError { ErrorStays(p.state, chunk, counts); }
    Regrouped(queued, p.frames, Recv(p.state, chunk, counts).frames);
  }

  lemma Regrouped<T>(a: seq<T>, b: seq<T>, c: seq<T>)
    ensures a + (b + c) == (a + b) + c
  {
  }

  /**
   With short headers and no frame-queue limit the thread's frames are, byte for byte, what was parked
   followed by everything queued, its last frame included.
   */
  lemma ThreadLosesNothing(s: State, chunks: seq<seq<Byte>>, c: nat)
    requires FramerSpec.Valid(s) && s.queueLimit == 0 && s.mode.headerLen <= 2
    ensures var r := RecvAll(s, chunks, c);
            Concat(r.frames + LastFrame(r.state)) == s.parked + Concat(chunks)
  {
    RunAccounts(s, chunks, c);
    var r := RecvAll(s, chunks, c);
    ConcatAppend(r.frames, LastFrame(r.state));
    ConcatOne(r.state.parked);
    assert Concat(LastFrame(r.state)) == r.state.parked;
  }
}
