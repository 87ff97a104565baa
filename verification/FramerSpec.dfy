/**
 The streaming framer as a function on values. A call of RecvSiDaqData takes the framer's
 state and one chunk to the next state, the frames it queues and its return value.

 The 262144-byte work buffer is split into `parked`, its first `_rest` bytes, and `stale`, what
 earlier calls left behind the parked bytes. Stale bytes matter: a header cut after two or
 more bytes is saved by copying its first byte only, so the others are whatever was there.
 When nothing is parked byte 0 of the buffer is not part of the state: the code fills it with a
 byte read past the end of the chunk, and every later use overwrites it first.
 */
module FramerSpec {
  import opened Bytes

  const BUFF_SIZE: nat := 262144

  /** A frame length function: received bytes and header length to event length, negative on failure. */
  type LengthFunc = (seq<Byte>, nat) -> Int32

  datatype Mode = Mode(lengthFunc: Option<LengthFunc>, headerLen: nat, fixedLen: Uint32)

  const NULL_MODE := Mode(None, 0, 0)

  datatype ErrorCode =
    | NoError
    | InvalidParameter
    | MemoryAllocatedFailed
    | ExceedFrameQueueCount
    | GetFrameLengthFailed
    | ExceedMaxFrameLength
    | BufSizeError

  datatype State = State(
    parked: seq<Byte>,
    stale: seq<Byte>,
    mode: Mode,
    error: ErrorCode,
    maxFrameLen: Uint32,
    queueLimit: Uint32)

  /** What one call does; `ret` is its return value, negative when it gave up on the queue limit. */
  datatype Outcome = Outcome(state: State, frames: seq<seq<Byte>>, ret: int)

  function Zeros(n: nat): (s: seq<Byte>)
    ensures |s| == n
  {
    seq(n, i => 0)
  }

  /** The framer as NewSiDaqFramer and SiDaqRun leave it. */
  function Fresh(m: Mode, maxFrameLen: Uint32, queueLimit: Uint32): State {
    State([], Zeros(BUFF_SIZE - 1), m, NoError, maxFrameLen, queueLimit)
  }

  // ----- the length function's side of the bargain

  ghost predicate AgreesOnHeader(f: LengthFunc, h: nat, a: seq<Byte>) {
    h <= |a| ==> f(a, h) == f(a[..h], h)
  }

  /** The length function looks only at the header, once the header is complete. */
  ghost predicate HeaderDetermined(m: Mode) {
    m.lengthFunc.Some? && m.headerLen != 0 ==>
      forall a :: AgreesOnHeader(m.lengthFunc.value, m.headerLen, a)
  }

  // ----- one frame

  function EventLen(m: Mode, avail: seq<Byte>): int {
    if m.lengthFunc.Some? && m.headerLen != 0 then m.lengthFunc.value(avail, m.headerLen)
    else if m.fixedLen != 0 then AsInt32(m.fixedLen)
    else |avail|
  }

  datatype Verdict = Verdict(mode: Mode, error: ErrorCode, eventLen: int) {
    function FrameLen(): int {
      eventLen + mode.headerLen
    }
  }

  /** Length of the frame at the head of `avail`; a bad length switches to the null framer. */
  function Decide(m: Mode, error: ErrorCode, max: Uint32, avail: seq<Byte>): Verdict {
    var e := EventLen(m, avail);
    var v := if e < 0 then Verdict(NULL_MODE, GetFrameLengthFailed, |avail|) else Verdict(m, error, e);
    if v.FrameLen() > max then Verdict(NULL_MODE, ExceedMaxFrameLength, |avail|) else v
  }

  function Judge(s: State, avail: seq<Byte>): Verdict {
    Decide(s.mode, s.error, s.maxFrameLen, avail)
  }

  predicate LimitHit(s: State, count: nat) {
    s.queueLimit != 0 && count >= s.queueLimit
  }

  // ----- what the framer keeps

  /** The parked bytes are strictly shorter than the frame they begin. */
  predicate ParkedShort(s: State) {
    s.parked != [] ==>
      && |s.parked| < s.maxFrameLen
      && (|s.parked| < s.mode.headerLen
          || (0 <= EventLen(s.mode, s.parked)
              && |s.parked| < EventLen(s.mode, s.parked) + s.mode.headerLen <= s.maxFrameLen))
  }

  ghost predicate Valid(s: State) {
    && s.mode.headerLen < s.maxFrameLen <= BUFF_SIZE
    && |s.stale| == BUFF_SIZE - Max(|s.parked|, 1)
    && HeaderDetermined(s.mode)
    && ParkedShort(s)
  }

  /** A call leaves the limits alone, and the mode unless it falls back to the null framer. */
  ghost predicate SameSetup(s: State, t: State) {
    && t.maxFrameLen == s.maxFrameLen && t.queueLimit == s.queueLimit
    && (t.mode == s.mode || t.mode == NULL_MODE)
  }

  // ----- the two places that park

  /** Fewer bytes than a header: only the first is copied into the buffer. */
  function ParkShort(s: State, data: seq<Byte>): State
    requires s.parked == [] && |data| <= |s.stale| + 1
  {
    if data == [] then s
    else s.(parked := [data[0]] + s.stale[..|data| - 1], stale := s.stale[|data| - 1..])
  }

  function Park(s: State, data: seq<Byte>): State
    requires s.parked == [] && 0 < |data| <= |s.stale| + 1
  {
    s.(parked := data, stale := s.stale[|data| - 1..])
  }

  /**
   The bytes of the work buffer when a header is cut: the first is the chunk's, all others are what they were, so what
   is parked behind the first byte was there before.
   */
  lemma ShortHeaderKeepsBuffer(s: State, data: seq<Byte>)
    requires s.parked == [] && 0 < |data| <= |s.stale| + 1
    ensures var t := ParkShort(s, data);
            |t.parked| == |data| && t.parked[0] == data[0] && (t.parked + t.stale)[1..] == s.stale
  {
  }

  // ----- one call

  function Prepend(frame: seq<Byte>, o: Outcome): Outcome {
    o.(frames := [frame] + o.frames)
  }

  /** The length decision: a length in range is taken, any other gives up on framing and takes all there is. */
  lemma JudgeFacts(s: State, avail: seq<Byte>)
    requires Valid(s) && avail != []
    ensures var v, e := Judge(s, avail), EventLen(s.mode, avail);
            && 0 < v.FrameLen()
            && v.mode.headerLen < s.maxFrameLen
            && HeaderDetermined(v.mode)
            && (if 0 <= e && e + s.mode.headerLen <= s.maxFrameLen then v == Verdict(s.mode, s.error, e)
                else v.mode == NULL_MODE && v.error in {GetFrameLengthFailed, ExceedMaxFrameLength}
                     && v.eventLen == |avail|)
  {
  }

  /**
   The error code the decision sets. Giving up takes all there is as one frame, so a failed length shows as such
   only if that frame is not too long itself.
   */
  lemma JudgeCode(s: State, avail: seq<Byte>)
    requires Valid(s)
    ensures var e := EventLen(s.mode, avail);
            Judge(s, avail).error ==
            if 0 <= e && e + s.mode.headerLen <= s.maxFrameLen then s.error
            else if e < 0 && |avail| <= s.maxFrameLen then GetFrameLengthFailed
            else ExceedMaxFrameLength
  {
  }

  /**
   Second phase: cut frames off the chunk until it is used up. `counts(i)` is the queue length the
   i-th put of this call reports, so the model does not fix what consumers do meanwhile;
   `n` frames have been put already.
   */
  function Loop(s: State, data: seq<Byte>, counts: nat -> nat, n: nat): (o: Outcome)
    requires Valid(s) && s.parked == []
    ensures Valid(o.state) && SameSetup(s, o.state)
    ensures s.queueLimit == 0 ==> 0 <= o.ret
    decreases |data|
  {
    if data == [] || |data| < s.mode.headerLen then
      Outcome(ParkShort(s, data), [], n)
    else
      var v := Judge(s, data);
      JudgeFacts(s, data);
      var s' := s.(mode := v.mode, error := v.error);
      var k := v.FrameLen();
      if |data| < k then
        Outcome(Park(s', data), [], n)
      else if LimitHit(s', counts(n)) then
        Outcome(s'.(error := ExceedFrameQueueCount), [data[..k]], -1)
      else
        Prepend(data[..k], Loop(s', data[k..], counts, n + 1))
  }

  /** One pass of the second phase, spelled out from its length decision. */
  lemma LoopOnce(s: State, data: seq<Byte>, counts: nat -> nat, n: nat)
    requires Valid(s) && s.parked == []
    ensures |s.stale| == BUFF_SIZE - 1
    ensures if data == [] || |data| < s.mode.headerLen then
              |data| <= BUFF_SIZE && Loop(s, data, counts, n) == Outcome(ParkShort(s, data), [], n)
            else
              var v := Judge(s, data);
              var s', k := s.(mode := v.mode, error := v.error), v.FrameLen();
              && 0 < k
              && (if |data| < k then
                    |data| <= BUFF_SIZE && Loop(s, data, counts, n) == Outcome(Park(s', data), [], n)
                  else if LimitHit(s', counts(n)) then
                    Loop(s, data, counts, n) == Outcome(s'.(error := ExceedFrameQueueCount), [data[..k]], -1)
                  else
                    Valid(s') && Loop(s, data, counts, n) == Prepend(data[..k], Loop(s', data[k..], counts, n + 1)))
  {
  }

  /** Bytes of the chunk that complete the parked frame; never negative, so no byte is read twice. */
  lemma {:induction false} FrameOutgrowsParked(s: State, merged: seq<Byte>)
    requires Valid(s) && s.parked != [] && s.parked <= merged
    ensures |s.parked| <= Judge(s, merged).FrameLen()
    ensures Judge(s, merged).mode == s.mode && s.mode != NULL_MODE ==> |s.parked| < Judge(s, merged).FrameLen()
  {
    JudgeFacts(s, merged);
    if s.mode.lengthFunc.Some? && s.mode.headerLen != 0 && s.mode.headerLen <= |s.parked| {
      var f, h := s.mode.lengthFunc.value, s.mode.headerLen;
      assert AgreesOnHeader(f, h, merged) && AgreesOnHeader(f, h, s.parked);
      assert merged[..h] == s.parked[..h];
    }
  }

  // ----- first phase: complete the parked frame

  /** How much of the chunk fits behind the parked bytes. */
  function Copied(s: State, data: seq<Byte>): nat
    requires |s.parked| <= BUFF_SIZE
  {
    Min(|data|, BUFF_SIZE - |s.parked|)
  }

  function Merged(s: State, data: seq<Byte>): seq<Byte>
    requires |s.parked| <= BUFF_SIZE
  {
    s.parked + data[..Copied(s, data)]
  }

  lemma MergedFacts(s: State, data: seq<Byte>)
    requires |s.parked| <= BUFF_SIZE
    ensures var all, merged := s.parked + data, Merged(s, data);
            && |s.parked| <= |merged| <= |all| && merged == all[..|merged|] && merged <= all
            && (|merged| < |all| ==> |merged| == BUFF_SIZE)
            && (data != [] && |s.parked| < BUFF_SIZE ==> |s.parked| < |merged|)
  {
  }

  lemma ValidBounds(s: State)
    requires Valid(s)
    ensures s.mode.headerLen < s.maxFrameLen <= BUFF_SIZE && HeaderDetermined(s.mode)
    ensures s.parked != [] ==> |s.parked| < s.maxFrameLen
  {
  }

  lemma CutAt(parked: seq<Byte>, data: seq<Byte>, merged: seq<Byte>, k: nat)
    requires |parked| <= k <= |merged| <= |parked + data| && merged == (parked + data)[..|merged|]
    ensures (parked + data)[k..] == data[k - |parked|..] && (parked + data)[..k] == merged[..k]
    ensures merged[..k] + data[k - |parked|..] == parked + data
  {
  }

  predicate Completes(s: State, data: seq<Byte>)
    requires |s.parked| <= BUFF_SIZE
  {
    Judge(s, Merged(s, data)).FrameLen() <= |Merged(s, data)|
  }

  /** Bytes of the chunk that went into the completed frame. */
  function Used(s: State, data: seq<Byte>): (n: nat)
    requires Valid(s) && s.parked != []
    ensures Completes(s, data) ==> n <= |data|
  {
    FrameOutgrowsParked(s, Merged(s, data));
    Judge(s, Merged(s, data)).FrameLen() - |s.parked|
  }

  function FirstFrame(s: State, data: seq<Byte>): seq<Byte>
    requires Valid(s) && s.parked != [] && Completes(s, data)
  {
    JudgeFacts(s, Merged(s, data));
    Merged(s, data)[..Judge(s, Merged(s, data)).FrameLen()]
  }

  /** The state once the completed frame has been put and the queue reported length `count`. */
  function AfterFirst(s: State, data: seq<Byte>, count: nat): (r: State)
    requires Valid(s) && s.parked != []
    ensures Valid(r) && SameSetup(s, r) && r.parked == []
  {
    JudgeFacts(s, Merged(s, data));
    var v := Judge(s, Merged(s, data));
    var error := if LimitHit(s, count) then ExceedFrameQueueCount else v.error;
    s.(parked := [], stale := (Merged(s, data) + s.stale[Copied(s, data)..])[1..], mode := v.mode, error := error)
  }

  /** Whether the parked frame is complete, and where in the chunk it ends. */
  lemma FirstPhaseLength(s: State, data: seq<Byte>)
    requires Valid(s) && s.parked != []
    ensures var k := Judge(s, Merged(s, data)).FrameLen();
            && Completes(s, data) == (k <= |Merged(s, data)|)
            && Used(s, data) == k - |s.parked|
  {
  }

  /** The first phase, spelled out from its length decision. */
  lemma FirstPhase(s: State, data: seq<Byte>, count: nat)
    requires Valid(s) && s.parked != []
    ensures var merged, v := Merged(s, data), Judge(s, Merged(s, data));
            && 0 < v.FrameLen()
            && Completes(s, data) == (v.FrameLen() <= |merged|)
            && (if v.FrameLen() <= |merged| then
                  && FirstFrame(s, data) == merged[..v.FrameLen()]
                  && Used(s, data) == v.FrameLen() - |s.parked|
                  && AfterFirst(s, data, count) ==
                     State([], (merged + s.stale[Copied(s, data)..])[1..], v.mode,
                           if LimitHit(s, count) then ExceedFrameQueueCount else v.error, s.maxFrameLen, s.queueLimit)
                else
                  && v.mode == s.mode && v.error == s.error
                  && Valid(s.(parked := merged, stale := s.stale[Copied(s, data)..])))
  {
    JudgeFacts(s, Merged(s, data));
    FrameOutgrowsParked(s, Merged(s, data));
  }

  /** What the first phase comes to; `used` is how much of the chunk went into the completed frame. */
  datatype First = First(state: State, frames: seq<seq<Byte>>, used: Option<nat>)

  function PhaseOne(s: State, data: seq<Byte>, count: nat): (f: First)
    requires Valid(s) && s.parked != []
    ensures Valid(f.state) && SameSetup(s, f.state)
    ensures match f.used
            case None => f.frames == []
            case Some(n) => f.state.parked == [] && n <= |data| && |f.frames| == 1
  {
    JudgeFacts(s, Merged(s, data));
    FrameOutgrowsParked(s, Merged(s, data));
    if Completes(s, data) then First(AfterFirst(s, data, count), [FirstFrame(s, data)], Some(Used(s, data)))
    else First(s.(parked := Merged(s, data), stale := s.stale[Copied(s, data)..]), [], None)
  }

  lemma PhaseOneCases(s: State, data: seq<Byte>, count: nat)
    requires Valid(s) && s.parked != []
    ensures PhaseOne(s, data, count) ==
            if Completes(s, data) then First(AfterFirst(s, data, count), [FirstFrame(s, data)], Some(Used(s, data)))
            else First(s.(parked := Merged(s, data), stale := s.stale[Copied(s, data)..]), [], None)
  {
  }

  /** The first phase by the length found, when there is no limit on the queue. */
  lemma PhaseOneByLength(s: State, data: seq<Byte>, count: nat)
    requires Valid(s) && s.parked != [] && s.queueLimit == 0
    ensures var f, merged, e := PhaseOne(s, data, count), Merged(s, data), EventLen(s.mode, Merged(s, data));
            var k := e + s.mode.headerLen;
            if e < 0 || s.maxFrameLen < k then
              && f.used == Some(|merged| - |s.parked|) && f.state.mode == NULL_MODE
              && f.state.error == (if e < 0 && |merged| <= s.maxFrameLen then GetFrameLengthFailed
                                   else ExceedMaxFrameLength)
            else if |merged| < k then
              f.used == None && f.state.parked == merged
            else
              && |s.parked| <= k && f.used == Some(k - |s.parked|) && f.frames == [merged[..k]]
              && f.state.mode == s.mode && f.state.error == s.error
  {
    FirstPhase(s, data, count);
    JudgeFacts(s, Merged(s, data));
    JudgeCode(s, Merged(s, data));
    FrameOutgrowsParked(s, Merged(s, data));
    hide Valid, EventLen, Decide;
  }

  /** One call of RecvSiDaqData. */
  function Recv(s: State, data: seq<Byte>, counts: nat -> nat): (o: Outcome)
    requires Valid(s)
    ensures Valid(o.state) && SameSetup(s, o.state)
    ensures s.queueLimit == 0 ==> 0 <= o.ret
  {
    if s.parked == [] then Loop(s, data, counts, 0)
    else if BUFF_SIZE < |s.parked| then Outcome(s.(error := BufSizeError), [], -1)
    else
      var f := PhaseOne(s, data, counts(0));
      match f.used
      case None => Outcome(f.state, f.frames, 0)
      case Some(n) =>
        if n < |data| then Prepend(f.frames[0], Loop(f.state, data[n..], counts, 1))
        else Outcome(f.state, f.frames, 1)
  }

  /** A call from the two phases' point of view. */
  lemma RecvByPhases(s: State, data: seq<Byte>, counts: nat -> nat)
    requires Valid(s)
    ensures s.parked == [] ==> Recv(s, data, counts) == Loop(s, data, counts, 0)
    ensures s.parked != [] ==>
      var f := PhaseOne(s, data, counts(0));
      Recv(s, data, counts) ==
      match f.used
      case None => Outcome(f.state, [], 0)
      case Some(n) =>
        if n < |data| then Prepend(f.frames[0], Loop(f.state, data[n..], counts, 1))
        else Outcome(f.state, [f.frames[0]], 1)
  {
    hide Loop, PhaseOne;
  }

  /** The framer thread's last act: the parked bytes leave as a frame, `_rest` becomes 0. */
  function Flushed(s: State): (r: State)
    requires Valid(s)
    ensures Valid(r) && r.parked == []
  {
    if s.parked == [] then s else s.(parked := [], stale := (s.parked + s.stale)[1..])
  }

  function LastFrame(s: State): seq<seq<Byte>> {
    if s.parked == [] then [] else [s.parked]
  }

  // ----- a run of calls

  /** Queue lengths reported by successive puts when nobody takes anything out. */
  function CountsFrom(c: nat): nat -> nat {
    (i: nat) => c + i + 1
  }

  datatype Run = Run(state: State, frames: seq<seq<Byte>>)

  /** Feeding chunks one after the other, as framer_thread does: empty ones are not passed on. */
  function RecvAll(s: State, chunks: seq<seq<Byte>>, c: nat): (r: Run)
    requires Valid(s)
    ensures Valid(r.state) && SameSetup(s, r.state)
  {
    if chunks == [] then Run(s, [])
    else
      var p := RecvAll(s, chunks[..|chunks| - 1], c);
      var last := chunks[|chunks| - 1];
      if last == [] then p
      else
        var o := Recv(p.state, last, CountsFrom(c + |p.frames|));
        Run(o.state, p.frames + o.frames)
  }

  lemma NothingFed(s: State, c: nat)
    requires Valid(s)
    ensures RecvAll(s, [], c) == Run(s, [])
  {
  }

  lemma RecvAllSnoc(s: State, chunks: seq<seq<Byte>>, chunk: seq<Byte>, c: nat)
    requires Valid(s)
    ensures var p := RecvAll(s, chunks, c);
            RecvAll(s, chunks + [chunk], c) ==
            if chunk == [] then p
            else
              var o := Recv(p.state, chunk, CountsFrom(c + |p.frames|));
              Run(o.state, p.frames + o.frames)
  {
    hide Recv;
    assert (chunks + [chunk])[..|chunks|] == chunks;
  }
}
