/**
 The queue under any number of putters and getters. A critical section is one step; the tests of
 the count before it are steps of their own, made without the lock, so a getter may find the queue
 changed when it gets there.
 */
module QueueConcurrency {
  import opened Bytes

  type Item = seq<Byte>

  /** What happened to the queue, in the order of the steps. */
  datatype Event = Enq(x: Item) | Deq(who: nat, x: Item) | SawEmpty(who: nat)

  /** Where a getter is in SQGet, and its answer once it has one; `testedAt` is the log length at its test. */
  datatype Pc =
    | Called
    | Tested(testedAt: nat)
    | AtLock(testedAt: nat)
    | Got(x: Item)
    | NothingYet               // size 0: no data
    | TimedOut                 // size 0: no lock
    | InternalError(testedAt: nat) // size -2

  /** `calledAt` is the log length when SQGet was called. */
  datatype Getter = Getter(pc: Pc, waitMsec: int, calledAt: nat)

  /** An SQGet that has returned: who called it, what came of it, and the log length by then. */
  datatype Answer = Answer(who: nat, call: Getter, answeredAt: nat)

  datatype State = State(queue: seq<Item>, log: seq<Event>, getters: map<nat, Getter>, answers: seq<Answer>)

  datatype Step =
    | Put(x: Item)
    | Call(t: nat, waitMsec: int)
    | Test(t: nat)
    | Retest(t: nat)
    | Take(t: nat, timedOut: bool)

  const INIT := State([], [], map[], [])

  predicate Busy(s: State, t: nat) {
    t in s.getters && (s.getters[t].pc.Called? || s.getters[t].pc.Tested? || s.getters[t].pc.AtLock?)
  }

  predicate Enabled(s: State, step: Step) {
    match step
    case Put(_) => true
    case Call(t, _) => !Busy(s, t)
    case Test(t) => t in s.getters && s.getters[t].pc.Called?
    case Retest(t) => t in s.getters && s.getters[t].pc.Tested?
    case Take(t, _) => t in s.getters && s.getters[t].pc.AtLock?
  }

  function At(s: State, t: nat, pc: Pc): State
    requires t in s.getters
  {
    s.(getters := s.getters[t := s.getters[t].(pc := pc)])
  }

  /** SQGet returns, with what happened to the queue in its last step. */
  function Answers(s: State, t: nat, pc: Pc, happened: seq<Event>): State
    requires t in s.getters
  {
    var log, call := s.log + happened, s.getters[t].(pc := pc);
    s.(getters := s.getters[t := call], log := log, answers := s.answers + [Answer(t, call, |log|)])
  }

  /** `_sque_get` came back with NULL. */
  function FoundNothing(s: State, t: nat, testedAt: nat): State
    requires t in s.getters
  {
    Answers(s, t, if s.getters[t].waitMsec < 0 then InternalError(testedAt) else NothingYet, [SawEmpty(t)])
  }

  function Do(s: State, step: Step): State
    requires Enabled(s, step)
  {
    match step
    case Put(x) => s.(queue := s.queue + [x], log := s.log + [Enq(x)])
    case Call(t, w) => s.(getters := s.getters[t := Getter(Called, w, |s.log|)])
    case Test(t) =>
      if |s.queue| > 0 then At(s, t, Tested(|s.log|))
      else Answers(s, t, NothingYet, [SawEmpty(t)])
    case Retest(t) =>
      var at := s.getters[t].pc.testedAt;
      if |s.queue| == 0 then FoundNothing(s, t, at) else At(s, t, AtLock(at))
    case Take(t, timedOut) =>
      if s.getters[t].waitMsec >= 0 && timedOut then Answers(s, t, TimedOut, [])
      else if |s.queue| == 0 then FoundNothing(s, t, s.getters[t].pc.testedAt)
      else Answers(s, t, Got(s.queue[0]), [Deq(t, s.queue[0])]).(queue := s.queue[1..])
  }

  /** The state after the steps, in any interleaving; none if a step was not possible. */
  function Exec(steps: seq<Step>): Option<State> {
    if steps == [] then Some(INIT)
    else
      var before := Exec(steps[..|steps| - 1]);
      var last := steps[|steps| - 1];
      if before.Some? && Enabled(before.value, last) then Some(Do(before.value, last)) else None
  }

  // ----- the sequential queue

  /** A history as a queue without concurrency would have it; none if it could not. */
  function Replay(log: seq<Event>): Option<seq<Item>> {
    if log == [] then Some([])
    else
      var before := Replay(log[..|log| - 1]);
      if before == None then None
      else
        var q := before.value;
        match log[|log| - 1]
        case Enq(x) => Some(q + [x])
        case Deq(_, x) => if q != [] && q[0] == x then Some(q[1..]) else None
        case SawEmpty(_) => if q == [] then Some(q) else None
  }

  function Enqueued(log: seq<Event>): seq<Item> {
    if log == [] then []
    else
      var last := log[|log| - 1];
      Enqueued(log[..|log| - 1]) + if last.Enq? then [last.x] else []
  }

  function Dequeued(log: seq<Event>): seq<Item> {
    if log == [] then []
    else
      var last := log[|log| - 1];
      Dequeued(log[..|log| - 1]) + if last.Deq? then [last.x] else []
  }

  /** In a sequential history the items taken, then those left, are the items put, in order. */
  lemma {:induction false} FifoHistory(log: seq<Event>)
    requires Replay(log).Some?
    ensures Dequeued(log) + Replay(log).value == Enqueued(log)
  {
    if log != [] {
      var before, last := log[..|log| - 1], log[|log| - 1];
      FifoHistory(before);
      var taken, q := Dequeued(before), Replay(before).value;
      if last.Enq? {
        assert taken + (q + [last.x]) == (taken + q) + [last.x];
      } else if last.Deq? {
        assert taken + q == (taken + [q[0]]) + q[1..];
      }
    }
  }

  lemma ReplayOn(log: seq<Event>, e: Event)
    requires Replay(log).Some?
    ensures var q := Replay(log).value;
            Replay(log + [e]) ==
            match e
            case Enq(x) => Some(q + [x])
            case Deq(_, x) => if q != [] && q[0] == x then Some(q[1..]) else None
            case SawEmpty(_) => if q == [] then Some(q) else None
  {
    assert (log + [e])[..|log|] == log;
  }

  /** A queue that was not empty and now is: somebody took something in between. */
  lemma {:induction false} EmptiedBySomeone(log: seq<Event>, n: nat)
    requires Replay(log) == Some([]) && n <= |log|
    requires Replay(log[..n]) != Some([])
    ensures exists i :: n <= i < |log| && log[i].Deq?
  {
    assert log[..|log|] == log;
    if n < |log| {
      var before, last := log[..|log| - 1], log[|log| - 1];
      if last.Deq? {
        assert log[|log| - 1].Deq?;
      } else {
        assert before[..n] == log[..n];
        EmptiedBySomeone(before, n);
        var i :| n <= i < |before| && before[i].Deq?;
        assert log[i].Deq?;
      }
    }
  }

  // ----- what every interleaving keeps

  predicate ActedSince(log: seq<Event>, n: nat, t: nat) {
    exists i :: n <= i < |log| && Of(log[i], t)
  }

  predicate Of(e: Event, t: nat) {
    (e.Deq? || e.SawEmpty?) && e.who == t
  }

  /** A getter at work has done nothing to the queue since its call, and saw it non-empty at its test. */
  predicate GetterOk(s: State, t: nat)
    requires t in s.getters
  {
    var g := s.getters[t];
    && (Busy(s, t) ==> g.calledAt <= |s.log| && !ActedSince(s.log, g.calledAt, t))
    && (g.pc.Tested? || g.pc.AtLock? ==>
          && g.calledAt <= g.pc.testedAt <= |s.log|
          && Replay(s.log[..g.pc.testedAt]).Some? && Replay(s.log[..g.pc.testedAt]) != Some([]))
  }

  predicate Inv(s: State) {
    && Replay(s.log) == Some(s.queue)
    && forall t :: t in s.getters ==> GetterOk(s, t)
  }

  lemma GettersKept(s: State, s': State, t: nat)
    requires Inv(s) && t in s'.getters
    requires s'.log == s.log || (|s'.log| == |s.log| + 1 && s.log <= s'.log && !Of(s'.log[|s.log|], t))
    requires t in s.getters && s'.getters[t] == s.getters[t]
    ensures GetterOk(s', t)
  {
    var pc := s.getters[t].pc;
    assert GetterOk(s, t);
    assert forall i :: 0 <= i < |s.log| ==> s'.log[i] == s.log[i];
    if pc.Tested? || pc.AtLock? {
      assert s'.log[..pc.testedAt] == s.log[..pc.testedAt];
    }
  }

  lemma ReplayKept(s: State, step: Step)
    requires Replay(s.log) == Some(s.queue) && Enabled(s, step)
    ensures Replay(Do(s, step).log) == Some(Do(s, step).queue)
  {
    var s' := Do(s, step);
    assert s.log + [] == s.log;
    if |s'.log| > |s.log| { ReplayOn(s.log, s'.log[|s.log|]); }
  }

  /** The getter that takes the step. */
  lemma OwnGetterKept(s: State, step: Step)
    requires Inv(s) && Enabled(s, step) && !step.Put?
    ensures GetterOk(Do(s, step), step.t)
  {
    assert s.log + [] == s.log && s.log[..|s.log|] == s.log;
    if step.t in s.getters { assert GetterOk(s, step.t); }
    hide Replay;
  }

  /** All other getters; the step adds no event of theirs. */
  lemma OtherGetterKept(s: State, step: Step, t: nat)
    requires Inv(s) && Enabled(s, step) && (step.Put? || step.t != t) && t in Do(s, step).getters
    ensures GetterOk(Do(s, step), t)
  {
    hide Replay;
    assert s.log + [] == s.log;
    GettersKept(s, Do(s, step), t);
  }

  lemma InvKept(s: State, step: Step)
    requires Inv(s) && Enabled(s, step)
    ensures Inv(Do(s, step))
  {
    hide Do, Replay, GetterOk;
    ReplayKept(s, step);
    forall t | t in Do(s, step).getters
      ensures GetterOk(Do(s, step), t)
    {
      if !step.Put? && step.t == t { OwnGetterKept(s, step); } else { OtherGetterKept(s, step, t); }
    }
  }

  // ----- every answer is given by an event of its own

  /** Between two lengths of the log, `t` took part in the event `e` and in no other. */
  predicate OnlyEvent(log: seq<Event>, from: nat, to: nat, t: nat, e: Event) {
    exists i ::
      && from <= i < to && i < |log| && log[i] == e && Of(e, t)
      && forall j :: from <= j < to && j < |log| && Of(log[j], t) ==> j == i
  }

  /** What SQGet did to the queue if this is its answer; a timeout did nothing. */
  function EventOf(who: nat, pc: Pc): Event {
    if pc.Got? then Deq(who, pc.x) else SawEmpty(who)
  }

  /** The answer is justified by the getter's one event between its call and its return. */
  predicate Justified(log: seq<Event>, a: Answer) {
    var pc := a.call.pc;
    && a.call.calledAt <= a.answeredAt <= |log|
    && (pc.Got? || pc.NothingYet? || pc.InternalError? || pc.TimedOut?)
    && (pc.InternalError? ==> a.call.waitMsec < 0)
    && (if pc.TimedOut? then
          a.call.waitMsec >= 0 && !ActedSince(log[..a.answeredAt], a.call.calledAt, a.who)
        else
          OnlyEvent(log, a.call.calledAt, a.answeredAt, a.who, EventOf(a.who, pc)))
  }

  /** Event `i` is what some answer came of. */
  predicate Answered(s: State, i: nat)
    requires i < |s.log|
  {
    exists k ::
      && 0 <= k < |s.answers| && s.answers[k].answeredAt == i + 1 && Of(s.log[i], s.answers[k].who)
      && (s.log[i].Deq? ==> s.answers[k].call.pc == Got(s.log[i].x))
  }

  predicate AnswersInv(s: State) {
    && (forall k :: 0 <= k < |s.answers| ==> Justified(s.log, s.answers[k]))
    && (forall i :: 0 <= i < |s.log| && !s.log[i].Enq? ==> Answered(s, i))
  }

  lemma StillJustified(log: seq<Event>, log': seq<Event>, a: Answer)
    requires Justified(log, a) && log <= log'
    ensures Justified(log', a)
  {
    assert forall i :: 0 <= i < |log| ==> log'[i] == log[i];
    if a.call.pc.TimedOut? {
      assert log'[..a.answeredAt] == log[..a.answeredAt];
    } else {
      var e := EventOf(a.who, a.call.pc);
      assert OnlyEvent(log, a.call.calledAt, a.answeredAt, a.who, e);
      assert OnlyEvent(log', a.call.calledAt, a.answeredAt, a.who, e);
    }
  }

  /** The getter `t` has just returned, its last event being the last in the log. */
  predicate JustAnswered(s: State, s': State, t: nat) {
    && Busy(s, t) && t in s'.getters
    && s'.answers == s.answers + [Answer(t, s'.getters[t], |s'.log|)]
    && s'.getters[t].calledAt == s.getters[t].calledAt && s'.getters[t].waitMsec == s.getters[t].waitMsec
    && var pc := s'.getters[t].pc;
       && (pc.Got? || pc.NothingYet? || pc.InternalError? || pc.TimedOut?)
       && (pc.InternalError? ==> s.getters[t].waitMsec < 0) && (pc.TimedOut? ==> s.getters[t].waitMsec >= 0)
       && s'.log == s.log + if pc.TimedOut? then [] else [EventOf(t, pc)]
  }

  lemma StepAdds(s: State, step: Step)
    requires Enabled(s, step)
    ensures var s' := Do(s, step);
            if |s'.answers| == |s.answers| then
              s'.answers == s.answers && (s'.log == s.log || exists x :: s'.log == s.log + [Enq(x)])
            else
              !step.Put? && JustAnswered(s, s', step.t)
  {
    assert s.log + [] == s.log;
  }

  lemma NewAnswerJustified(log: seq<Event>, log': seq<Event>, a: Answer, e: Event)
    requires a.call.calledAt <= |log| && !ActedSince(log, a.call.calledAt, a.who)
    requires log' == log + [e] && Of(e, a.who) && a.answeredAt == |log'|
    ensures OnlyEvent(log', a.call.calledAt, a.answeredAt, a.who, e)
  {
    assert log'[|log|] == e;
    assert forall j :: 0 <= j < |log| ==> log'[j] == log[j];
  }

  lemma AnswersKept(s: State, step: Step)
    requires Inv(s) && AnswersInv(s) && Enabled(s, step)
    ensures AnswersInv(Do(s, step))
  {
    var s' := Do(s, step);
    StepAdds(s, step);
    hide Do, Enabled, Replay, Justified, Answered;
    assert s.log <= s'.log && s.answers <= s'.answers;
    forall k | 0 <= k < |s'.answers|
      ensures Justified(s'.log, s'.answers[k])
    {
      if k < |s.answers| {
        StillJustified(s.log, s'.log, s'.answers[k]);
      } else {
        assert GetterOk(s, step.t);
        LastAnswerJustified(s, s', step.t);
      }
    }
    forall i | 0 <= i < |s'.log| && !s'.log[i].Enq?
      ensures Answered(s', i)
    {
      if i < |s.log| {
        assert Answered(s, i);
        StillAnswered(s, s', i);
      } else {
        LastAnswered(s, s', step.t);
      }
    }
  }

  lemma LastAnswerJustified(s: State, s': State, t: nat)
    requires JustAnswered(s, s', t) && GetterOk(s, t)
    ensures Justified(s'.log, s'.answers[|s.answers|])
  {
    hide Replay;
    var a := s'.answers[|s.answers|];
    if |s'.log| > |s.log| { NewAnswerJustified(s.log, s'.log, a, s'.log[|s.log|]); }
  }

  lemma LastAnswered(s: State, s': State, t: nat)
    requires JustAnswered(s, s', t) && |s'.log| > |s.log|
    ensures Answered(s', |s.log|)
  {
    assert s'.answers[|s.answers|].answeredAt == |s.log| + 1;
  }

  lemma StillAnswered(s: State, s': State, i: nat)
    requires i < |s.log| && Answered(s, i) && s.log <= s'.log && s.answers <= s'.answers
    ensures Answered(s', i)
  {
    assert s'.log[i] == s.log[i];
    assert forall k :: 0 <= k < |s.answers| ==> s'.answers[k] == s.answers[k];
  }

  lemma {:induction false} ExecInv(steps: seq<Step>)
    requires Exec(steps).Some?
    ensures Inv(Exec(steps).value) && AnswersInv(Exec(steps).value)
  {
    if steps != [] {
      hide Do, Enabled, Inv, AnswersInv;
      ExecInv(steps[..|steps| - 1]);
      InvKept(Exec(steps[..|steps| - 1]).value, steps[|steps| - 1]);
      AnswersKept(Exec(steps[..|steps| - 1]).value, steps[|steps| - 1]);
    }
  }

  /**
   Linearizability. Under every interleaving the puts, takes and empty answers, in the order of their
   steps, are a history of the sequential queue, so the items taken, in order, are a prefix of the items
   put, and the rest is in the queue; every answer was given by one event of its getter between its
   call and its return, a timeout by none; and every take and every empty look was somebody's answer.
   */
  lemma {:induction false} Linearizable(steps: seq<Step>)
    requires Exec(steps).Some?
    ensures var s := Exec(steps).value;
            && Replay(s.log) == Some(s.queue)
            && Dequeued(s.log) + s.queue == Enqueued(s.log)
            && Dequeued(s.log) <= Enqueued(s.log)
            && (forall k :: 0 <= k < |s.answers| ==> Justified(s.log, s.answers[k]))
            && (forall i :: 0 <= i < |s.log| && !s.log[i].Enq? ==> Answered(s, i))
  {
    ExecInv(steps);
    FifoHistory(Exec(steps).value.log);
  }

  /** Calls that follow one another in time have their events in that order. */
  lemma {:induction false} RealTimeOrder(steps: seq<Step>, a: Answer, b: Answer)
    requires Exec(steps).Some? && a in Exec(steps).value.answers && b in Exec(steps).value.answers
    requires a.answeredAt <= b.call.calledAt && !a.call.pc.TimedOut? && !b.call.pc.TimedOut?
    ensures var log := Exec(steps).value.log;
            exists i, j ::
              && 0 <= i < j < |log|
              && log[i] == EventOf(a.who, a.call.pc) && log[j] == EventOf(b.who, b.call.pc)
  {
    ExecInv(steps);
    hide Exec, Inv, EventOf;
    assert Justified(Exec(steps).value.log, a) && Justified(Exec(steps).value.log, b);
  }

  /**
   A getter that finds the queue empty behind its test, which found it not empty, answers size -2 if and only if its
   wait is negative, and size 0 if not; and it has been overtaken: some other getter took an item since.
   A getter that finds it empty at its test answers size 0.
   */
  lemma InternalErrorIffOvertaken(steps: seq<Step>, step: Step)
    requires Exec(steps).Some? && Enabled(Exec(steps).value, step) && !step.Put? && !step.Call?
    ensures var s, pc := Exec(steps).value, Do(Exec(steps).value, step).getters[step.t].pc;
            && (pc.InternalError? <==> !step.Test? && s.queue == [] && s.getters[step.t].waitMsec < 0)
            && (pc.InternalError? ==>
                  exists i :: pc.testedAt <= i < |s.log| && s.log[i].Deq? && s.log[i].who != step.t)
            && (s.queue == [] && !pc.TimedOut? ==> pc.InternalError? || pc.NothingYet?)
            && (pc.NothingYet? ==> s.queue == [])
  {
    ExecInv(steps);
    var s := Exec(steps).value;
    if Do(s, step).getters[step.t].pc.InternalError? {
      var at := s.getters[step.t].pc.testedAt;
      assert GetterOk(s, step.t);
      EmptiedBySomeone(s.log, at);
      var i :| at <= i < |s.log| && s.log[i].Deq?;
      assert !Of(s.log[i], step.t);
    }
  }

  /** With a single getter, as on the receive queue, size -2 does not occur. */
  lemma SingleGetterNeverErrs(steps: seq<Step>, step: Step)
    requires Exec(steps).Some? && Enabled(Exec(steps).value, step) && !step.Put? && !step.Call?
    requires forall i :: 0 <= i < |Exec(steps).value.log| && Exec(steps).value.log[i].Deq? ==>
               Exec(steps).value.log[i].who == step.t
    ensures !Do(Exec(steps).value, step).getters[step.t].pc.InternalError?
  {
    if Do(Exec(steps).value, step).getters[step.t].pc.InternalError? {
      InternalErrorIffOvertaken(steps, step);
    }
  }
}
