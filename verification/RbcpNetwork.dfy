/** Which reply a request ends up with, over whole runs of requests on an unreliable network. */
module RbcpNetwork {
  import opened Bytes
  import opened Rbcp

  /** A reply on its way, with the number of the request it answers. */
  datatype Reply = Reply(to: nat, bytes: seq<Byte>)

  datatype Kind = Kind(length: nat, read: bool)

  /** The client and the replies the device has sent so far; `calls` counts requests, from 1. */
  datatype Net = Net(calls: nat, id: int, waiting: Option<Kind>, replies: set<Reply>)

  datatype Step =
    | Send(kind: Kind)        // a new request, with the next id
    | Answer(reply: Reply)    // the device answers some earlier request, once more or for the first time
    | Receive(reply: Reply)   // any reply sent so far arrives; others may never do
    | GiveUp                  // timeout

  const START := Net(0, 0, None, {})

  /** The device puts the id of the request into its reply. */
  predicate Echoes(r: Reply) {
    3 <= |r.bytes| ==> r.bytes[2] == r.to % 256
  }

  predicate Enabled(n: Net, step: Step) {
    match step
    case Send(_) => n.waiting == None
    case Answer(r) => 1 <= r.to <= n.calls && Echoes(r)
    case Receive(r) => n.waiting.Some? && r in n.replies
    case GiveUp => n.waiting.Some?
  }

  function Do(n: Net, step: Step): Net
    requires Enabled(n, step)
  {
    match step
    case Send(k) => n.(calls := n.calls + 1, id := (n.id + 1) % 256, waiting := Some(k))
    case Answer(r) => n.(replies := n.replies + {r})
    case Receive(_) => n.(waiting := None)
    case GiveUp => n.(waiting := None)
  }

  function Exec(steps: seq<Step>): Option<Net> {
    if steps == [] then Some(START)
    else
      var before := Exec(steps[..|steps| - 1]);
      var last := steps[|steps| - 1];
      if before.Some? && Enabled(before.value, last) then Some(Do(before.value, last)) else None
  }

  /** The client accepts this reply to the request it is waiting on. */
  predicate Accepts(n: Net, r: Reply) {
    n.waiting.Some? && Acceptable(r.bytes, n.waiting.value.length, n.id, n.waiting.value.read)
  }

  predicate Inv(n: Net) {
    n.id == n.calls % 256 && forall r :: r in n.replies ==> 1 <= r.to <= n.calls && Echoes(r)
  }

  lemma InvKept(n: Net, step: Step)
    requires Inv(n) && Enabled(n, step)
    ensures Inv(Do(n, step))
  {
  }

  lemma {:induction false} ExecInv(steps: seq<Step>)
    requires Exec(steps).Some?
    ensures Inv(Exec(steps).value)
  {
    if steps != [] {
      ExecInv(steps[..|steps| - 1]);
      InvKept(Exec(steps[..|steps| - 1]).value, steps[|steps| - 1]);
    }
  }

  /**
   An accepted reply answers a request whose distance to the current one is a multiple of 256, however
   replies are delayed, lost, repeated or reordered; and a reply that is right in all other
   respects is accepted whenever it is. The address plays no part.
   */
  lemma AcceptedModulo256(steps: seq<Step>, r: Reply)
    requires Exec(steps).Some? && Enabled(Exec(steps).value, Receive(r))
    ensures var n := Exec(steps).value;
            var k := n.waiting.value;
            && r.to <= n.calls
            && (Accepts(n, r) <==>
                (n.calls - r.to) % 256 == 0 && Acceptable(r.bytes, k.length, r.to % 256, k.read))
  {
    ExecInv(steps);
    var n := Exec(steps).value;
    SameIdMod256(n.calls, r.to);
  }

  lemma SameIdMod256(a: nat, b: nat)
    requires b <= a
    ensures a % 256 == b % 256 <==> (a - b) % 256 == 0
  {
  }

  /** If no reply is overtaken by 256 later requests, an accepted reply belongs to the current request. */
  lemma AcceptedIsCurrent(steps: seq<Step>, r: Reply)
    requires Exec(steps).Some? && Enabled(Exec(steps).value, Receive(r))
    requires Exec(steps).value.calls - r.to < 256
    ensures Accepts(Exec(steps).value, r) ==> r.to == Exec(steps).value.calls
  {
    AcceptedModulo256(steps, r);
  }

  // ----- a lossless network that keeps order

  /** A correct reply to request `to`. */
  function GoodReply(to: nat, k: Kind): Reply
    requires k.length <= MAX_DATA_LEN
  {
    Reply(to, [0xff, Command(k.read) + 8, to % 256, k.length] + seq(4 + k.length, i => 0))
  }

  lemma GoodReplyAccepted(to: nat, k: Kind, id: Byte, k': Kind)
    requires k.length <= MAX_DATA_LEN
    ensures Acceptable(GoodReply(to, k).bytes, k'.length, id, k'.read) <==> k == k' && to % 256 == id
  {
    var d := GoodReply(to, k).bytes;
    assert d[1] == Command(k.read) + 8 && d[2] == to % 256 && d[3] == k.length;
  }

  /** One request after the other; `late` ones time out before anything arrives. */
  datatype Call = Call(kind: Kind, late: bool)

  datatype Ending = TimedOut | Took(to: nat, accepted: bool)

  predicate Sized(calls: seq<Call>) {
    forall i :: 0 <= i < |calls| ==> calls[i].kind.length <= MAX_DATA_LEN
  }

  /** Replies not yet read, oldest first, after the given calls; every request is answered, in order. */
  function Unread(calls: seq<Call>): seq<Reply>
    requires Sized(calls)
  {
    if calls == [] then []
    else
      var before, last := calls[..|calls| - 1], calls[|calls| - 1];
      var arrived := Unread(before) + [GoodReply(|calls|, last.kind)];
      if last.late then arrived else arrived[1..]
  }

  /** How the last of the given calls ends: a reply that arrived is read, the oldest first. */
  function LastEnding(calls: seq<Call>): Ending
    requires Sized(calls) && calls != []
  {
    var before, last := calls[..|calls| - 1], calls[|calls| - 1];
    if last.late then TimedOut
    else
      var head := (Unread(before) + [GoodReply(|calls|, last.kind)])[0];
      Took(head.to, Acceptable(head.bytes, last.kind.length, |calls| % 256, last.kind.read))
  }

  /** The number of calls that timed out. */
  function Lag(calls: seq<Call>): nat {
    if calls == [] then 0 else Lag(calls[..|calls| - 1]) + if calls[|calls| - 1].late then 1 else 0
  }

  lemma {:induction false} LagBound(calls: seq<Call>)
    ensures Lag(calls) <= |calls|
  {
    if calls != [] { LagBound(calls[..|calls| - 1]); }
  }

  /** Entry `i` of the replies unread after `n` calls answers request `n - |u| + i + 1`. */
  predicate Recent(calls: seq<Call>, u: seq<Reply>)
    requires Sized(calls)
  {
    && |u| <= |calls|
    && forall i {:trigger u[i]} :: 0 <= i < |u| ==>
         u[i] == GoodReply(|calls| - |u| + i + 1, calls[|calls| - |u| + i].kind)
  }

  lemma RecentAfterCall(before: seq<Call>, last: Call, u: seq<Reply>)
    requires Sized(before) && last.kind.length <= MAX_DATA_LEN && Recent(before, u)
    ensures Sized(before + [last])
    ensures var arrived := u + [GoodReply(|before| + 1, last.kind)];
            Recent(before + [last], arrived) && Recent(before + [last], arrived[1..])
  {
    var calls, arrived := before + [last], u + [GoodReply(|before| + 1, last.kind)];
    hide GoodReply;
    forall i | 0 <= i < |arrived|
      ensures arrived[i] == GoodReply(|calls| - |arrived| + i + 1, calls[|calls| - |arrived| + i].kind)
    {
      if i < |u| { assert u[i] == GoodReply(|before| - |u| + i + 1, before[|before| - |u| + i].kind); }
    }
    var popped := arrived[1..];
    forall i | 0 <= i < |popped|
      ensures popped[i] == GoodReply(|calls| - |popped| + i + 1, calls[|calls| - |popped| + i].kind)
    {
      assert popped[i] == arrived[i + 1];
    }
  }

  /** The unread replies are those to the most recent requests, one per timeout so far. */
  lemma {:induction false} UnreadIsLag(calls: seq<Call>)
    requires Sized(calls)
    ensures |Unread(calls)| == Lag(calls) <= |calls| && Recent(calls, Unread(calls))
  {
    LagBound(calls);
    if calls != [] {
      var before, last := calls[..|calls| - 1], calls[|calls| - 1];
      UnreadIsLag(before);
      assert before + [last] == calls;
      RecentAfterCall(before, last, Unread(before));
    }
  }

  /**
   Lag. On a network that loses nothing and keeps order, after `d` timeouts every call that gets a reply reads
   the one to the request `d` calls ago; it is accepted if and only if `d` is a multiple of 256 and
   that request had the same kind. So one late reply makes every later call fail, until further
   timeouts make the lag 0 modulo 256.
   */
  lemma {:induction false} LagDecides(calls: seq<Call>)
    requires Sized(calls) && calls != [] && !calls[|calls| - 1].late
    ensures var d, n := Lag(calls), |calls|;
            && d < n
            && LastEnding(calls) == Took(n - d, d % 256 == 0 && calls[n - 1 - d].kind == calls[n - 1].kind)
  {
    var before, last := calls[..|calls| - 1], calls[|calls| - 1];
    var d, n := Lag(calls), |calls|;
    UnreadIsLag(before);
    var u := Unread(before);
    var head := (u + [GoodReply(n, last.kind)])[0];
    assert u != [] ==> head == u[0];
    assert head == GoodReply(n - d, calls[n - 1 - d].kind);
    GoodReplyAccepted(n - d, calls[n - 1 - d].kind, n % 256, last.kind);
    SameIdMod256(n, n - d);
  }
}
