/** The doubly linked FIFO queue, with its nodes on the heap. */
module SQueueModel {
  import opened Bytes

  /** A queue node; the bytes are the private copy that NewSQData makes. */
  class SQData {
    var parent: SQueue?
    var next: SQData?
    var prev: SQData?
    var size: int
    var dataPtr: Option<seq<Byte>>

    constructor (data: seq<Byte>)
      ensures parent == null && Detached() && size == |data| && dataPtr == Some(data)
    {
      parent, next, prev := null, null, null;
      size, dataPtr := |data|, Some(data);
    }

    predicate Detached()
      reads this
    {
      next == null && prev == null
    }

    /** DeleteSQData: releases a node, or only complains when it still has data links. */
    method Delete() returns (freed: bool)
      modifies this
      ensures freed == old(dataPtr.Some? && Detached())
      ensures freed ==> dataPtr == None && size == 0
      ensures !freed ==> unchanged(this)
    {
      if dataPtr.Some? && next == null && prev == null {
        size, dataPtr := 0, None;
        return true;
      }
      return false;
    }
  }

  class SQueue {
    var top: SQData?
    var last: SQData?
    var count: int

    ghost var nodes: seq<SQData>        // from top to last
    ghost var contents: seq<seq<Byte>>  // what they hold
    ghost var repr: set<SQData>         // the nodes it may update

    ghost predicate Distinct()
      reads this
    {
      forall i, j :: 0 <= i < j < |nodes| ==> nodes[i] != nodes[j]
    }

    ghost predicate Linked()
      reads this, repr
    {
      && (forall i :: 0 <= i < |nodes| ==> nodes[i] in repr)
      && (forall i {:trigger nodes[i].next} :: 0 <= i < |nodes| ==>
            nodes[i].next == if i + 1 < |nodes| then nodes[i + 1] else null)
      && (forall i {:trigger nodes[i].prev} :: 0 <= i < |nodes| ==>
            nodes[i].prev == if 0 < i then nodes[i - 1] else null)
    }

    ghost predicate Holds()
      reads this, repr
    {
      && |contents| == |nodes|
      && (forall i :: 0 <= i < |nodes| ==> nodes[i] in repr)
      && (forall i {:trigger nodes[i]} :: 0 <= i < |nodes| ==>
            nodes[i].parent == this && nodes[i].dataPtr == Some(contents[i]) && nodes[i].size == |contents[i]|)
    }

    /** The heap represents the sequence `contents`. */
    ghost predicate Valid()
      reads this, repr
    {
      && count == |nodes|
      && top == (if nodes == [] then null else nodes[0])
      && last == (if nodes == [] then null else nodes[|nodes| - 1])
      && Distinct() && Linked() && Holds()
    }

    constructor ()
      ensures Valid() && contents == [] && repr == {}
    {
      top, last, count := null, null, 0;
      nodes, contents, repr := [], [], {};
    }

    /** `_sque_put`, the critical section. */
    method Link(sd: SQData, ghost data: seq<Byte>) returns (n: int)
      requires Valid() && sd !in repr && sd.next == null && sd.dataPtr == Some(data) && sd.size == |data|
      modifies this, repr, sd
      ensures Valid() && nodes == old(nodes) + [sd] && repr == old(repr) + {sd} && contents == old(contents) + [data]
      ensures n == |contents|
    {
      var prevLast := last;
      last := sd;
      sd.parent := this;
      sd.prev := prevLast;
      if prevLast != null { prevLast.next := sd; }
      if top == null { top := sd; }
      count := count + 1;
      nodes, contents, repr := nodes + [sd], contents + [data], repr + {sd};
      return count;
    }

    /**
     `_sque_get`. `timedOut` says whether a timed wait for the lock fails; it plays no part when
     the wait is negative, which waits for the lock without limit.
     */
    method Unlink(waitMsec: int, timedOut: bool) returns (sd: SQData?)
      requires Valid()
      modifies this, repr
      ensures Valid()
      ensures sd == null <==> old(contents) == [] || (0 <= waitMsec && timedOut)
      ensures sd == null ==> unchanged(this) && unchanged(repr)
      ensures sd != null ==>
        && sd == old(nodes)[0] && sd.parent == null && sd.Detached()
        && sd.dataPtr == Some(old(contents)[0]) && sd.size == |old(contents)[0]|
        && nodes == old(nodes)[1..] && contents == old(contents)[1..] && repr == old(repr)
    {
      if count == 0 { return null; }
      if 0 <= waitMsec && timedOut { return null; }
      sd := top;
      if sd != null {
        top := sd.next;
        if top != null { top.prev := null; }
        sd.next, sd.prev := null, null;
        count := count - 1;
        if count == 0 { top, last := null, null; }
        sd.parent := null;
        nodes, contents := nodes[1..], contents[1..];
      }
    }

    /** SQPut: appends a copy of the bytes and reports the queue length. */
    method SQPut(data: seq<Byte>) returns (n: int)
      requires Valid()
      modifies this, repr
      ensures Valid() && contents == old(contents) + [data] && n == |contents|
      ensures fresh(repr - old(repr))
    {
      var sd := new SQData(data);
      n := Link(sd, data);
      n := count;
    }

    /**
     SQGet: takes the head off the queue. An empty queue gives size 0; so does a lock timeout. Without
     interference the internal-error size -2 cannot come up, and the node is always released.
     */
    method SQGet(waitMsec: int, timedOut: bool) returns (data: Option<seq<Byte>>, size: int)
      requires Valid()
      modifies this, repr
      ensures Valid()
      ensures data == None <==> old(contents) == [] || (0 <= waitMsec && timedOut)
      ensures data == None ==> size == 0 && unchanged(this) && unchanged(repr)
      ensures repr == old(repr)
      ensures data.Some? ==>
        [data.value] + contents == old(contents) && size == |data.value|
    {
      if count > 0 {
        var sd := Unlink(waitMsec, timedOut);
        if sd != null {
          data, size := sd.dataPtr, sd.size;
          var freed := sd.Delete();
          assert freed;
        } else if waitMsec < 0 {
          assert false;
          data, size := None, -2;
        } else {
          data, size := None, 0;
        }
      } else {
        data, size := None, 0;
      }
    }

    /** SQDataNext: the node behind `p`, or the first one. */
    method SQDataNext(p: SQData?, ghost i: int) returns (r: SQData?)
      requires Valid()
      requires if p == null then i == -1 else 0 <= i < |nodes| && nodes[i] == p
      ensures if i + 1 < |nodes| then r == nodes[i + 1] else r == null
    {
      if count == 0 { return null; }
      if p == null { r := top; } else { r := p.next; }
    }

    /** Following the links from top visits the contents in order, and ends (PrintSqueueLink's loop). */
    method Walk() returns (seen: seq<seq<Byte>>)
      requires Valid()
      ensures seen == contents
    {
      seen := [];
      ghost var i := 0;
      var p := top;
      while p != null
        invariant 0 <= i <= |nodes| && seen == contents[..i]
        invariant p == if i < |nodes| then nodes[i] else null
        decreases |nodes| - i
      {
        seen := seen + [p.dataPtr.value];
        p := p.next;
        i := i + 1;
      }
    }

    /** DeleteSQueue's loop, and the two loops of SiDaqResetQueue. */
    method Drain() returns (taken: seq<seq<Byte>>)
      requires Valid()
      modifies this, repr
      ensures Valid() && contents == [] && taken == old(contents) && repr == old(repr)
    {
      taken := [];
      var data, size := SQGet(-1, false);
      while data.Some?
        invariant Valid()
        invariant repr == old(repr)
        invariant data.Some? ==> taken + [data.value] + contents == old(contents)
        invariant data == None ==> contents == [] && taken == old(contents)
        decreases |contents|, data.Some?
      {
        taken := taken + [data.value];
        data, size := SQGet(-1, false);
      }
    }
  }
}
