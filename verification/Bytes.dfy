/** Machine integers and byte sequences shared by every model in the project. */
module Bytes {

  type Byte = x: int | 0 <= x < 256
  type Int32 = x: int | -0x8000_0000 <= x < 0x8000_0000
  type Uint32 = x: int | 0 <= x < 0x1_0000_0000

  datatype Option<+T> = None | Some(value: T)

  /** Conversion to a 32-bit two's complement `int`. */
  function AsInt32(x: int): (r: Int32)
    ensures 0 <= x < 0x8000_0000 ==> r == x
    ensures 0x8000_0000 <= x < 0x1_0000_0000 ==> r < 0
  {
    var m := x % 0x1_0000_0000;
    if m < 0x8000_0000 then m else m - 0x1_0000_0000
  }

  function Min(a: int, b: int): int {
    if a < b then a else b
  }

  function Max(a: int, b: int): int {
    if a < b then b else a
  }

  function Concat(ss: seq<seq<Byte>>): seq<Byte> {
    if ss == [] then [] else ss[0] + Concat(ss[1..])
  }

  lemma {:induction false} ConcatAppend(a: seq<seq<Byte>>, b: seq<seq<Byte>>)
    ensures Concat(a + b) == Concat(a) + Concat(b)
  {
    if a == [] {
      assert a + b == b;
    } else {
      var head, tail := a[0], a[1..];
      assert (a + b)[0] == head && (a + b)[1..] == tail + b;
      ConcatAppend(tail, b);
      assert Concat(a + b) == head + Concat(tail + b) && Concat(a) == head + Concat(tail);
      hide Concat;
      assert head + (Concat(tail) + Concat(b)) == (head + Concat(tail)) + Concat(b);
    }
  }

  lemma ConcatOne(x: seq<Byte>)
    ensures Concat([x]) == x
  {
    assert [x][1..] == [];
  }

  lemma ConcatSnoc(a: seq<seq<Byte>>, x: seq<Byte>)
    ensures Concat(a + [x]) == Concat(a) + x
  {
    ConcatAppend(a, [x]);
    ConcatOne(x);
  }

  predicate AllNonEmpty(ss: seq<seq<Byte>>) {
    forall i :: 0 <= i < |ss| ==> ss[i] != []
  }

  /** A concatenation of non-empty pieces is empty only when there are no pieces. */
  lemma ConcatEmpty(ss: seq<seq<Byte>>)
    requires AllNonEmpty(ss)
    ensures Concat(ss) == [] <==> ss == []
  {
    if ss != [] {
      assert ss[0] != [];
    }
  }
}
