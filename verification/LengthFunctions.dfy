/** The two frame length functions of the sample programs: C++ by shifting, C# by reversing bytes. */
module LengthFunctions {
  import opened Bytes
  import opened FramerSpec

  function Pow256(n: nat): (p: nat)
    ensures 0 < p
  {
    if n == 0 then 1 else 256 * Pow256(n - 1)
  }

  function BigEndian(s: seq<Byte>): nat {
    if s == [] then 0 else 256 * BigEndian(s[..|s| - 1]) + s[|s| - 1]
  }

  /** What a header says: its big-endian value as an `int`; -1 when it is short or zero. */
  function HeaderValue(data: seq<Byte>, headerLen: nat): Int32 {
    if |data| < headerLen then -1
    else if headerLen == 0 then AsInt32(|data|)
    else
      var v := AsInt32(BigEndian(data[..headerLen]));
      if v == 0 then -1 else v
  }

  lemma {:induction false} BigEndianBound(s: seq<Byte>)
    ensures BigEndian(s) < Pow256(|s|)
  {
    if s != [] {
      BigEndianBound(s[..|s| - 1]);
    }
  }

  /** The first byte is the most significant. */
  lemma {:induction false} BigEndianHead(b: Byte, s: seq<Byte>)
    ensures BigEndian([b] + s) == b * Pow256(|s|) + BigEndian(s)
  {
    if s == [] {
      assert [b] + s == [b] && [b][..0] == [];
    } else {
      var front, last := s[..|s| - 1], s[|s| - 1];
      assert ([b] + s)[..|s|] == [b] + front && ([b] + s)[|s|] == last;
      BigEndianHead(b, front);
      assert 256 * (b * Pow256(|front|)) == b * Pow256(|s|);
    }
  }

  /**
   What the length functions answer, for every header they have a meaning for: -1 exactly for short data and for a
   header that reads 0 or, as 4 bytes, 2^32 - 1; the header's value exactly when that is positive and fits an
   `int`; and something negative otherwise. Without a header it is the number of bytes.
   */
  lemma HeaderValueExact(data: seq<Byte>, headerLen: nat)
    requires headerLen <= 4 && |data| < 0x8000_0000
    ensures |data| < headerLen ==> HeaderValue(data, headerLen) == -1
    ensures headerLen == 0 ==> HeaderValue(data, headerLen) == |data|
    ensures 1 <= headerLen <= |data| ==>
      var v := BigEndian(data[..headerLen]);
      && (HeaderValue(data, headerLen) == v <==> 0 < v < 0x8000_0000)
      && (HeaderValue(data, headerLen) < 0 <==> v == 0 || 0x8000_0000 <= v)
      && (HeaderValue(data, headerLen) == -1 <==> v == 0 || v == 0xffff_ffff)
      && (headerLen <= 3 ==> v < 0x8000_0000)
  {
    if 1 <= headerLen <= |data| {
      BigEndianBound(data[..headerLen]);
      assert Pow256(headerLen) <= 0x1_0000_0000 by {
        assert Pow256(4) == 256 * Pow256(3) && Pow256(3) == 256 * Pow256(2)
               && Pow256(2) == 256 * Pow256(1) && Pow256(1) == 256 * Pow256(0);
      }
      assert headerLen <= 3 ==> Pow256(headerLen) <= 0x100_0000;
    }
  }

  lemma HeaderValueDetermined(headerLen: nat, fixedLen: Uint32)
    ensures HeaderDetermined(Mode(Some(HeaderValue), headerLen, fixedLen))
  {
    if headerLen != 0 {
      forall a ensures AgreesOnHeader(HeaderValue, headerLen, a) {
        if headerLen <= |a| {
          assert a[..headerLen][..headerLen] == a[..headerLen];
        }
      }
    }
  }

  // ----- 32-bit wrap-around

  lemma AsInt32Congruent(x: int, k: int)
    ensures AsInt32(x + 0x1_0000_0000 * k) == AsInt32(x)
  {
    assert (x + 0x1_0000_0000 * k) % 0x1_0000_0000 == x % 0x1_0000_0000;
  }

  lemma AsInt32Sum(a: int, b: int)
    ensures AsInt32(AsInt32(a) + AsInt32(b)) == AsInt32(a + b)
  {
    var m := 0x1_0000_0000;
    var i, j := (AsInt32(a) - a) / m, (AsInt32(b) - b) / m;
    assert AsInt32(a) == a + m * i && AsInt32(b) == b + m * j;
    assert AsInt32(a) + AsInt32(b) == a + b + m * (i + j);
    AsInt32Congruent(a + b, i + j);
  }

  lemma BigEndianSnoc(s: seq<Byte>, i: nat)
    requires i < |s|
    ensures BigEndian(s[..i + 1]) == 256 * BigEndian(s[..i]) + s[i]
  {
    assert s[..i + 1][..i] == s[..i];
  }

  /** Adding one more shifted byte, each intermediate result cut to 32 bits. */
  lemma ShiftIn(high: nat, b: Byte, k: nat)
    ensures AsInt32(AsInt32(high * Pow256(k + 1)) + AsInt32(b * Pow256(k))) == AsInt32((256 * high + b) * Pow256(k))
  {
    var p := Pow256(k);
    assert high * Pow256(k + 1) + b * p == (256 * high + b) * p by {
      assert high * (256 * p) == (256 * high) * p;
    }
    AsInt32Sum(high * Pow256(k + 1), b * p);
  }

  /**
   GetFrameLength. Each byte is shifted into place as an `int` and added up; shifts of 32 or more,
   which longer headers would need, are undefined in C++.
   */
  method GetFrameLength(recvData: seq<Byte>, headerLen: nat) returns (r: Int32)
    requires headerLen <= 4
    ensures r == HeaderValue(recvData, headerLen)
  {
    if |recvData| < headerLen { return -1; }
    if headerLen == 0 { return AsInt32(|recvData|); }
    var header: Int32 := 0;
    for i := 0 to headerLen
      invariant header == AsInt32(BigEndian(recvData[..i]) * Pow256(headerLen - i))
    {
      BigEndianSnoc(recvData, i);
      ShiftIn(BigEndian(recvData[..i]), recvData[i], headerLen - i - 1);
      header := AsInt32(header + AsInt32(recvData[i] * Pow256(headerLen - i - 1)));
    }
    assert BigEndian(recvData[..headerLen]) * Pow256(0) == BigEndian(recvData[..headerLen]);
    if header == 0 { return -1; }
    return header;
  }

  // ----- C#

  /** BitConverter.ToUInt32 on a little-endian machine. */
  function ToUInt32(b: seq<Byte>): Uint32
    requires 4 <= |b|
  {
    var b0: int, b1: int, b2: int, b3: int := b[0], b[1], b[2], b[3];
    b0 + 256 * b1 + 0x1_0000 * b2 + 0x100_0000 * b3
  }

  /** Byte `i` from the end, and zero beyond the start. */
  function FromEnd(s: seq<Byte>, i: nat): Byte {
    if i < |s| then s[|s| - 1 - i] else 0
  }

  lemma LastFour(s: seq<Byte>)
    ensures BigEndian(s) % 0x1_0000_0000 ==
            FromEnd(s, 0) + 256 * FromEnd(s, 1) + 0x1_0000 * FromEnd(s, 2) + 0x100_0000 * FromEnd(s, 3)
  {
    var t := DropLast(s);
    var u := DropLast(t);
    var v := DropLast(u);
    DropOne(s); DropOne(t); DropOne(u); DropOne(v);
    assert FromEnd(t, 0) == FromEnd(s, 1) && FromEnd(u, 0) == FromEnd(s, 2) && FromEnd(v, 0) == FromEnd(s, 3);
    hide BigEndian, DropLast, FromEnd;
    FourDigits(BigEndian(DropLast(v)), FromEnd(s, 3), FromEnd(s, 2), FromEnd(s, 1), FromEnd(s, 0));
  }

  lemma FourDigits(w: nat, d3: Byte, d2: Byte, d1: Byte, d0: Byte)
    ensures (256 * (256 * (256 * (256 * w + d3) + d2) + d1) + d0) % 0x1_0000_0000 ==
            d0 + 256 * d1 + 0x1_0000 * d2 + 0x100_0000 * d3
  {
  }

  lemma DropOne(s: seq<Byte>)
    ensures BigEndian(s) == 256 * BigEndian(DropLast(s)) + FromEnd(s, 0)
  {
  }

  function DropLast(s: seq<Byte>): seq<Byte> {
    if s == [] then [] else s[..|s| - 1]
  }

  /** A longer header reads as its last four bytes. */
  lemma HeaderValueLastFour(data: seq<Byte>, headerLen: nat)
    requires 4 <= headerLen <= |data|
    ensures HeaderValue(data, headerLen) == HeaderValue(data[headerLen - 4..headerLen], 4)
  {
    var h, four := data[..headerLen], data[headerLen - 4..headerLen];
    LastFour(h);
    LastFour(four);
    assert forall i :: 0 <= i < 4 ==> FromEnd(h, i) == FromEnd(four, i);
    assert four[..4] == four;
    hide BigEndian, FromEnd;
    assert BigEndian(h) % 0x1_0000_0000 == BigEndian(four) % 0x1_0000_0000;
  }

  /** GetHeaderLengthFuncSample: reverses the header into a zeroed array and reads that little-endian. */
  method GetHeaderLengthFuncSample(recvData: seq<Byte>, headerLen: nat) returns (r: Int32)
    ensures r == HeaderValue(recvData, headerLen)
  {
    if |recvData| < headerLen { return -1; }
    if headerLen == 0 { return AsInt32(|recvData|); }
    var retData := recvData[..headerLen];
    var header := new Byte[Max(headerLen, 4)](i => 0);
    for i := 0 to headerLen
      invariant forall j :: 0 <= j < i ==> header[j] == retData[headerLen - 1 - j]
      invariant forall j :: i <= j < header.Length ==> header[j] == 0
    {
      header[i] := retData[headerLen - 1 - i];
    }
    var ret := ToUInt32(header[..]);
    LastFour(retData);
    assert forall j :: 0 <= j < 4 ==> header[j] == FromEnd(retData, j);
    assert ret == BigEndian(retData) % 0x1_0000_0000;
    if ret == 0 { return -1; }
    return AsInt32(ret);
  }
}
