/** The pseudo device's data generator: a big-endian length header in front of a fixed pattern. */
module PseudoDevice {
  import opened Bytes
  import opened LengthFunctions

  function BitLength(n: nat): nat {
    if n == 0 then 0 else 1 + BitLength(n / 2)
  }

  function Pow2(b: nat): (p: nat)
    ensures 0 < p
  {
    if b == 0 then 1 else 2 * Pow2(b - 1)
  }

  lemma {:induction false} BitLengthFits(n: nat, b: nat)
    ensures BitLength(n) <= b <==> n < Pow2(b)
    decreases b
  {
    if 0 < b && 0 < n {
      BitLengthFits(n / 2, b - 1);
    }
  }

  lemma {:induction false} Pow2Bytes(h: nat)
    ensures Pow2(8 * h) == Pow256(h)
  {
    if 0 < h {
      Pow2Bytes(h - 1);
      var b := 8 * (h - 1);
      assert Pow2(b + 8) == 2 * Pow2(b + 7) == 4 * Pow2(b + 6) == 8 * Pow2(b + 5) == 16 * Pow2(b + 4);
      assert Pow2(b + 4) == 2 * Pow2(b + 3) == 4 * Pow2(b + 2) == 8 * Pow2(b + 1) == 16 * Pow2(b);
    }
  }

  /** The length check by bits is the check that the length fits the header. */
  lemma LengthFits(n: nat, h: nat)
    ensures BitLength(n) <= h * 8 <==> n < Pow256(h)
  {
    BitLengthFits(n, h * 8);
    Pow2Bytes(h);
  }

  /** `int.to_bytes(length)`, big-endian. */
  function ToBytes(n: nat, h: nat): (s: seq<Byte>)
    requires n < Pow256(h)
    ensures |s| == h && BigEndian(s) == n
  {
    if h == 0 then []
    else
      var s := ToBytes(n / 256, h - 1) + [n % 256];
      assert s[..|s| - 1] == ToBytes(n / 256, h - 1);
      s
  }

  /** A frame: big-endian payload length, then the payload. */
  function Encode(payload: seq<Byte>, h: nat): (s: seq<Byte>)
    requires |payload| < Pow256(h)
    ensures |s| == h + |payload|
  {
    ToBytes(|payload|, h) + payload
  }

  /** The payload is what follows the header, and the header says how long it is. */
  lemma PayloadRecovered(payload: seq<Byte>, h: nat)
    requires |payload| < Pow256(h)
    ensures Encode(payload, h)[h..] == payload && BigEndian(Encode(payload, h)[..h]) == |payload|
  {
    assert Encode(payload, h)[..h] == ToBytes(|payload|, h);
  }

  function Repeat(s: seq<Byte>, n: nat): (r: seq<Byte>)
    ensures |r| == |s| * n
  {
    if n == 0 then [] else Repeat(s, n - 1) + s
  }

  lemma {:induction false} RepeatAt(s: seq<Byte>, n: nat, i: nat)
    requires |s| == 8 && i < 8 * n
    ensures |Repeat(s, n)| == 8 * n && Repeat(s, n)[i] == s[i % 8]
  {
    if i < 8 * (n - 1) { RepeatAt(s, n - 1, i); }
  }

  const DATA_BUFFER: seq<Byte> := [0x1F, 0x3E, 0x01, 0x23, 0x45, 0x67, 0x89, 0xAB]

  class PseudoDataGenerator {
    const dataBuffer: seq<Byte>
    const dataUnit: nat
    var header: nat
    var sendUnit: nat

    ghost predicate Valid()
      reads this
    {
      && dataBuffer == DATA_BUFFER && dataUnit == 8
      && 1 <= sendUnit <= 4096 && (header == 0 || 8 * sendUnit < Pow256(header))
    }

    /** Out-of-range arguments are clamped; a header too short for the data is dropped. */
    constructor (header: int, sendUnit: int)
      ensures Valid()
      ensures this.sendUnit == Min(Max(sendUnit, 1), 4096)
      ensures var h := Max(header, 0);
              this.header == if 8 * this.sendUnit < Pow256(h) then h else 0
    {
      this.dataBuffer := DATA_BUFFER;
      this.dataUnit := 8;
      this.header := if header < 0 then 0 else header;
      this.sendUnit := if sendUnit < 1 then 1 else if sendUnit > 4096 then 4096 else sendUnit;
      new;
      CheckHeaderLength();
    }

    method CheckHeaderLength()
      modifies this`header
      ensures header == if dataUnit * sendUnit < Pow256(old(header)) then old(header) else 0
    {
      var dataLen := dataUnit * sendUnit;
      LengthFits(dataLen, header);
      if BitLength(dataLen) > header * 8 {
        header := 0;
      }
    }

    function Pattern(): (data: seq<Byte>)
      requires Valid()
      reads this
      ensures |data| == 8 * sendUnit
    {
      Repeat(dataBuffer, sendUnit)
    }

    /** One unit of data: the encoded pattern, or the bare pattern when there is no header; byte by byte. */
    method CreateFixedPattern() returns (data: seq<Byte>)
      requires Valid()
      ensures header != 0 ==> |Pattern()| < Pow256(header) && data == Encode(Pattern(), header)
      ensures header == 0 ==> data == Pattern()
      ensures |data| == header + 8 * sendUnit && BigEndian(data[..header]) == (if header == 0 then 0 else 8 * sendUnit)
      ensures forall i :: 0 <= i < 8 * sendUnit ==>
                data[header + i] == [0x1F, 0x3E, 0x01, 0x23, 0x45, 0x67, 0x89, 0xAB][i % 8]
    {
      forall i | 0 <= i < 8 * sendUnit
        ensures Repeat(dataBuffer, sendUnit)[i] == dataBuffer[i % 8]
      {
        RepeatAt(dataBuffer, sendUnit, i);
      }
      data := Repeat(dataBuffer, sendUnit);
      if header != 0 {
        var dataLen := |data|;
        LengthFits(dataLen, header);
        if BitLength(dataLen) <= header * 8 {
          var dataCountHeader := ToBytes(dataLen, header);
          data := dataCountHeader + data;
          assert data[..header] == dataCountHeader;
        }
      }
    }
  }
}
