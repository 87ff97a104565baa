/** The RBCP client: one packet buffer for requests and replies, an 8-bit rolling request id. */
module Rbcp {
  import opened Bytes
  import opened LengthFunctions
  import opened PseudoDevice

  const HEADER_SIZE := 8
  const MAX_DATA_LEN := 255
  const MAX_PKT_LEN := HEADER_SIZE + MAX_DATA_LEN

  datatype Failure = Timeout | BusError | InvalidPacket | SocketError | InvalidParam

  datatype Result<T> = Ok(value: T) | Err(error: Failure)

  /** What waiting for a reply comes to. */
  datatype Arrival = Datagram(bytes: seq<Byte>) | NoReply | Failed

  function Command(read: bool): Byte {
    if read then 0xc0 else 0x80
  }

  /** The request header: version and type, command, id, length, address in network order. */
  function Header(id: Byte, addr: Uint32, length: nat, read: bool): (h: seq<Byte>)
    ensures |h| == HEADER_SIZE
  {
    assert Pow256(4) == 256 * Pow256(3) && Pow256(3) == 256 * Pow256(2) && Pow256(2) == 256 * Pow256(1);
    [0xff, Command(read), id, length % 256] + ToBytes(addr, 4)
  }

  datatype Request = Request(id: Byte, addr: Uint32, length: nat, read: bool)

  /** How a device reads a request header, field by field of the packet format. */
  function Decode(h: seq<Byte>): Option<Request> {
    if |h| < HEADER_SIZE || h[0] != 0xff then None
    else
      var addr := BigEndian(h[4..HEADER_SIZE]);
      if addr >= 0x1_0000_0000 then None
      else if h[1] == 0xc0 then Some(Request(h[2], addr, h[3], true))
      else if h[1] == 0x80 then Some(Request(h[2], addr, h[3], false))
      else None
  }

  /**
   The device reads back the request that was sent, whatever data follows the header, exactly for the lengths the
   client lets through: they are all that the length byte holds.
   */
  lemma HeaderDecodes(id: Byte, addr: Uint32, length: nat, read: bool, data: seq<Byte>)
    ensures Decode(Header(id, addr, length, read) + data) == Some(Request(id, addr, length, read))
            <==> length <= MAX_DATA_LEN
  {
    var h := Header(id, addr, length, read) + data;
    assert h[0] == 0xff && h[1] == Command(read) && h[2] == id && h[3] == length % 256;
    assert h[4..HEADER_SIZE] == ToBytes(addr, 4);
  }

  // ----- replies, as the packet format has them

  /** Low nibbles of the command byte in a reply: acknowledged, without and with a bus error. */
  const DONE: set<Byte> := {8, 10, 12, 14}
  const FAILED_ON_BUS: set<Byte> := {9, 11, 13, 15}

  /** A packet field by field: version, command nibble and flags, id, length byte, address, data. */
  function Packet(read: bool, flags: Byte, id: Byte, length: Byte, addr: seq<Byte>, data: seq<Byte>): seq<Byte>
    requires flags < 16
  {
    [0xff, Command(read) + flags, id, length] + addr + data
  }

  /** `d` is such a packet with a four-byte address. */
  predicate IsPacket(d: seq<Byte>, read: bool, flags: Byte, id: Byte, length: Byte, n: nat)
    requires flags < 16
  {
    |d| == HEADER_SIZE + n && d == Packet(read, flags, id, length, d[4..HEADER_SIZE], d[HEADER_SIZE..])
  }

  /** The reply to the request with this id and length. */
  predicate IsReply(d: seq<Byte>, length: nat, id: int, read: bool) {
    && 0 <= id < 256 && length < 256
    && exists flags :: flags in DONE && IsPacket(d, read, flags, id, length, length)
  }

  /** A reply of the right size, but to say that the bus failed; its id and length byte are not looked at. */
  predicate IsBusError(d: seq<Byte>, length: nat, read: bool) {
    exists flags, id, n :: flags in FAILED_ON_BUS && IsPacket(d, read, flags, id, n, length)
  }

  // ----- the client's tests

  /** The high nibble is the command, bit 3 the acknowledgement, bit 0 the bus error. */
  predicate Answers(d: seq<Byte>, length: nat, read: bool) {
    && |d| == length + HEADER_SIZE
    && d[0] == 0xff && d[1] / 16 * 16 == Command(read) && d[1] / 8 % 2 == 1
  }

  /** A datagram the client takes as the reply to its current request. */
  predicate Acceptable(d: seq<Byte>, length: nat, id: int, read: bool) {
    Answers(d, length, read) && d[1] % 2 == 0 && d[2] == id && d[3] == length
  }

  function Verdict(d: seq<Byte>, length: nat, id: int, read: bool): Option<Failure> {
    if Acceptable(d, length, id, read) then None
    else if Answers(d, length, read) && d[1] % 2 == 1 then Some(BusError)
    else Some(InvalidPacket)
  }

  lemma PacketParts(d: seq<Byte>, read: bool, flags: Byte, id: Byte, length: Byte, n: nat)
    requires flags < 16
    ensures IsPacket(d, read, flags, id, length, n) <==>
            |d| == HEADER_SIZE + n && d[0] == 0xff && d[1] == Command(read) + flags && d[2] == id && d[3] == length
  {
    if |d| == HEADER_SIZE + n && d[0] == 0xff && d[1] == Command(read) + flags && d[2] == id && d[3] == length {
      assert d == d[..4] + d[4..HEADER_SIZE] + d[HEADER_SIZE..];
      assert d[..4] == [0xff, Command(read) + flags, id, length];
    }
  }

  lemma CommandByte(b: Byte, read: bool)
    ensures b / 16 * 16 == Command(read) <==> Command(read) <= b < Command(read) + 16
    ensures Command(read) <= b < Command(read) + 16 ==>
              && (b / 8 % 2 == 1 && b % 2 == 0 <==> b - Command(read) in DONE)
              && (b / 8 % 2 == 1 && b % 2 == 1 <==> b - Command(read) in FAILED_ON_BUS)
  {
  }

  /**
   Which datagrams the client accepts, by the packet format: exactly the acknowledged replies of the right command,
   id, length and size without a bus error. A reply of the right command and size with one is a bus error
   whatever its id; anything else is an invalid packet.
   */
  lemma VerdictByFormat(d: seq<Byte>, length: nat, id: int, read: bool)
    requires 0 <= id < 256 && length <= MAX_DATA_LEN
    ensures Verdict(d, length, id, read) ==
            if IsReply(d, length, id, read) then None
            else if IsBusError(d, length, read) then Some(BusError)
            else Some(InvalidPacket)
    ensures IsReply(d, length, id, read) ==> !IsBusError(d, length, read) && |d| == HEADER_SIZE + length
  {
    forall flags: Byte, i: Byte, n: Byte | flags < 16 {
      PacketParts(d, read, flags, i, n, length);
    }
    if |d| == length + HEADER_SIZE {
      CommandByte(d[1], read);
      var flags := d[1] - Command(read);
      if 0 <= flags < 16 { PacketParts(d, read, flags, d[2], d[3], length); }
    }
  }

  /** What a request comes to: the data of its reply, or why there is none. */
  function Answer(sendOk: bool, arrival: Arrival, length: nat, id: int, read: bool): Result<seq<Byte>> {
    if !sendOk then Err(SocketError)
    else
      match arrival
      case NoReply => Err(Timeout)
      case Failed => Err(SocketError)
      case Datagram(d) =>
        if |d| > MAX_PKT_LEN then Err(SocketError)
        else if IsReply(d, length, id, read) then Ok(d[HEADER_SIZE..])
        else if IsBusError(d, length, read) then Err(BusError)
        else Err(InvalidPacket)
  }

  class SiTcpRbcp {
    var id: int
    const rbcpBuf: array<Byte>

    ghost predicate Valid()
      reads this
    {
      rbcpBuf.Length == MAX_PKT_LEN && 0 <= id < 256
    }

    constructor ()
      ensures Valid() && id == 0 && fresh(rbcpBuf)
    {
      id := 0;
      rbcpBuf := new Byte[MAX_PKT_LEN](i => 0);
    }

    method MakeHeader(addr: Uint32, length: nat, read: bool)
      requires Valid()
      modifies rbcpBuf
      ensures rbcpBuf[..] == Header(id, addr, length, read) + old(rbcpBuf[HEADER_SIZE..])
    {
      assert Pow256(4) == 256 * Pow256(3) && Pow256(3) == 256 * Pow256(2) && Pow256(2) == 256 * Pow256(1);
      rbcpBuf[0] := 0xff;
      rbcpBuf[1] := if read then 0xc0 else 0x80;
      rbcpBuf[2] := id;
      rbcpBuf[3] := length % 256;
      var net := ToBytes(addr, 4);
      rbcpBuf[4], rbcpBuf[5], rbcpBuf[6], rbcpBuf[7] := net[0], net[1], net[2], net[3];
    }

    /**
     check_packet: `None` accepts. The tests run in the order of the code, so the length comes first and nothing
     beyond the `recvLen` bytes of the datagram is looked at, whatever an earlier packet left there.
     */
    method CheckPacket(length: nat, recvLen: nat, read: bool) returns (why: Option<Failure>)
      requires Valid() && recvLen <= MAX_PKT_LEN
      ensures why == Verdict(rbcpBuf[..recvLen], length, id, read)
    {
      if length + HEADER_SIZE != recvLen {
        return Some(InvalidPacket);
      } else if rbcpBuf[0] != 0xff {
        return Some(InvalidPacket);
      } else if (read && rbcpBuf[1] / 16 * 16 != 0xc0) || (!read && rbcpBuf[1] / 16 * 16 != 0x80) {
        return Some(InvalidPacket);
      } else if rbcpBuf[1] / 8 % 2 != 1 {
        return Some(InvalidPacket);
      } else if rbcpBuf[1] % 2 == 1 {
        return Some(BusError);
      } else if rbcpBuf[2] != id {
        return Some(InvalidPacket);
      } else if rbcpBuf[3] != length {
        return Some(InvalidPacket);
      }
      return None;
    }

    /** recv_packet: a datagram overwrites the front of the buffer; one that does not fit is a socket error. */
    method RecvPacket(arrival: Arrival) returns (size: Result<nat>)
      requires Valid()
      modifies rbcpBuf
      ensures size == match arrival
                      case NoReply => Err(Timeout)
                      case Failed => Err(SocketError)
                      case Datagram(d) => if |d| <= MAX_PKT_LEN then Ok(|d|) else Err(SocketError)
      ensures size.Ok? ==> rbcpBuf[..size.value] == arrival.bytes
    {
      match arrival {
        case NoReply => return Err(Timeout);
        case Failed => return Err(SocketError);
        case Datagram(d) =>
          if |d| > MAX_PKT_LEN { return Err(SocketError); }
          forall i | 0 <= i < |d| { rbcpBuf[i] := d[i]; }
          return Ok(|d|);
      }
    }

    /** rw_memory: one request, one reply. `sent` is the packet handed to the socket. */
    method RwMemory(addr: Uint32, length: nat, read: bool, sendOk: bool, arrival: Arrival)
      returns (r: Result<seq<Byte>>, sent: seq<Byte>)
      requires Valid() && length <= MAX_DATA_LEN
      modifies this`id, rbcpBuf
      ensures Valid() && id == (old(id) + 1) % 256
      ensures sent == Header(id, addr, length, read)
                      + if read then [] else old(rbcpBuf[HEADER_SIZE..HEADER_SIZE + length])
      ensures r == Answer(sendOk, arrival, length, id, read)
    {
      hide IsReply, IsBusError, Acceptable, Answers;
      id := (id + 1) % 256;
      ghost var data := rbcpBuf[HEADER_SIZE..];
      MakeHeader(addr, length, read);
      var sendLen := if read then HEADER_SIZE else length + HEADER_SIZE;
      sent := rbcpBuf[..sendLen];
      assert data[..length] == old(rbcpBuf[HEADER_SIZE..HEADER_SIZE + length]);
      if !sendOk { return Err(SocketError), sent; }
      var recvLen := RecvPacket(arrival);
      if recvLen.Err? { return Err(recvLen.error), sent; }
      var why := CheckPacket(length, recvLen.value, read);
      VerdictByFormat(arrival.bytes, length, id, read);
      if why.Some? { return Err(why.value), sent; }
      r := Ok(rbcpBuf[HEADER_SIZE..HEADER_SIZE + length]);
      assert rbcpBuf[..recvLen.value][HEADER_SIZE..] == rbcpBuf[HEADER_SIZE..recvLen.value];
    }

    method ReadBytes(addr: Uint32, length: nat, sendOk: bool, arrival: Arrival)
      returns (r: Result<seq<Byte>>, sent: Option<seq<Byte>>)
      requires Valid()
      modifies this`id, rbcpBuf
      ensures Valid()
      ensures length > MAX_DATA_LEN ==> r == Err(InvalidParam) && sent == None && id == old(id)
      ensures length <= MAX_DATA_LEN ==>
        && id == (old(id) + 1) % 256 && sent == Some(Header(id, addr, length, true))
        && r == Answer(sendOk, arrival, length, id, true) && (r.Ok? ==> |r.value| == length)
    {
      if length > MAX_DATA_LEN { return Err(InvalidParam), None; }
      var packet;
      r, packet := RwMemory(addr, length, true, sendOk, arrival);
      sent := Some(packet);
      assert packet == Header(id, addr, length, true);
    }

    method WriteBytes(data: seq<Byte>, addr: Uint32, sendOk: bool, arrival: Arrival)
      returns (r: Result<seq<Byte>>, sent: Option<seq<Byte>>)
      requires Valid()
      modifies this`id, rbcpBuf
      ensures Valid()
      ensures |data| > MAX_DATA_LEN ==> r == Err(InvalidParam) && sent == None && id == old(id)
      ensures |data| <= MAX_DATA_LEN ==>
        && id == (old(id) + 1) % 256 && sent == Some(Header(id, addr, |data|, false) + data)
        && r == Answer(sendOk, arrival, |data|, id, false)
    {
      if |data| > MAX_DATA_LEN { return Err(InvalidParam), None; }
      forall i | 0 <= i < |data| { rbcpBuf[HEADER_SIZE + i] := data[i]; }
      assert rbcpBuf[HEADER_SIZE..HEADER_SIZE + |data|] == data;
      var packet;
      r, packet := RwMemory(addr, |data|, false, sendOk, arrival);
      sent := Some(packet);
    }
  }
}
