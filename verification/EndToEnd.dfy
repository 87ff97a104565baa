/** From the device's encoder through arbitrary chunks and the framer back to the encoded frames. */
module EndToEnd {
  import opened Bytes
  import opened FramerSpec
  import opened Chunking
  import opened LengthFunctions
  import opened PseudoDevice

  predicate Encodable(payloads: seq<seq<Byte>>, h: nat, max: nat) {
    forall i :: 0 <= i < |payloads| ==> |payloads[i]| < Pow256(h) && |payloads[i]| + h <= max
  }

  function EncodeAll(payloads: seq<seq<Byte>>, h: nat, max: nat): (frames: seq<seq<Byte>>)
    requires Encodable(payloads, h, max)
    ensures |frames| == |payloads|
    ensures forall i :: 0 <= i < |frames| ==> frames[i] == Encode(payloads[i], h)
  {
    seq(|payloads|, i requires 0 <= i < |payloads| => Encode(payloads[i], h))
  }

  /** What an application gets out of frames by dropping their headers. */
  function Payloads(frames: seq<seq<Byte>>, h: nat): (payloads: seq<seq<Byte>>)
    ensures |payloads| == |frames|
  {
    seq(|frames|, i requires 0 <= i < |frames| => if h <= |frames[i]| then frames[i][h..] else [])
  }

  lemma PayloadsRecovered(payloads: seq<seq<Byte>>, h: nat, max: nat)
    requires Encodable(payloads, h, max)
    ensures Payloads(EncodeAll(payloads, h, max), h) == payloads
  {
    var frames := EncodeAll(payloads, h, max);
    forall i | 0 <= i < |payloads|
      ensures Payloads(frames, h)[i] == payloads[i]
    {
      PayloadRecovered(payloads[i], h);
    }
  }

  /** The samples' length function; `fixedLen` is there to show that it plays no part beside one. */
  function HeaderMode(h: nat, fixedLen: Uint32): Mode {
    Mode(Some(HeaderValue), h, fixedLen)
  }

  /** A frame's header says how long its payload is, unless the payload is empty. */
  lemma HeaderOfEncoded(payload: seq<Byte>, h: nat, rest: seq<Byte>)
    requires 0 < h && |payload| < Pow256(h) && |payload| < 0x8000_0000
    ensures HeaderValue(Encode(payload, h) + rest, h) == if payload == [] then -1 else |payload|
  {
    assert (Encode(payload, h) + rest)[..h] == ToBytes(|payload|, h);
  }

  lemma ParseOneEncoded(payload: seq<Byte>, h: nat, fixedLen: Uint32, max: nat, rest: seq<Byte>)
    requires 0 < h && |payload| < Pow256(h) && |payload| + h <= max < 0x8000_0000
    ensures var stream := Encode(payload, h) + rest;
            Parse(HeaderMode(h, fixedLen), max, stream) ==
            if payload == [] then Parsed([], stream, true)
            else Cons(Encode(payload, h), Parse(HeaderMode(h, fixedLen), max, rest))
  {
    HeaderOfEncoded(payload, h, rest);
    var frame := Encode(payload, h);
    assert (frame + rest)[..|frame|] == frame && (frame + rest)[|frame|..] == rest;
  }

  /** Parsing an encoded stream gives the encoded frames; it fails if and only if a payload is empty. */
  lemma {:induction false} ParseEncoded(payloads: seq<seq<Byte>>, h: nat, fixedLen: Uint32, max: nat)
    requires 0 < h && Encodable(payloads, h, max) && max < 0x8000_0000
    ensures var frames := EncodeAll(payloads, h, max);
            var p := Parse(HeaderMode(h, fixedLen), max, Concat(frames));
            && (p.failed <==> !AllNonEmpty(payloads))
            && (AllNonEmpty(payloads) ==> p == Parsed(frames, [], false))
  {
    if payloads != [] {
      var first, tail := payloads[0], payloads[1..];
      EncodeAllCons(payloads, h, max);
      NonEmptyCons(payloads);
      var later := EncodeAll(tail, h, max);
      hide Parse, Concat, Encode, EncodeAll, AllNonEmpty;
      ParseOneEncoded(first, h, fixedLen, max, Concat(later));
      ParseEncoded(tail, h, fixedLen, max);
    }
  }

  lemma EncodeAllCons(payloads: seq<seq<Byte>>, h: nat, max: nat)
    requires payloads != [] && Encodable(payloads, h, max)
    ensures Encodable(payloads[1..], h, max)
    ensures var frame, later := Encode(payloads[0], h), EncodeAll(payloads[1..], h, max);
            && EncodeAll(payloads, h, max) == [frame] + later
            && Concat(EncodeAll(payloads, h, max)) == frame + Concat(later)
  {
    var frames := EncodeAll(payloads, h, max);
    assert frames[1..] == EncodeAll(payloads[1..], h, max);
  }

  lemma NonEmptyCons(payloads: seq<seq<Byte>>)
    requires payloads != []
    ensures AllNonEmpty(payloads) <==> payloads[0] != [] && AllNonEmpty(payloads[1..])
  {
    var tail := payloads[1..];
    assert forall i :: 0 <= i < |tail| ==> tail[i] == payloads[i + 1];
  }

  /**
   End to end: encoded payloads, concatenated and cut into chunks in any way, come out as exactly those
   frames with no error and nothing parked, if and only if no payload is empty; whatever fixed frame
   length is given besides. Then dropping the headers gives back the payloads.
   */
  lemma RoundTrip(payloads: seq<seq<Byte>>, h: nat, fixedLen: Uint32, max: Uint32, chunks: seq<seq<Byte>>, c: nat)
    requires 1 <= h <= 2 && h < max <= BUFF_SIZE && Encodable(payloads, h, max)
    requires Concat(chunks) == Concat(EncodeAll(payloads, h, max))
    ensures Valid(Fresh(HeaderMode(h, fixedLen), max, 0))
    ensures var r := RecvAll(Fresh(HeaderMode(h, fixedLen), max, 0), chunks, c);
            AllNonEmpty(payloads) <==>
            r.state.error == NoError && r.state.parked == [] && r.frames == EncodeAll(payloads, h, max)
    ensures AllNonEmpty(payloads) ==>
              Payloads(RecvAll(Fresh(HeaderMode(h, fixedLen), max, 0), chunks, c).frames, h) == payloads
  {
    PayloadsRecovered(payloads, h, max);
    HeaderValueDetermined(h, fixedLen);
    ParseEncoded(payloads, h, fixedLen, max);
    RunFollowsParser(Fresh(HeaderMode(h, fixedLen), max, 0), chunks, c);
  }

  function Copies(frame: seq<Byte>, n: nat): seq<seq<Byte>> {
    seq(n, i => frame)
  }

  /** The pseudo device sending `n` units with a one- or two-byte header: `n` frames arrive. */
  lemma DeviceRoundTrip(g: PseudoDataGenerator, n: nat, fixedLen: Uint32, max: Uint32, chunks: seq<seq<Byte>>, c: nat)
    requires g.Valid() && 1 <= g.header <= 2 && 8 * g.sendUnit + g.header <= max <= BUFF_SIZE
    requires Concat(chunks) == Concat(Copies(Encode(g.Pattern(), g.header), n))
    ensures var s := Fresh(HeaderMode(g.header, fixedLen), max, 0);
            && Valid(s)
            && RecvAll(s, chunks, c).frames == Copies(Encode(g.Pattern(), g.header), n)
            && RecvAll(s, chunks, c).state.parked == []
            && RecvAll(s, chunks, c).state.error == NoError
            && Payloads(RecvAll(s, chunks, c).frames, g.header) == Copies(g.Pattern(), n)
  {
    var pattern := g.Pattern();
    var payloads := Copies(pattern, n);
    assert EncodeAll(payloads, g.header, max) == Copies(Encode(pattern, g.header), n);
    RoundTrip(payloads, g.header, fixedLen, max, chunks, c);
  }
}
