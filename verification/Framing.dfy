/** The stream of frames an EC client reads: what `readPacket` makes of the bytes the daemon
    sends (core/ec/client.cpp:149-174), and why frames never run into each other. */
module Framing {
  import opened Outcomes
  import opened Bytes
  import opened Tags
  import opened Codec
  import opened RoundTrip

  /** EcError::Kind of core/ec/client.h. */
  datatype ErrorKind = Io | AuthFailed | Unexpected | Remote | MissingSalt

  type Reply = Result<Packet, ErrorKind>

  /** What a complete frame means. A compressed payload is refused, never decoded. */
  function Interpret(flags: u32, payload: seq<byte>): Reply {
    if flags % 2 == FLAG_ZLIB then Failure(Remote)
    else
      var r := ParsePayload(payload);
      if r.Ok? then Success(r.value) else Failure(Remote)
  }

  /** One frame read off the stream `s`, and what is left. An `Io` failure means that the stream
      ends inside the frame; nothing of it is left then. */
  function ReadFrame(s: seq<byte>): (Reply, seq<byte>) {
    if |s| < HEADER_SIZE then (Failure(Io), [])
    else
      Widths();
      var length := FromBE(s[4..8]);
      if |s| < HEADER_SIZE + length then (Failure(Io), [])
      else (Interpret(FromBE(s[..4]), s[8..8 + length]), s[8 + length..])
  }

  function ReadFrames(s: seq<byte>, count: nat): (seq<Reply>, seq<byte>)
    decreases count
  {
    if count == 0 then ([], s)
    else
      var (first, rest) := ReadFrame(s);
      var (others, end) := ReadFrames(rest, count - 1);
      ([first] + others, end)
  }

  /** Any frame a peer may send, well-formed inside or not. */
  datatype Raw = Raw(flags: u32, payload: seq<byte>)

  function RawStream(frames: seq<Raw>): seq<byte> {
    if frames == [] then [] else RawFrame(frames[0].flags, frames[0].payload) + RawStream(frames[1..])
  }

  function Meanings(frames: seq<Raw>): (rs: seq<Reply>)
    ensures |rs| == |frames|
    ensures forall i :: 0 <= i < |frames| ==> rs[i] == Interpret(frames[i].flags, frames[i].payload)
  {
    seq(|frames|, i requires 0 <= i < |frames| => Interpret(frames[i].flags, frames[i].payload))
  }

  lemma RawHeader(flags: u32, payload: seq<byte>, tail: seq<byte>)
    ensures
      var s := RawFrame(flags, payload) + tail;
      && FromBE(s[..4]) == flags
      && FromBE(s[4..8]) == |payload| % TWO32
      && s[8..] == payload + tail
  {
    hide ToBE, FromBE, Pow256;
    var s := RawFrame(flags, payload) + tail;
    Widths();
    FromToBE(flags, 4);
    FromToBE(|payload| % TWO32, 4);
    assert s[..4] == ToBE(flags, 4);
    assert s[4..8] == ToBE(|payload| % TWO32, 4);
  }

  /** A frame is read as exactly itself, leaving the stream at the next frame, if and only if its
      payload is shorter than 2^32: whether the payload is compressed or malformed is irrelevant. */
  lemma FrameBoundary(flags: u32, payload: seq<byte>, tail: seq<byte>)
    ensures ReadFrame(RawFrame(flags, payload) + tail).1 == tail <==> |payload| < TWO32
    ensures |payload| < TWO32 ==> ReadFrame(RawFrame(flags, payload) + tail).0 == Interpret(flags, payload)
  {
    hide ToBE, FromBE, Interpret;
    RawHeader(flags, payload, tail);
    var s := RawFrame(flags, payload) + tail;
    var length := |payload| % TWO32;
    assert s[8..8 + length] == s[8..][..length] == payload[..length];
    assert payload[..|payload|] == payload;
    assert s[8 + length..] == s[8..][length..];
    if |payload| < TWO32 {
      assert (payload + tail)[length..] == tail;
    } else {
      assert |ReadFrame(s).1| > |tail|;
    }
  }

  /** Reading a run of frames gives the meaning of each in order, and stops exactly behind them.
      A bad frame costs its own reply only; the frames after it are read as if it were good. */
  lemma {:induction false} FramesStayApart(frames: seq<Raw>, tail: seq<byte>)
    requires forall f :: f in frames ==> |f.payload| < TWO32
    ensures ReadFrames(RawStream(frames) + tail, |frames|) == (Meanings(frames), tail)
  {
    hide RawFrame, ReadFrame, Interpret;
    if frames == [] {
      assert RawStream(frames) + tail == tail;
    } else {
      var rest := RawStream(frames[1..]) + tail;
      assert RawStream(frames) + tail == RawFrame(frames[0].flags, frames[0].payload) + rest;
      FrameBoundary(frames[0].flags, frames[0].payload, rest);
      FramesStayApart(frames[1..], tail);
      assert Meanings(frames) == [Meanings(frames)[0]] + Meanings(frames[1..]);
    }
  }

  // ---------------------------------------------------------------- Streams of packets

  ghost predicate FrameSendable(p: Packet) {
    PacketSendable(p) && |PayloadWire(p)| < TWO32
  }

  function Stream(ps: seq<Packet>): seq<byte> {
    if ps == [] then [] else Frame(ps[0]) + Stream(ps[1..])
  }

  function RawOf(ps: seq<Packet>): (fs: seq<Raw>)
    ensures |fs| == |ps|
  {
    seq(|ps|, i requires 0 <= i < |ps| => Raw(FLAG_BASE, PayloadWire(ps[i])))
  }

  lemma {:induction false} StreamIsRaw(ps: seq<Packet>)
    ensures Stream(ps) == RawStream(RawOf(ps))
  {
    hide RawFrame, PayloadWire;
    if ps != [] {
      StreamIsRaw(ps[1..]);
      assert RawOf(ps)[1..] == RawOf(ps[1..]);
    }
  }

  /** The packets as they come out of the decoder. */
  function Arrived(ps: seq<Packet>): (rs: seq<Reply>)
    ensures |rs| == |ps|
  {
    seq(|ps|, i requires 0 <= i < |ps| => Success(CanonPacket(ps[i])))
  }

  /** The frames of any list of sendable packets are read back as those packets, in order, and
      exactly their bytes are consumed. */
  lemma {:induction false} PacketsArriveInOrder(ps: seq<Packet>, tail: seq<byte>)
    requires forall p :: p in ps ==> FrameSendable(p)
    ensures ReadFrames(Stream(ps) + tail, |ps|) == (Arrived(ps), tail)
    ensures forall i :: 0 <= i < |ps| && NoEmptyBytesIn(ps[i].tags) ==> Arrived(ps)[i] == Success(ps[i])
  {
    hide PayloadWire, RawStream, Stream, ReadFrames, ParsePayload, CanonTags;
    StreamIsRaw(ps);
    forall f | f in RawOf(ps) ensures |f.payload| < TWO32 {
      var i :| 0 <= i < |ps| && f == Raw(FLAG_BASE, PayloadWire(ps[i]));
      assert ps[i] in ps;
    }
    FramesStayApart(RawOf(ps), tail);
    forall i | 0 <= i < |ps|
      ensures Meanings(RawOf(ps))[i] == Arrived(ps)[i]
      ensures NoEmptyBytesIn(ps[i].tags) ==> Arrived(ps)[i] == Success(ps[i])
    {
      assert ps[i] in ps;
      PacketReadsBack(ps[i], []);
      assert PayloadWire(ps[i]) + [] == PayloadWire(ps[i]);
      CanonsAreIdentity(ps[i].tags);
    }
    assert Meanings(RawOf(ps)) == Arrived(ps);
  }
}
