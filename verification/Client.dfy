/** The blocking client of `core/ec/client.cpp` over a socket whose deliveries are arbitrary:
    bytes come in chunks of any size, a wait may time out, the peer may close. */
module Client {
  import opened Outcomes
  import opened Bytes
  import opened Tags
  import opened Codec
  import opened CodecIO
  import opened Framing

  /** What one wait for incoming data brings. */
  datatype Arrival = Data(chunk: seq<byte>) | TimedOut | Closed

  /** What one wait for outgoing data achieves. */
  datatype Flush = Flushed(n: nat) | Stalled

  /** The bytes that waits deliver before one of them fails. */
  ghost function Delivered(arrivals: seq<Arrival>): seq<byte> {
    if arrivals == [] || !arrivals[0].Data? then [] else arrivals[0].chunk + Delivered(arrivals[1..])
  }

  ghost function Capacity(flushes: seq<Flush>): nat {
    if flushes == [] || !flushes[0].Flushed? then 0 else flushes[0].n + Capacity(flushes[1..])
  }

  function AsArrivals(chunks: seq<seq<byte>>): seq<Arrival> {
    if chunks == [] then [] else [Data(chunks[0])] + AsArrivals(chunks[1..])
  }

  function Joined(chunks: seq<seq<byte>>): seq<byte> {
    if chunks == [] then [] else chunks[0] + Joined(chunks[1..])
  }

  /** However a stream is cut into chunks, empty ones included, the same bytes are delivered. */
  lemma {:induction false} ChunksDoNotMatter(chunks: seq<seq<byte>>, later: seq<Arrival>)
    ensures Delivered(AsArrivals(chunks) + later) == Joined(chunks) + Delivered(later)
  {
    hide Delivered;
    if chunks == [] {
      assert AsArrivals(chunks) + later == later;
    } else {
      ChunksDoNotMatter(chunks[1..], later);
      var rest := AsArrivals(chunks[1..]) + later;
      assert AsArrivals(chunks) + later == [Data(chunks[0])] + rest;
      FirstDelivered(chunks[0], rest);
    }
  }

  lemma FirstDelivered(chunk: seq<byte>, rest: seq<Arrival>)
    ensures Delivered([Data(chunk)] + rest) == chunk + Delivered(rest)
  {
    assert ([Data(chunk)] + rest)[1..] == rest;
  }

  /** The stream of any sendable packets, in any chunks, is read as these packets. */
  lemma {:induction false} StreamInAnyChunks(chunks: seq<seq<byte>>, later: seq<Arrival>, ps: seq<Packet>)
    requires Joined(chunks) == Stream(ps) && forall p :: p in ps ==> FrameSendable(p)
    ensures ReadFrames(Delivered(AsArrivals(chunks) + later), |ps|) == (Arrived(ps), Delivered(later))
    ensures Failure(Io) !in Arrived(ps)
  {
    hide ReadFrames, Stream, FrameSendable, Delivered;
    ChunksDoNotMatter(chunks, later);
    PacketsArriveInOrder(ps, Delivered(later));
  }

  lemma FramesStep(s: seq<byte>, count: nat)
    ensures ReadFrames(s, count) == if count == 0 then ([], s)
                                    else ([ReadFrame(s).0] + ReadFrames(ReadFrame(s).1, count - 1).0,
                                          ReadFrames(ReadFrame(s).1, count - 1).1)
  {
    hide ReadFrame;
  }

  class EcClient {
    var connected: bool
    var available: seq<byte>    // received by the socket, not yet read
    var arrivals: seq<Arrival>  // what the coming waits bring; after the last, they time out
    var unsent: seq<byte>       // written to the socket, not yet on the wire
    var sent: seq<byte>
    var flushes: seq<Flush>

    /** Nothing arrives after the peer has closed. */
    ghost predicate Valid()
      reads this
    {
      !connected ==> arrivals == []
    }

    constructor (arrivals: seq<Arrival>, flushes: seq<Flush>)
      ensures Valid() && connected && available == [] && unsent == [] && sent == []
      ensures this.arrivals == arrivals && this.flushes == flushes
    {
      connected, available, unsent, sent := true, [], [], [];
      this.arrivals, this.flushes := arrivals, flushes;
    }

    /** Everything that can still be read, however it is cut into chunks. */
    ghost function Pending(): seq<byte>
      reads this
    {
      available + Delivered(arrivals)
    }

    method WaitForReadyRead() returns (ready: bool)
      requires Valid()
      modifies this`connected, this`available, this`arrivals
      ensures Valid()
      ensures ready ==> Pending() == old(Pending()) && |arrivals| < |old(arrivals)|
      ensures !ready ==> old(Pending()) == old(available) && available == old(available)
    {
      if arrivals == [] {
        return false;
      }
      var next := arrivals[0];
      arrivals := arrivals[1..];
      match next
      case Data(chunk) => available := available + chunk; ready := true;
      case TimedOut => ready := false;
      case Closed => connected, arrivals := false, []; ready := false;
    }

    /** At most `max` of the bytes the socket holds. */
    method Read(max: nat) returns (part: seq<byte>)
      requires Valid() && 0 < max
      modifies this`available
      ensures Valid() && |part| <= max && (old(available) != [] ==> part != [])
      ensures part + Pending() == old(Pending())
      ensures part == [] && !connected ==> Pending() == []
    {
      var size := if |available| < max then |available| else max;
      part := available[..size];
      assert available == part + available[size..];
      available := available[size..];
    }

    /** The bytes read off the stream depend only on what is pending, not on its chunks: `n`
        bytes if there are that many, an `Io` failure if and only if there are not. */
    method ReadExactly(n: nat) returns (r: Result<seq<byte>, ErrorKind>)
      requires Valid()
      modifies this`connected, this`available, this`arrivals
      ensures Valid()
      ensures r == if n <= |old(Pending())| then Success(old(Pending())[..n]) else Failure(Io)
      ensures r.Success? ==> Pending() == old(Pending())[n..]
    {
      hide Delivered, EcClient.Pending;
      var buf: seq<byte> := [];
      while |buf| < n
        invariant Valid() && |buf| <= n
        invariant old(Pending()) == buf + Pending()
        decreases |arrivals|, n - |buf|
      {
        if available == [] {
          var ready := WaitForReadyRead();
          if !ready {
            return Failure(Io);
          }
        }
        var part := Read(n - |buf|);
        if part == [] && !connected {
          return Failure(Io);
        }
        assert buf + (part + Pending()) == (buf + part) + Pending();
        buf := buf + part;
      }
      assert old(Pending())[..n] == buf;
      r := Success(buf);
    }

    method ReadPacket() returns (r: Reply)
      requires Valid()
      modifies this`connected, this`available, this`arrivals
      ensures Valid()
      ensures r == ReadFrame(old(Pending())).0
      ensures r != Failure(Io) ==> Pending() == ReadFrame(old(Pending())).1
    {
      hide FromBE, ParsePayload, Delivered;
      ghost var s := Pending();
      var header :- ReadExactly(HEADER_SIZE);
      assert header[..4] == s[..4] && header[4..] == s[4..8];
      var flags := FromBE(header[..4]);
      var length := FromBE(header[4..]);
      var payload :- ReadExactly(length);
      assert payload == s[8..8 + length] && Pending() == s[8 + length..];
      Widths();
      if flags % 2 == FLAG_ZLIB {
        return Failure(Remote);
      }
      var packet := DecodePayload(payload);
      r := if packet.Success? then Success(packet.value) else Failure(Remote);
    }

    /** Repeated `readPacket`, up to the first transport error: the replies are those of the pending
        bytes, in order, and exactly the bytes of their frames are consumed. */
    method ReadPackets(count: nat) returns (replies: seq<Reply>)
      requires Valid()
      modifies this`connected, this`available, this`arrivals
      ensures Valid()
      ensures replies <= ReadFrames(old(Pending()), count).0
      ensures |replies| < count ==> replies != [] && replies[|replies| - 1] == Failure(Io)
      ensures Failure(Io) !in ReadFrames(old(Pending()), count).0 ==>
                replies == ReadFrames(old(Pending()), count).0 && Pending() == ReadFrames(old(Pending()), count).1
    {
      hide ReadFrame, ReadFrames, Delivered;
      replies := [];
      ghost var all := ReadFrames(Pending(), count);
      FramesStep(Pending(), count);
      assert [] + all.0 == all.0;
      while |replies| < count
        invariant Valid() && |replies| <= count
        invariant Failure(Io) !in replies
        invariant all == (replies + ReadFrames(Pending(), count - |replies|).0, ReadFrames(Pending(), count - |replies|).1)
      {
        FramesStep(Pending(), count - |replies|);
        ghost var rest := ReadFrames(ReadFrame(Pending()).1, count - |replies| - 1);
        var reply := ReadPacket();
        assert replies + ([reply] + rest.0) == (replies + [reply]) + rest.0;
        replies := replies + [reply];
        if reply == Failure(Io) {
          return;
        }
      }
      FramesStep(Pending(), 0);
      assert replies + [] == replies;
    }

    /** Packets sent as frames and delivered in any chunks are received as those packets, in order;
        what arrives behind them is left for the next read. */
    method ReceivePackets(count: nat, ghost ps: seq<Packet>, ghost chunks: seq<seq<byte>>, ghost later: seq<Arrival>)
      returns (replies: seq<Reply>)
      requires Valid() && available == [] && arrivals == AsArrivals(chunks) + later
      requires count == |ps| && Joined(chunks) == Stream(ps) && forall p :: p in ps ==> FrameSendable(p)
      modifies this`connected, this`available, this`arrivals
      ensures Valid()
      ensures replies == Arrived(ps) && Pending() == Delivered(later)
    {
      hide Delivered, ReadFrames, Stream, FrameSendable;
      StreamInAnyChunks(chunks, later, ps);
      assert Pending() == Delivered(arrivals);
      replies := ReadPackets(count);
    }

    method WaitForBytesWritten() returns (ok: bool)
      requires unsent != []
      modifies this`unsent, this`sent, this`flushes
      ensures sent + unsent == old(sent + unsent)
      ensures ok ==> |flushes| < |old(flushes)|
      ensures ok ==> (Capacity(flushes) >= |unsent| <==> Capacity(old(flushes)) >= |old(unsent)|)
      ensures !ok ==> Capacity(old(flushes)) == 0 && unsent == old(unsent)
    {
      if flushes == [] {
        return false;
      }
      var next := flushes[0];
      flushes := flushes[1..];
      match next
      case Stalled => ok := false;
      case Flushed(n) =>
        var k := if n < |unsent| then n else |unsent|;
        assert unsent == unsent[..k] + unsent[k..];
        sent, unsent := sent + unsent[..k], unsent[k..];
        ok := true;
    }

    /** One request and one reply. No byte of a request is lost, doubled or reordered; the reply
        is read exactly when the request went out completely. */
    method Exchange(request: Packet) returns (r: Reply)
      requires Valid()
      modifies this
      ensures Valid()
      ensures !old(connected) ==> r == Failure(Io) && sent == old(sent) && unsent == old(unsent)
      ensures old(connected) ==> sent + unsent == old(sent + unsent) + Frame(request)
      ensures old(connected) && Capacity(old(flushes)) < |old(unsent)| + |Frame(request)| ==> r == Failure(Io)
      ensures old(connected) && Capacity(old(flushes)) >= |old(unsent)| + |Frame(request)| ==>
                && unsent == []
                && r == ReadFrame(old(Pending())).0
                && (r != Failure(Io) ==> Pending() == ReadFrame(old(Pending())).1)
    {
      hide Frame, ReadFrame, Delivered;
      var frame := Encode(request);
      if !connected {
        return Failure(Io);
      }
      unsent := unsent + frame;
      assert sent + unsent == old(sent + unsent) + Frame(request);
      while unsent != []
        invariant Valid()
        invariant sent + unsent == old(sent + unsent) + Frame(request)
        invariant Capacity(flushes) >= |unsent| <==> Capacity(old(flushes)) >= |old(unsent)| + |Frame(request)|
        invariant Pending() == old(Pending())
        decreases |flushes|
      {
        var ok := WaitForBytesWritten();
        if !ok {
          return Failure(Io);
        }
      }
      r := ReadPacket();
    }
  }
}
