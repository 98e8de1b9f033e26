/**
 * The two ends of a connection: the sender with its queue of packets and at most one write under way,
 * and the receiver with its one outstanding read.
 */
module Transport {
  import opened Wrappers
  import opened Framing

  /** What the sender tells its owner: the socket must be watched for writing, or need not be any more. */
  datatype Notice = StartSend | EndSend

  /** The notices alternate, beginning with a start. */
  predicate Alternating(notices: seq<Notice>) {
    && (notices != [] ==> notices[0] == StartSend)
    && forall i, j | 0 <= i < |notices| && j == i + 1 < |notices| :: notices[i] != notices[j]
  }

  predicate Started(notices: seq<Notice>) {
    notices != [] && notices[|notices| - 1] == StartSend
  }

  lemma NoticesAlternate(notices: seq<Notice>, next: Notice)
    requires Alternating(notices) && (next == StartSend <==> !Started(notices))
    ensures Alternating(notices + [next]) && (Started(notices + [next]) <==> next == StartSend)
  {
    var more := notices + [next];
    forall i, j | 0 <= i < |more| && j == i + 1 < |more| ensures more[i] != more[j] {
      if j < |notices| { assert notices[i] != notices[j]; }
    }
  }

  /** The bytes of a gathered write: its buffers one after the other. */
  function Gather(buffers: seq<Bytes>): Bytes {
    if buffers == [] then [] else Gather(buffers[..|buffers| - 1]) + buffers[|buffers| - 1]
  }

  predicate BuffersOf(buffers: seq<Bytes>, ps: seq<Packet>, n: nat) {
    && |buffers| == 2 * |ps| && n <= |ps|
    && forall j | 0 <= j < n :: buffers[2 * j] == EncodeHeader(ps[j].header) && buffers[2 * j + 1] == ps[j].body
  }

  lemma {:induction false} GatherPackets(ps: seq<Packet>, buffers: seq<Bytes>)
    requires BuffersOf(buffers, ps, |ps|)
    ensures Gather(buffers) == PacketsBytes(ps)
  {
    if ps != [] {
      var n := |ps| - 1;
      GatherPackets(ps[..n], buffers[..2 * n]);
      var upToHeader := buffers[..2 * n + 1];
      assert buffers[..|buffers| - 1] == upToHeader;
      assert upToHeader[..2 * n] == buffers[..2 * n];
      assert Gather(buffers) == Gather(buffers[..2 * n]) + EncodeHeader(ps[n].header) + ps[n].body;
    }
  }

  /** Lays out header and body of each packet as consecutive buffers, and yields what a write of them sends. */
  method GatherBuffers(queue: seq<Packet>) returns (bytes: Bytes)
    ensures bytes == PacketsBytes(queue)
  {
    var buffers := new Bytes[2 * |queue|](_ => []);
    for i := 0 to |queue|
      invariant BuffersOf(buffers[..], queue, i)
    {
      buffers[2 * i] := EncodeHeader(queue[i].header);
      buffers[2 * i + 1] := queue[i].body;
    }
    GatherPackets(queue, buffers[..]);
    bytes := Gather(buffers[..]);
  }

  class Sender<M(!new)> {
    const codec: Codec<M>
    var writeQueue: seq<Packet>
    var writeReady: bool
    /** The packets bound to the write that is under way. */
    var inFlight: Option<seq<Packet>>
    /** Everything ever handed to the socket. */
    var wire: Bytes
    var notices: seq<Notice>
    var disconnects: nat
    /** Every message sent, and how many of them have been handed to the socket. */
    ghost var sent: seq<M>
    ghost var flushed: nat

    /** What the handlers keep between them. */
    ghost predicate Valid()
      reads this
    {
      && (writeReady <==> inFlight.None?)
      && (writeReady ==> writeQueue == [])
      && Alternating(notices) && (writeReady <==> !Started(notices))
      && Accounted()
    }

    /** The wire carries the stream of the flushed messages, and the queue holds the packets of the others. */
    ghost predicate Accounted()
      reads this
    {
      flushed <= |sent| && wire == Stream(codec, sent[..flushed]) && writeQueue == Packs(codec, sent[flushed..])
    }

    constructor (codec: Codec<M>)
      ensures Valid() && sent == [] && wire == [] && writeReady && disconnects == 0
      ensures this.codec == codec
    {
      this.codec := codec;
      writeQueue, writeReady, inFlight := [], true, None;
      wire, notices, disconnects, sent, flushed := [], [], 0, [], 0;
    }

    method Enqueue(m: M)
      requires Accounted()
      modifies this`writeQueue, this`sent
      ensures Accounted() && sent == old(sent) + [m]
      ensures |writeQueue| == |old(writeQueue)| + 1 && old(writeQueue) <= writeQueue
      ensures PackedAs(codec, m, writeQueue[|old(writeQueue)|])
      ensures old(writeQueue) == [] ==> writeQueue == [Pack(codec, m)]
    {
      assert (sent + [m])[..flushed] == sent[..flushed] && (sent + [m])[flushed..] == sent[flushed..] + [m];
      assert [] + [Pack(codec, m)] == [Pack(codec, m)];
      sent := sent + [m];
      var stream := codec.serialize(m);
      var compressed := |stream| > COMPRESSION_THRESHOLD;
      if compressed {
        stream := codec.compress(stream);
      }
      writeQueue := writeQueue + [Packet(Header(ToValue(|stream|), if compressed then 1 else 0), stream)];
    }

    /** A message joins the queue; if nothing is being written, writing starts at once. */
    method SendMessage(m: M)
      requires Valid()
      modifies this
      ensures Valid() && sent == old(sent) + [m] && old(wire) <= wire
      ensures !old(writeReady) ==> wire == old(wire) && inFlight == old(inFlight) && notices == old(notices)
      ensures old(writeReady) ==> wire == Stream(codec, sent) && inFlight == Some([Pack(codec, m)])
      ensures !writeReady && disconnects == old(disconnects)
    {
      Enqueue(m);
      if writeReady {
        NoticesAlternate(notices, StartSend);
        notices := notices + [StartSend];
        writeReady := false;
        WriteQueue();
      }
    }

    /** Hands the whole queue to the socket in one write. Only legal while no write is under way. */
    method WriteQueue()
      requires inFlight.None? && writeQueue != [] && Accounted()
      modifies this`writeReady, this`writeQueue, this`inFlight, this`wire, this`flushed
      ensures !writeReady && writeQueue == [] && inFlight == Some(old(writeQueue))
      ensures Accounted() && wire == Stream(codec, sent) && old(wire) <= wire
    {
      StreamConcat(codec, sent[..flushed], sent[flushed..]);
      assert sent[..flushed] + sent[flushed..] == sent == sent[..|sent|];
      writeReady := false;
      var gathered := GatherBuffers(writeQueue);
      wire := wire + gathered;
      inFlight, writeQueue := Some(writeQueue), [];
      flushed := |sent|;
    }

    /** The socket is done with the write that was under way. */
    method OnWrite(failed: bool)
      requires Valid() && inFlight.Some?
      modifies this
      ensures Valid() && sent == old(sent) && old(wire) <= wire && wire == Stream(codec, sent)
      ensures writeReady <==> old(writeQueue) == []
      ensures !writeReady ==> inFlight == Some(old(writeQueue)) && notices == old(notices)
      ensures writeReady ==> notices == old(notices) + [EndSend]
      ensures disconnects == old(disconnects) + (if failed then 1 else 0)
    {
      inFlight := None;
      if writeQueue != [] {
        WriteQueue();
      } else {
        assert sent[..flushed] == sent;
        writeReady := true;
        NoticesAlternate(notices, EndSend);
        notices := notices + [EndSend];
      }
      if failed {
        disconnects := disconnects + 1;
      }
    }
  }

  class Receiver<M(!new)> {
    const codec: Codec<M>
    var read: Read
    var buffer: Bytes
    var delivered: seq<M>
    ghost var received: Bytes

    ghost predicate Valid()
      reads this
    {
      Reader(read, buffer, delivered) == Received(codec, received)
    }

    constructor (codec: Codec<M>)
      ensures Valid() && received == [] && delivered == []
      ensures this.codec == codec
    {
      assert Received(codec, []) == Reader(ReadHeader, [], []);
      this.codec := codec;
      read, buffer, delivered, received := ReadHeader, [], [], [];
    }

    /** Some more bytes come in; every read that they complete runs its handler, which starts the next one. */
    method Arrive(chunk: Bytes)
      requires Valid()
      modifies this
      ensures Valid() && received == old(received) + chunk
      ensures old(delivered) <= delivered
    {
      DrainInPieces(codec, Reader(ReadHeader, received, []), chunk);
      received := received + chunk;
      buffer := buffer + chunk;
      while |buffer| >= Needed(read)
        invariant Drain(codec, Reader(read, buffer, delivered)) == Received(codec, received)
        invariant received == old(received) + chunk && old(delivered) <= delivered
        decreases |buffer|, if read.ReadHeader? then 0 else 1
      {
        var n := Needed(read);
        var data := buffer[..n];
        buffer := buffer[n..];
        match read
        case ReadHeader => OnReadHeader(data);
        case ReadArchive(_, compressed) =>
          if compressed { OnReadCompressedArchive(data); } else { OnReadArchive(data); }
      }
      assert Drain(codec, Reader(read, buffer, delivered)) == Reader(read, buffer, delivered);
    }

    method OnReadHeader(data: Bytes)
      requires |data| == HEADER_SIZE
      modifies this`read
      ensures read == HeaderArrived(data)
    {
      var header := DecodeHeader(data);
      read := ReadArchive(ToSize(header.size), header.compressed != 0);
    }

    method OnReadArchive(data: Bytes)
      modifies this`read, this`delivered
      ensures read == ReadHeader && delivered == old(delivered) + [Unpack(codec, false, data)]
    {
      delivered := delivered + [codec.deserialize(data)];
      read := ReadHeader;
    }

    method OnReadCompressedArchive(data: Bytes)
      modifies this`read, this`delivered
      ensures read == ReadHeader && delivered == old(delivered) + [Unpack(codec, true, data)]
    {
      var unpacked := codec.decompress(data);
      delivered := delivered + [codec.deserialize(unpacked)];
      read := ReadHeader;
    }
  }

  /** What can happen on a connection that does not fail. */
  datatype Event<M> = Send(m: M) | WriteDone | Arrive(count: nat)

  ghost predicate AllFit<M(!new)>(c: Codec<M>, events: seq<Event<M>>) {
    forall e | e in events :: e.Send? ==> Fits(c, e.m)
  }

  /** The connection between the two ends carries bytes in order. */
  ghost predicate Connected<M(!new)>(c: Codec<M>, s: Sender<M>, r: Receiver<M>)
    reads s, r
  {
    s.Valid() && r.Valid() && s.codec == c && r.codec == c && r.received <= s.wire
  }

  method Happen<M(!new)>(c: Codec<M>, s: Sender<M>, r: Receiver<M>, e: Event<M>, arrived: nat) returns (arrived': nat)
    requires Connected(c, s, r) && arrived == |r.received|
    modifies s, r
    ensures Connected(c, s, r) && arrived' == |r.received|
    ensures s.sent == old(s.sent) + if e.Send? then [e.m] else []
    ensures e.Arrive? ==> arrived' == if arrived + e.count <= |s.wire| then arrived + e.count else |s.wire|
  {
    arrived' := arrived;
    match e
    case Send(m) => s.SendMessage(m);
    case WriteDone => if s.inFlight.Some? { s.OnWrite(false); }
    case Arrive(count) =>
      arrived' := if arrived + count <= |s.wire| then arrived + count else |s.wire|;
      r.Arrive(s.wire[arrived..arrived']);
  }

  method Open<M(!new)>(c: Codec<M>) returns (s: Sender<M>, r: Receiver<M>)
    ensures fresh(s) && fresh(r) && Connected(c, s, r) && r.received == [] && s.sent == []
  {
    r := new Receiver(c);
    s := new Sender(c);
  }

  /** Any interleaving of sends, write completions and arrivals of however many bytes. */
  method Converse<M(!new)>(c: Codec<M>, events: seq<Event<M>>)
    returns (s: Sender<M>, r: Receiver<M>, arrived: nat)
    ensures fresh(s) && fresh(r) && Connected(c, s, r) && arrived == |r.received|
    ensures s.sent == Sent(events)
    decreases |events|
  {
    if events == [] {
      s, r := Open(c);
      arrived := 0;
    } else {
      s, r, arrived := Converse(c, events[..|events| - 1]);
      arrived := Happen(c, s, r, events[|events| - 1], arrived);
    }
  }

  /**
   * However sends, write completions and arrivals interleave: what the peer has been handed is always a
   * prefix of what was sent, and it is all of it once the sender is idle and everything on the wire has
   * arrived.
   */
  method Session<M(!new)>(c: Codec<M>, events: seq<Event<M>>) returns (s: Sender<M>, r: Receiver<M>)
    requires c.Inverse() && AllFit(c, events)
    ensures s.Valid() && s.sent == Sent(events)
    ensures r.delivered <= Sent(events)
    ensures s.writeReady && r.received == s.wire ==> r.delivered == Sent(events)
  {
    var arrived;
    s, r, arrived := Converse(c, events);
    WhatConnectedMeans(c, s, r);
    AllDelivered(c, events, r.received, s.wire, s.flushed);
  }

  lemma WhatConnectedMeans<M(!new)>(c: Codec<M>, s: Sender<M>, r: Receiver<M>)
    requires Connected(c, s, r)
    ensures r.delivered == Received(c, r.received).delivered && r.received <= s.wire
    ensures s.flushed <= |s.sent| && s.wire == Stream(c, s.sent[..s.flushed])
    ensures s.writeReady ==> s.flushed == |s.sent|
  {
  }

  lemma AllDelivered<M(!new)>(c: Codec<M>, events: seq<Event<M>>, received: Bytes, wire: Bytes, flushed: nat)
    requires c.Inverse() && AllFit(c, events)
    requires flushed <= |Sent(events)| && received <= wire && wire == Stream(c, Sent(events)[..flushed])
    ensures Received(c, received).delivered <= Sent(events)
    ensures flushed == |Sent(events)| && received == wire ==> Received(c, received).delivered == Sent(events)
  {
    SentFits(c, events);
    PrefixDeliversPrefix(c, Sent(events)[..flushed], received);
    StreamRoundTrip(c, Sent(events)[..flushed]);
    assert Sent(events)[..|Sent(events)|] == Sent(events);
  }

  function Sent<M>(events: seq<Event<M>>): seq<M> {
    if events == [] then []
    else
      var e := events[|events| - 1];
      Sent(events[..|events| - 1]) + (if e.Send? then [e.m] else [])
  }

  lemma {:induction false} SentFits<M(!new)>(c: Codec<M>, events: seq<Event<M>>)
    requires AllFit(c, events)
    ensures forall m | m in Sent(events) :: Fits(c, m)
  {
    if events != [] {
      SentFits(c, events[..|events| - 1]);
    }
  }
}
