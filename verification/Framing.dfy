/**
 * How messages become bytes on the connection and bytes become messages again: the fixed header, the
 * compression of large messages, and the reader's two alternating reads.
 */
module Framing {

  type Byte = b: int | 0 <= b < 256
  type Bytes = seq<Byte>

  const TWO_8 := 0x100
  const TWO_16 := 0x1_0000
  const TWO_24 := 0x100_0000
  const TWO_31 := 0x8000_0000
  const TWO_32 := 0x1_0000_0000
  const TWO_64 := 0x1_0000_0000_0000_0000

  /** The protocol's `value_t`. */
  type Int32 = v: int | -TWO_31 <= v < TWO_31

  /** The conversion of a size to `value_t`. */
  function ToValue(n: nat): Int32 {
    var u := n % TWO_32;
    if u < TWO_31 then u else u - TWO_32
  }

  /** The conversion of a `value_t` to a size: a negative value becomes an enormous one. */
  function ToSize(v: Int32): nat {
    if v < 0 then v + TWO_64 else v
  }

  /** A size survives the header exactly when it is below two gigabytes, or within two of the very top. */
  lemma SizeSurvives(n: nat)
    requires n < TWO_64
    ensures ToSize(ToValue(n)) == n <==> (n < TWO_31 || n >= TWO_64 - TWO_31)
  {
    assert n == n / TWO_32 * TWO_32 + n % TWO_32;
  }

  // ---- The header: two 32-bit values in memory order ---------------------------------------------

  datatype Header = Header(size: Int32, compressed: Int32)

  const HEADER_SIZE: nat := 8

  function EncodeInt(v: Int32): (bs: Bytes)
    ensures |bs| == 4
  {
    var u := if v < 0 then v + TWO_32 else v;
    [u % TWO_8, u / TWO_8 % TWO_8, u / TWO_16 % TWO_8, u / TWO_24]
  }

  function DecodeInt(bs: Bytes): Int32
    requires |bs| == 4
  {
    var u := bs[0] + bs[1] * TWO_8 + bs[2] * TWO_16 + bs[3] * TWO_24;
    if u < TWO_31 then u else u - TWO_32
  }

  lemma IntRoundTrip(v: Int32)
    ensures DecodeInt(EncodeInt(v)) == v
  {
    var u: nat := if v < 0 then v + TWO_32 else v;
    assert u / TWO_16 == u / TWO_8 / TWO_8;
    assert u / TWO_24 == u / TWO_16 / TWO_8;
  }

  function EncodeHeader(h: Header): (bs: Bytes)
    ensures |bs| == HEADER_SIZE
  {
    EncodeInt(h.size) + EncodeInt(h.compressed)
  }

  function DecodeHeader(bs: Bytes): Header
    requires |bs| == HEADER_SIZE
  {
    Header(DecodeInt(bs[..4]), DecodeInt(bs[4..]))
  }

  lemma HeaderRoundTrip(h: Header)
    ensures DecodeHeader(EncodeHeader(h)) == h
  {
    IntRoundTrip(h.size);
    IntRoundTrip(h.compressed);
    assert EncodeHeader(h)[..4] == EncodeInt(h.size) && EncodeHeader(h)[4..] == EncodeInt(h.compressed);
  }

  // ---- Packets ------------------------------------------------------------------------------------

  /** The archive and compression libraries, as the functions they compute. */
  datatype Codec<!M(!new)> = Codec(
    serialize: M -> Bytes,
    deserialize: Bytes -> M,
    compress: Bytes -> Bytes,
    decompress: Bytes -> Bytes)
  {
    ghost predicate Inverse()
    {
      && (forall m :: deserialize(serialize(m)) == m)
      && (forall bs :: decompress(compress(bs)) == bs)
    }
  }

  datatype Packet = Packet(header: Header, body: Bytes)

  const COMPRESSION_THRESHOLD: nat := 100000

  function Pack<M(!new)>(c: Codec<M>, m: M): Packet {
    var raw := c.serialize(m);
    var compressed := |raw| > COMPRESSION_THRESHOLD;
    var body := if compressed then c.compress(raw) else raw;
    Packet(Header(ToValue(|body|), if compressed then 1 else 0), body)
  }

  /** Compressed exactly above a hundred thousand bytes, and the header says so and how long the body is. */
  ghost predicate PackedAs<M(!new)>(c: Codec<M>, m: M, p: Packet) {
    var raw := c.serialize(m);
    && (|raw| > 100000 ==> p.body == c.compress(raw) && p.header.compressed == 1)
    && (|raw| <= 100000 ==> p.body == raw && p.header.compressed == 0)
    && (|p.body| < 0x8000_0000 ==> p.header.size == |p.body|)
  }

  /** A packet on the wire: its length and whether it is compressed, lowest byte first, and then its body. */
  lemma WireFormat<M(!new)>(c: Codec<M>, m: M)
    requires Fits(c, m)
    ensures var p, bs := Pack(c, m), PacketBytes(Pack(c, m));
      && PackedAs(c, m, p) && |bs| == 8 + |p.body| && bs[8..] == p.body
      && bs[0] as int + 256 * bs[1] as int + 65536 * bs[2] as int + 16777216 * bs[3] as int == |p.body|
      && bs[4] == p.header.compressed && bs[5] == bs[6] == bs[7] == 0
  {
    var p := Pack(c, m);
    IntRoundTrip(p.header.size);
    assert PacketBytes(p)[..8] == EncodeHeader(p.header);
    SizeSurvives(|p.body|);
  }

  function PacketBytes(p: Packet): Bytes {
    EncodeHeader(p.header) + p.body
  }

  function PacketsBytes(ps: seq<Packet>): Bytes {
    if ps == [] then [] else PacketsBytes(ps[..|ps| - 1]) + PacketBytes(ps[|ps| - 1])
  }

  function Packs<M(!new)>(c: Codec<M>, ms: seq<M>): (ps: seq<Packet>)
    ensures |ps| == |ms|
  {
    seq(|ms|, i requires 0 <= i < |ms| => Pack(c, ms[i]))
  }

  /** The stream a sender owes its peer for these messages. */
  function Stream<M(!new)>(c: Codec<M>, ms: seq<M>): Bytes {
    PacketsBytes(Packs(c, ms))
  }

  lemma StreamOfOneMore<M(!new)>(c: Codec<M>, ms: seq<M>, m: M)
    ensures Stream(c, ms + [m]) == Stream(c, ms) + PacketBytes(Pack(c, m))
  {
    var ps := Packs(c, ms);
    assert Packs(c, ms + [m]) == ps + [Pack(c, m)];
    assert (ps + [Pack(c, m)])[..|ps|] == ps;
  }

  lemma StreamConcat<M(!new)>(c: Codec<M>, ms: seq<M>, more: seq<M>)
    ensures Stream(c, ms + more) == Stream(c, ms) + PacketsBytes(Packs(c, more))
  {
    assert Packs(c, ms + more) == Packs(c, ms) + Packs(c, more);
    PacketsBytesConcat(Packs(c, ms), Packs(c, more));
  }

  lemma {:induction false} PacketsBytesConcat(ps: seq<Packet>, qs: seq<Packet>)
    ensures PacketsBytes(ps + qs) == PacketsBytes(ps) + PacketsBytes(qs)
  {
    if qs == [] {
      assert ps + qs == ps;
    } else {
      var n := |qs| - 1;
      assert (ps + qs)[..|ps + qs| - 1] == ps + qs[..n];
      PacketsBytesConcat(ps, qs[..n]);
      assert (ps + qs)[|ps + qs| - 1] == qs[n];
      Associate(PacketsBytes(ps), PacketsBytes(qs[..n]), PacketBytes(qs[n]));
    }
  }

  lemma Associate<T>(a: seq<T>, b: seq<T>, c: seq<T>)
    ensures a + b + c == a + (b + c)
  {
  }

  /** The message fits: what is put on the wire for it is below two gigabytes. */
  predicate Fits<M(!new)>(c: Codec<M>, m: M) {
    |Pack(c, m).body| < TWO_31
  }

  // ---- The reader -----------------------------------------------------------------------------------

  /** Which read is outstanding: the fixed header, or the archive that the header announced. */
  datatype Read = ReadHeader | ReadArchive(size: nat, compressed: bool)

  function Needed(r: Read): nat {
    if r.ReadHeader? then HEADER_SIZE else r.size
  }

  function HeaderArrived(bs: Bytes): Read
    requires |bs| == HEADER_SIZE
  {
    var h := DecodeHeader(bs);
    ReadArchive(ToSize(h.size), h.compressed != 0)
  }

  function Unpack<M(!new)>(c: Codec<M>, compressed: bool, bs: Bytes): M {
    c.deserialize(if compressed then c.decompress(bs) else bs)
  }

  datatype Reader<M> = Reader(read: Read, buffer: Bytes, delivered: seq<M>)

  /** Completes every read that the buffered bytes allow. */
  function Drain<M(!new)>(c: Codec<M>, r: Reader<M>): Reader<M>
    decreases |r.buffer|, if r.read.ReadHeader? then 0 else 1
  {
    var n := Needed(r.read);
    if |r.buffer| < n then r
    else match r.read
      case ReadHeader =>
        Drain(c, Reader(HeaderArrived(r.buffer[..n]), r.buffer[n..], r.delivered))
      case ReadArchive(_, compressed) =>
        Drain(c, Reader(ReadHeader, r.buffer[n..], r.delivered + [Unpack(c, compressed, r.buffer[..n])]))
  }

  /** What a reader that starts afresh makes of these bytes, when they are all there at once. */
  function Received<M(!new)>(c: Codec<M>, bs: Bytes): Reader<M> {
    Drain(c, Reader(ReadHeader, bs, []))
  }

  /** It makes no difference where the stream is cut. */
  lemma {:induction false} DrainInPieces<M(!new)>(c: Codec<M>, r: Reader<M>, more: Bytes)
    ensures var half := Drain(c, r);
      Drain(c, r.(buffer := r.buffer + more)) == Drain(c, half.(buffer := half.buffer + more))
    decreases |r.buffer|, if r.read.ReadHeader? then 0 else 1
  {
    var n := Needed(r.read);
    if |r.buffer| >= n {
      assert (r.buffer + more)[..n] == r.buffer[..n];
      assert (r.buffer + more)[n..] == r.buffer[n..] + more;
      match r.read
      case ReadHeader =>
        DrainInPieces(c, Reader(HeaderArrived(r.buffer[..n]), r.buffer[n..], r.delivered), more);
      case ReadArchive(_, compressed) =>
        DrainInPieces(c, Reader(ReadHeader, r.buffer[n..], r.delivered + [Unpack(c, compressed, r.buffer[..n])]), more);
    }
  }

  /** Bytes are only ever added to what has been delivered. */
  lemma {:induction false} DrainExtends<M(!new)>(c: Codec<M>, r: Reader<M>)
    ensures r.delivered <= Drain(c, r).delivered
    decreases |r.buffer|, if r.read.ReadHeader? then 0 else 1
  {
    var n := Needed(r.read);
    if |r.buffer| >= n {
      match r.read
      case ReadHeader =>
        DrainExtends(c, Reader(HeaderArrived(r.buffer[..n]), r.buffer[n..], r.delivered));
      case ReadArchive(_, compressed) =>
        DrainExtends(c, Reader(ReadHeader, r.buffer[n..], r.delivered + [Unpack(c, compressed, r.buffer[..n])]));
    }
  }

  /** One frame is read back as the message it was made of, compressed or not. */
  lemma FrameRoundTrip<M(!new)>(c: Codec<M>, m: M, delivered: seq<M>)
    requires c.Inverse() && Fits(c, m)
    ensures Drain(c, Reader(ReadHeader, PacketBytes(Pack(c, m)), delivered)) == Reader(ReadHeader, [], delivered + [m])
  {
    var p := Pack(c, m);
    var bs := PacketBytes(p);
    assert bs[..HEADER_SIZE] == EncodeHeader(p.header) && bs[HEADER_SIZE..] == p.body;
    HeaderRoundTrip(p.header);
    SizeSurvives(|p.body|);
    assert p.body[..|p.body|] == p.body && p.body[|p.body|..] == [];
    var compressed := p.header.compressed != 0;
    assert Unpack(c, compressed, p.body) == m;
    assert HeaderArrived(bs[..HEADER_SIZE]) == ReadArchive(|p.body|, compressed);
    var done := Reader<M>.Reader(ReadHeader, [], delivered + [m]);
    assert Drain(c, Reader(ReadArchive(|p.body|, compressed), p.body, delivered)) == Drain(c, done) == done;
  }

  /** The whole stream is read back as exactly the messages sent, in order. */
  lemma {:induction false} StreamRoundTrip<M(!new)>(c: Codec<M>, ms: seq<M>)
    requires c.Inverse() && forall m | m in ms :: Fits(c, m)
    ensures Received(c, Stream(c, ms)) == Reader(ReadHeader, [], ms)
  {
    if ms != [] {
      var front, last := ms[..|ms| - 1], ms[|ms| - 1];
      assert ms == front + [last];
      StreamRoundTrip(c, front);
      StreamOfOneMore(c, front, last);
      DrainInPieces(c, Reader(ReadHeader, Stream(c, front), []), PacketBytes(Pack(c, last)));
      FrameRoundTrip(c, last, front);
      assert [] + PacketBytes(Pack(c, last)) == PacketBytes(Pack(c, last));
    }
  }

  /** Any part of the stream that has arrived yields a prefix of the messages sent. */
  lemma PrefixDeliversPrefix<M(!new)>(c: Codec<M>, ms: seq<M>, bs: Bytes)
    requires c.Inverse() && (forall m | m in ms :: Fits(c, m))
    requires bs <= Stream(c, ms)
    ensures Received(c, bs).delivered <= ms
  {
    var rest := Stream(c, ms)[|bs|..];
    assert bs + rest == Stream(c, ms);
    StreamRoundTrip(c, ms);
    DrainInPieces(c, Reader(ReadHeader, bs, []), rest);
    var half := Received(c, bs);
    DrainExtends(c, half.(buffer := half.buffer + rest));
    var start := Reader<M>.Reader(ReadHeader, bs, []);
    assert start.(buffer := start.buffer + rest) == Reader(ReadHeader, Stream(c, ms), []);
  }
}
