/** The push-to-talk packet: a ten byte header and a run of equally long Codec2 frames. */
module PttPacket {
  import opened ByteStrings
  import opened Wrappers

  const PACKET_MAGIC: Bytes := [0x4b, 0x50, 0x54, 0x33]
  const PACKET_HEADER_LEN: nat := 10
  const BURST_START: byte := 0x01
  const BURST_END: byte := 0x02
  const U32: nat := 0x1_0000_0000
  const U64: nat := 0x1_0000_0000_0000_0000

  type Frame = Bytes

  datatype Header = Header(baseSeq: nat, flags: byte, nFrames: byte)

  function PacketBytes(h: Header, payload: Bytes): Bytes {
    PACKET_MAGIC + BigEndian(h.baseSeq, 4) + [h.flags] + [h.nFrames] + payload
  }

  method EncodePacket(h: Header, payload: Bytes) returns (out: Bytes)
    requires h.baseSeq < U32
    ensures out == PacketBytes(h, payload) && DecodePacket(out) == Some((h, payload))
  {
    out := [];
    out := out + PACKET_MAGIC;
    out := out + BigEndian(h.baseSeq, 4);
    out := out + [h.flags];
    out := out + [h.nFrames];
    out := out + payload;
    PacketRoundTrip(h, payload);
  }

  function DecodePacket(packet: Bytes): Option<(Header, Bytes)> {
    if |packet| < PACKET_HEADER_LEN then None
    else if packet[..4] != PACKET_MAGIC then None
    else Some((Header(FromBigEndian(packet[4..8]), packet[8], packet[9]), packet[PACKET_HEADER_LEN..]))
  }

  lemma PacketRoundTrip(h: Header, payload: Bytes)
    requires h.baseSeq < U32
    ensures DecodePacket(PacketBytes(h, payload)) == Some((h, payload))
  {
    RadixValues();
    BigEndianRoundTrip(h.baseSeq, 4);
    var p := PacketBytes(h, payload);
    assert p[..4] == PACKET_MAGIC && p[4..8] == BigEndian(h.baseSeq, 4) && p[10..] == payload;
  }

  /** A decodable packet is the encoding of what it decodes to: the format has one spelling. */
  lemma DecodedPacketIsEncoding(packet: Bytes)
    requires DecodePacket(packet).Some?
    ensures var (h, payload) := DecodePacket(packet).value;
      h.baseSeq < U32 && packet == PacketBytes(h, payload)
  {
    RadixValues();
    FromBigEndianRoundTrip(packet[4..8]);
    assert packet == packet[..4] + packet[4..8] + [packet[8]] + [packet[9]] + packet[10..];
  }

  // --- frames in a payload ---

  function Flatten(frames: seq<Frame>): Bytes {
    if frames == [] then [] else frames[0] + Flatten(frames[1..])
  }

  /** The i-th slice of a payload. */
  function Chunk(body: Bytes, i: nat, size: nat): Frame
    requires i * size + size <= |body|
  {
    body[i * size..i * size + size]
  }

  ghost predicate AllSized(frames: seq<Frame>, size: nat) {
    forall i :: 0 <= i < |frames| ==> |frames[i]| == size
  }

  lemma {:induction false} FlattenLength(frames: seq<Frame>, size: nat)
    requires AllSized(frames, size)
    ensures |Flatten(frames)| == |frames| * size
  {
    if frames != [] {
      FlattenLength(frames[1..], size);
      assert |frames| * size == size + (|frames| - 1) * size;
    }
  }

  lemma SliceInRange(i: nat, n: nat, size: nat)
    requires i < n
    ensures i * size + size <= n * size
  {
    assert n * size == i * size + size + (n - i - 1) * size;
    assert (n - i - 1) * size >= 0;
  }

  /** Slicing a flattened run of frames gives each frame back. */
  lemma {:induction false} ChunkOfFlatten(frames: seq<Frame>, size: nat, i: nat)
    requires AllSized(frames, size) && i < |frames|
    ensures i * size + size <= |Flatten(frames)| && Chunk(Flatten(frames), i, size) == frames[i]
    decreases i
  {
    FlattenLength(frames, size);
    SliceInRange(i, |frames|, size);
    if i > 0 {
      ChunkOfFlatten(frames[1..], size, i - 1);
      assert i * size == size + (i - 1) * size;
      var whole, tail := Flatten(frames), Flatten(frames[1..]);
      assert whole[size..] == tail;
      assert whole[i * size..i * size + size] == whole[size..][(i - 1) * size..(i - 1) * size + size];
    }
  }

  lemma FlattenCons(first: Frame, rest: seq<Frame>)
    ensures Flatten([first] + rest) == first + Flatten(rest)
  {
    assert ([first] + rest)[1..] == rest;
  }

  lemma JoinedTwice(a: Bytes, b: Bytes, c: Bytes)
    ensures a + (b + c) == a + b + c
  {
  }

  lemma {:induction false} FlattenConcat(a: seq<Frame>, b: seq<Frame>)
    ensures Flatten(a + b) == Flatten(a) + Flatten(b)
  {
    if a == [] {
      assert a + b == b;
    } else {
      FlattenConcat(a[1..], b);
      FlattenCons(a[0], a[1..] + b);
      assert [a[0]] + (a[1..] + b) == a + b;
      JoinedTwice(a[0], Flatten(a[1..]), Flatten(b));
    }
  }

  // --- the format, byte by byte ---

  lemma FourBytes(n: nat)
    requires n < 0x1_0000_0000
    ensures BigEndian(n, 4) == [n / 0x100_0000, n / 0x1_0000 % 0x100, n / 0x100 % 0x100, n % 0x100]
  {
    assert BigEndian(n / 0x100_0000, 1) == [n / 0x100_0000];
    assert BigEndian(n / 0x1_0000, 2) == [n / 0x100_0000, n / 0x1_0000 % 0x100];
    assert BigEndian(n / 0x100, 3) == [n / 0x100_0000, n / 0x1_0000 % 0x100, n / 0x100 % 0x100];
  }

  /** A packet: the letters KPT3, the number of its first frame with the highest byte first, the flags, the
      number of frames, the frames. */
  lemma PacketByteByByte(h: Header, payload: Bytes)
    requires h.baseSeq < 0x1_0000_0000
    ensures PacketBytes(h, payload) ==
      ['K' as nat, 'P' as nat, 'T' as nat, '3' as nat,
       h.baseSeq / 0x100_0000, h.baseSeq / 0x1_0000 % 0x100, h.baseSeq / 0x100 % 0x100, h.baseSeq % 0x100,
       h.flags, h.nFrames] + payload
  {
    FourBytes(h.baseSeq);
  }

  /** Bytes are a packet exactly if there are ten of them at least and the first four are these letters. */
  lemma PacketIffMagic(packet: Bytes)
    ensures DecodePacket(packet).Some? <==>
      && |packet| >= 10
      && packet[0] == 'K' as nat && packet[1] == 'P' as nat && packet[2] == 'T' as nat && packet[3] == '3' as nat
  {
    if |packet| >= 10 {
      assert packet[..4] == [packet[0], packet[1], packet[2], packet[3]];
    }
  }
}
