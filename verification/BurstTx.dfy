/** Accumulating encoded frames into packets. Several bursts may run interleaved; they share one
    sequence counter. */
module BurstTx {
  import opened Arithmetic
  import opened ByteStrings
  import opened PttPacket
  import opened Wrappers

  /** A packet on its way: the frames it carries and the header fields that depend on the burst. */
  datatype Packet = Packet(baseSeq: nat, flags: byte, frames: seq<Frame>)

  /** The bytes handed to the transport. */
  function Wire(p: Packet): Bytes
    requires |p.frames| < 0x100
  {
    PacketBytes(Header(p.baseSeq, p.flags, |p.frames|), Flatten(p.frames))
  }

  // --- what a burst of frames should be shipped as ---

  function PacketCount(n: nat, target: nat): nat
    requires target > 0
  {
    (n + target - 1) / target
  }

  function Min(a: nat, b: nat): nat {
    if a < b then a else b
  }

  /** The frames of the i-th packet: the i-th run of `target` frames, the last one shorter. */
  function ChunkAt(frames: seq<Frame>, target: nat, i: nat): seq<Frame>
    requires i * target <= |frames|
  {
    frames[i * target..Min(i * target + target, |frames|)]
  }

  /** START on the first packet; END only on a packet that is not full. */
  function FlagsAt(n: nat, target: nat, i: nat): byte {
    (if i == 0 then BURST_START else 0) + (if i * target + target > n then BURST_END else 0)
  }

  // --- one burst ---

  datatype Burst = Burst(target: nat, pending: seq<Frame>, sent: nat)

  ghost predicate Ready(b: Burst) {
    1 <= b.target < 0x100 && |b.pending| < b.target
  }

  function PacketOf(b: Burst, counter: nat, burstEnd: bool): Packet {
    Packet(counter % U32, (if b.sent == 0 then BURST_START else 0) + (if burstEnd then BURST_END else 0), b.pending)
  }

  function Reserve(counter: nat, n: nat): nat {
    (counter + n) % U64
  }

  datatype LinkState = LinkState(counter: nat, txPackets: nat, txBytes: nat, wire: seq<Bytes>)

  /** Sequence numbers taken, nothing sent. */
  function ReservedOn(s: LinkState, n: nat): LinkState {
    s.(counter := Reserve(s.counter, n))
  }

  function SentOn(s: LinkState, p: Packet): LinkState
    requires |p.frames| < 0x100
  {
    LinkState(Reserve(s.counter, |p.frames|), s.txPackets + 1, s.txBytes + |Wire(p)|, s.wire + [Wire(p)])
  }

  function TotalLength(wire: seq<Bytes>): nat {
    if wire == [] then 0 else TotalLength(wire[..|wire| - 1]) + |wire[|wire| - 1]|
  }

  /** The statistics tell how many packets and bytes found a link. */
  predicate Counted(s: LinkState) {
    s.txPackets == |s.wire| && s.txBytes == TotalLength(s.wire)
  }

  /** Whether a packet finds a link or not, its numbers are taken, and the statistics count exactly those
      that did. */
  lemma SendingIsCounted(s: LinkState, p: Packet)
    requires |p.frames| < 0x100
    ensures SentOn(s, p).wire == s.wire + [Wire(p)] && ReservedOn(s, |p.frames|).wire == s.wire
    ensures SentOn(s, p).counter == ReservedOn(s, |p.frames|).counter ==
        (s.counter + |p.frames|) % 0x1_0000_0000_0000_0000
    ensures Counted(s) ==> Counted(SentOn(s, p)) && Counted(ReservedOn(s, |p.frames|))
  {
    assert (s.wire + [Wire(p)])[..|s.wire|] == s.wire;
  }

  /** `Stats` and the transport, as far as sending touches them. */
  class Link {
    var counter: nat
    var txPackets: nat
    var txBytes: nat
    var wire: seq<Bytes>

    constructor (counter: nat)
      requires counter < U64
      ensures this.counter == counter && txPackets == 0 && txBytes == 0 && wire == []
    {
      this.counter, txPackets, txBytes, wire := counter, 0, 0, [];
    }

    ghost function State(): LinkState
      reads this
    {
      LinkState(counter, txPackets, txBytes, wire)
    }

    /** The atomic fetch-and-add on the shared counter, and the 32-bit base it yields. */
    method TakeNumbers(n: nat) returns (baseSeq: nat)
      modifies this`counter
      ensures counter == Reserve(old(counter), n) && counter < U64 && baseSeq == old(counter) % U32
    {
      baseSeq := counter % U32;
      counter := (counter + n) % U64;
    }

    /** Handing a packet to the transport, and counting it when it found a link. */
    method Send(packet: Bytes, reachable: bool)
      modifies this`txPackets, this`txBytes, this`wire
      ensures reachable ==>
        && txPackets == old(txPackets) + 1 && txBytes == old(txBytes) + |packet|
        && wire == old(wire) + [packet]
      ensures !reachable ==> txPackets == old(txPackets) && txBytes == old(txBytes) && wire == old(wire)
    {
      if reachable {
        wire := wire + [packet];
        txPackets := txPackets + 1;
        txBytes := txBytes + |packet|;
      }
    }

    ghost predicate Same(s: LinkState)
      reads this
    {
      State() == s
    }
  }

  class Sender {
    const bytesPerFrame: nat
    const samplesPerFrame: nat
    const target: nat
    var pendingFrames: nat
    var sentPackets: nat
    var encodedBuf: Bytes
    ghost var pending: seq<Frame>

    /** The pending count fits its byte, and the buffer is the pending frames end to end. */
    ghost predicate Valid()
      reads this
    {
      && 1 <= target < 0x100 && |pending| <= target && pendingFrames == |pending|
      && AllSized(pending, bytesPerFrame) && encodedBuf == Flatten(pending)
    }

    ghost function View(): Burst
      reads this
    {
      Burst(target, pending, sentPackets)
    }

    /** The configured packet size is clamped to a byte. */
    constructor (bytesPerFrame: nat, samplesPerFrame: nat, packetFrames: nat)
      ensures Valid() && View() ==
          Burst(if packetFrames < 1 then 1 else if packetFrames > 255 then 255 else packetFrames, [], 0)
      ensures this.bytesPerFrame == bytesPerFrame && this.samplesPerFrame == samplesPerFrame
    {
      this.bytesPerFrame, this.samplesPerFrame := bytesPerFrame, samplesPerFrame;
      target := if packetFrames < 1 then 1 else if packetFrames > 255 then 255 else packetFrames;
      pendingFrames, sentPackets, encodedBuf, pending := 0, 0, [], [];
    }

    /** `flush`. `reachable` says whether the transport found an active link. */
    method Flush(link: Link, burstEnd: bool, reachable: bool) returns (ok: bool)
      requires Valid() && link.counter < U64
      modifies this`pendingFrames, this`sentPackets, this`encodedBuf, this`pending, link
      ensures Valid() && pending == [] && link.counter < U64
      ensures var packet := PacketOf(old(View()), old(link.counter), burstEnd);
        if old(pending) == [] then ok && sentPackets == old(sentPackets) && link.Same(old(link.State()))
        else
          && ok == reachable && sentPackets == old(sentPackets) + (if reachable then 1 else 0)
          && link.Same(if reachable then SentOn(old(link.State()), packet)
                        else ReservedOn(old(link.State()), |packet.frames|))
    {
      if pendingFrames == 0 {
        return true;
      }
      var nFrames := pendingFrames;
      var baseSeq := link.TakeNumbers(nFrames);
      var flags: byte := 0;
      if sentPackets == 0 {
        flags := flags + BURST_START;
      }
      if burstEnd {
        flags := flags + BURST_END;
      }
      var packetBuf := EncodePacket(Header(baseSeq, flags, nFrames), encodedBuf);
      pendingFrames, encodedBuf, pending := 0, [], [];
      link.Send(packetBuf, reachable);
      if !reachable {
        return false;
      }
      sentPackets := sentPackets + 1;
      ok := true;
    }

    /** `push_pcm`. `frame` is what Codec2 makes of the samples in its present state. */
    method PushPcm(link: Link, samples: nat, frame: Frame, reachable: bool) returns (ok: bool)
      requires Valid() && Ready(View()) && |frame| == bytesPerFrame && link.counter < U64
      modifies this`pendingFrames, this`sentPackets, this`encodedBuf, this`pending, link
      ensures Valid() && Ready(View()) && link.counter < U64
      ensures var b := old(View()).(pending := old(pending) + [frame]);
        if samples != samplesPerFrame then !ok && View() == old(View()) && link.Same(old(link.State()))
        else if |b.pending| < target then ok && View() == b && link.Same(old(link.State()))
        else
          && ok == reachable && View() == Burst(target, [], b.sent + if reachable then 1 else 0)
          && var packet := PacketOf(b, old(link.counter), false);
            link.Same(if reachable then SentOn(old(link.State()), packet) else ReservedOn(old(link.State()), target))
    {
      if samples != samplesPerFrame {
        return false;
      }
      FlattenConcat(pending, [frame]);
      assert Flatten([frame]) == frame;
      encodedBuf := encodedBuf + frame;
      pendingFrames := pendingFrames + 1;
      pending := pending + [frame];
      ok := true;
      if pendingFrames >= target {
        ok := Flush(link, false, reachable);
      }
    }

    /** The frames of a burst, one after another, up to the first send that finds no link. */
    method PushAll(link: Link, frames: seq<Frame>, downAt: Option<nat>) returns (ok: bool, ghost k: nat)
      requires Valid() && View() == Burst(target, [], 0) && AllSized(frames, bytesPerFrame) && link.counter < U64
      modifies this`pendingFrames, this`sentPackets, this`encodedBuf, this`pending, link
      ensures Valid() && link.counter < U64
      ensures downAt.Some? ==> k <= downAt.value
      ensures ok ==> Progress(link.State(), View(), old(link.wire), frames, old(link.counter), k, |frames|)
      ensures !ok ==> downAt == Some(k) && k * target + target <= |frames|
      ensures !ok ==> Shipped(link.wire, old(link.wire), frames, target, old(link.counter), k)
      ensures Counted(old(link.State())) ==> Counted(link.State())
    {
      ghost var wire0, counter0 := link.wire, link.counter;
      k := 0;
      for m := 0 to |frames|
        invariant Valid() && link.counter < U64
        invariant Progress(link.State(), View(), wire0, frames, counter0, k, m)
        invariant downAt.Some? ==> k <= downAt.value
        invariant Counted(old(link.State())) ==> Counted(link.State())
      {
        ghost var s, b := link.State(), View();
        SendingIsCounted(s, PacketOf(b.(pending := b.pending + [frames[m]]), s.counter, false));
        ProgressSteps(s, b, wire0, frames, counter0, k, m);
        ok := PushPcm(link, samplesPerFrame, frames[m], downAt != Some(sentPackets));
        if !ok {
          return;
        }
        if |b.pending| + 1 == target {
          k := k + 1;
        }
      }
      ok := true;
    }

    /** The transmit loop over one burst, its sends all finding a link except, if given, the one
        numbered `downAt`: every frame is pushed, then what is left is flushed as the end. */
    method Transmit(link: Link, frames: seq<Frame>, downAt: Option<nat>) returns (ok: bool)
      requires Valid() && View() == Burst(target, [], 0) && AllSized(frames, bytesPerFrame) && link.counter < U64
      modifies this`pendingFrames, this`sentPackets, this`encodedBuf, this`pending, link
      ensures var n := PacketCount(|frames|, target); var shipped := if downAt.Some? then Min(downAt.value, n) else n;
        Shipped(link.wire, old(link.wire), frames, target, old(link.counter), shipped)
      ensures !ok <==> downAt.Some? && downAt.value * target + target <= |frames|
      ensures Counted(old(link.State())) ==> Counted(link.State())
    {
      ghost var wire0, counter0 := link.wire, link.counter;
      ghost var k;
      ok, k := PushAll(link, frames, downAt);
      if !ok {
        FullBelowCount(|frames|, target, k);
        return;
      }
      if downAt.Some? {
        MulMono(k, downAt.value, target);
      }
      LastShipped(link.State(), View(), wire0, frames, counter0, k);
      SendingIsCounted(link.State(), PacketOf(View(), link.counter, true));
      var _ := Flush(link, true, downAt != Some(sentPackets));
    }
  }

  /** The i-th packet of a burst whose sequence numbers start at `counter`. */
  function BurstPacket(frames: seq<Frame>, target: nat, counter: nat, i: nat): Packet
    requires i * target <= |frames|
  {
    Packet((counter + i * target) % U32, FlagsAt(|frames|, target, i), ChunkAt(frames, target, i))
  }

  /** The wire holds, after what it held before, the first k packets of the burst. */
  ghost predicate Shipped(wire: seq<Bytes>, before: seq<Bytes>, frames: seq<Frame>, target: nat, counter: nat, k: nat) {
    && target < 0x100 && |wire| == |before| + k && wire[..|before|] == before
    && forall i: nat :: i < k ==>
         && i * target <= |frames| && |ChunkAt(frames, target, i)| <= target
         && wire[|before| + i] == Wire(BurstPacket(frames, target, counter, i))
  }

  /** Where a burst stands after m frames: k full packets shipped, the rest pending. */
  ghost predicate Progress(s: LinkState, b: Burst, before: seq<Bytes>, frames: seq<Frame>, counter: nat, k: nat,
      m: nat) {
    && k * b.target <= m <= |frames| && m < k * b.target + b.target
    && b.pending == frames[k * b.target..m] && b.sent == k
    && s.counter == Reserve(counter, k * b.target)
    && Shipped(s.wire, before, frames, b.target, counter, k)
  }

  /** One more frame stays pending, or fills the next packet. */
  lemma ProgressSteps(s: LinkState, b: Burst, before: seq<Bytes>, frames: seq<Frame>, counter: nat, k: nat, m: nat)
    requires Progress(s, b, before, frames, counter, k, m) && m < |frames|
    ensures |b.pending| < b.target
    ensures var b' := b.(pending := b.pending + [frames[m]]);
      if |b'.pending| < b.target then Progress(s, b', before, frames, counter, k, m + 1)
      else
        && k * b.target + b.target <= |frames| && |b'.pending| < 0x100
        && Progress(SentOn(s, PacketOf(b', s.counter, false)), Burst(b.target, [], k + 1), before, frames, counter,
            k + 1, m + 1)
  {
    var b' := b.(pending := b.pending + [frames[m]]);
    assert b'.pending == frames[k * b.target..m + 1];
    if |b'.pending| == b.target {
      NextShipped(s.wire, before, frames, counter, k, b');
    }
  }

  lemma SnocShipped(wire: seq<Bytes>, before: seq<Bytes>, frames: seq<Frame>, target: nat, counter: nat, k: nat)
    requires Shipped(wire, before, frames, target, counter, k) && k * target <= |frames|
    ensures |ChunkAt(frames, target, k)| <= target
    ensures Shipped(wire + [Wire(BurstPacket(frames, target, counter, k))], before, frames, target, counter, k + 1)
  {
    var longer := wire + [Wire(BurstPacket(frames, target, counter, k))];
    assert longer[..|before|] == wire[..|before|];
  }

  lemma ReservedBase(counter: nat, n: nat)
    ensures Reserve(counter, n) % U32 == (counter + n) % U32
  {
    ModOfMod(counter + n, U32, U32);
  }

  lemma ReserveTwice(counter: nat, a: nat, b: nat)
    ensures Reserve(Reserve(counter, a), b) == Reserve(counter, a + b)
  {
    ModOfSum(counter + a, b, U64);
  }

  lemma NextRun(k: nat, target: nat)
    ensures k * target + target == (k + 1) * target
  {
  }

  /** A full pending buffer is the next packet of the burst. */
  lemma FullPacket(frames: seq<Frame>, target: nat, counter: nat, k: nat, b: Burst)
    requires k * target + target <= |frames| && b == Burst(target, frames[k * target..k * target + target], k)
    ensures PacketOf(b, Reserve(counter, k * target), false) == BurstPacket(frames, target, counter, k)
  {
    ReservedBase(counter, k * target);
  }

  /** What is left in the buffer at the end is the burst's short last packet. */
  lemma PartPacket(frames: seq<Frame>, target: nat, counter: nat, k: nat, b: Burst)
    requires k * target <= |frames| < k * target + target && b == Burst(target, frames[k * target..], k)
    ensures PacketOf(b, Reserve(counter, k * target), true) == BurstPacket(frames, target, counter, k)
  {
    ReservedBase(counter, k * target);
    assert frames[k * target..] == frames[k * target..|frames|];
  }

  /** The number of packets, from the number of full ones. */
  lemma CountFrom(n: nat, target: nat, k: nat)
    requires target > 0 && k * target <= n < k * target + target
    ensures PacketCount(n, target) == if n == k * target then k else k + 1
  {
    NextRun(k, target);
    DivUnique(n + target - 1, target, if n == k * target then k else k + 1);
  }

  lemma FullBelowCount(n: nat, target: nat, k: nat)
    requires target > 0 && k * target + target <= n
    ensures k < PacketCount(n, target)
  {
    NextRun(k, target);
    var c := PacketCount(n, target);
    assert n + target - 1 == c * target + (n + target - 1) % target;
    MulStep(c, k + 1, target);
  }

  /** Shipping a buffer that has just filled up. */
  lemma NextShipped(wire: seq<Bytes>, before: seq<Bytes>, frames: seq<Frame>, counter: nat, k: nat, b: Burst)
    requires 0 < b.target && Shipped(wire, before, frames, b.target, counter, k)
    requires k * b.target + b.target <= |frames|
        && b == Burst(b.target, frames[k * b.target..k * b.target + b.target], k)
    ensures k < PacketCount(|frames|, b.target) && (k + 1) * b.target == k * b.target + b.target
    ensures Reserve(Reserve(counter, k * b.target), b.target) == Reserve(counter, (k + 1) * b.target)
    ensures Shipped(wire + [Wire(PacketOf(b, Reserve(counter, k * b.target), false))], before, frames, b.target,
        counter, k + 1)
  {
    FullPacket(frames, b.target, counter, k, b);
    FullBelowCount(|frames|, b.target, k);
    SnocShipped(wire, before, frames, b.target, counter, k);
    NextRun(k, b.target);
    ReserveTwice(counter, k * b.target, b.target);
  }

  /** Shipping what is left at the end. */
  lemma LastShipped(s: LinkState, b: Burst, before: seq<Bytes>, frames: seq<Frame>, counter: nat, k: nat)
    requires 0 < b.target && Progress(s, b, before, frames, counter, k, |frames|)
    ensures k * b.target <= |frames| < k * b.target + b.target
    ensures PacketCount(|frames|, b.target) == if b.pending == [] then k else k + 1
    ensures |b.pending| < 0x100
    ensures b.pending != [] ==>
      Shipped(SentOn(s, PacketOf(b, s.counter, true)).wire, before, frames, b.target, counter, k + 1)
  {
    assert frames[k * b.target..|frames|] == frames[k * b.target..];
    CountFrom(|frames|, b.target, k);
    PartPacket(frames, b.target, counter, k, b);
    SnocShipped(s.wire, before, frames, b.target, counter, k);
  }
}
