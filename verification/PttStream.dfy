/** Whole streams: what a receiver gets back from a burst's packets, and how interleaved bursts share
    the sequence counter. */
module PttStream {
  import opened Arithmetic
  import opened BurstTx
  import opened ByteStrings
  import opened PttPacket
  import opened Wrappers

  // --- interleaved bursts ---

  /** A burst with its history. Frames of a packet that found no link are lost and end the burst. */
  datatype Tx = Tx(burst: Burst, pushed: seq<Frame>, shipped: seq<Packet>, lost: seq<Frame>, ended: bool)

  /** All bursts of a process. `reserved` lists, in order, the base numbers and lengths taken from
      the counter. */
  datatype System = System(counter: nat, txs: seq<Tx>, reserved: seq<(nat, nat)>)

  datatype Event =
    | Start(target: nat)
    | Push(i: nat, frame: Frame)
    | Ship(i: nat, burstEnd: bool, reachable: bool)

  predicate Running(s: System, i: nat) {
    i < |s.txs| && !s.txs[i].ended && s.txs[i].lost == []
  }

  /** What a burst's own program allows next: it flushes as soon as it is full, and ends otherwise. */
  predicate Enabled(s: System, e: Event) {
    match e
    case Start(target) => 1 <= target < 0x100
    case Push(i, _) => Running(s, i) && |s.txs[i].burst.pending| < s.txs[i].burst.target
    case Ship(i, burstEnd, _) => Running(s, i) && (burstEnd <==> |s.txs[i].burst.pending| < s.txs[i].burst.target)
  }

  function ShipTx(t: Tx, counter: nat, burstEnd: bool, reachable: bool): Tx {
    var done := t.(burst := t.burst.(pending := []), ended := burstEnd);
    if t.burst.pending == [] then done
    else if reachable then
      done.(burst := done.burst.(sent := t.burst.sent + 1),
            shipped := t.shipped + [PacketOf(t.burst, counter, burstEnd)])
    else done.(lost := t.burst.pending)
  }

  function Step(s: System, e: Event): System
    requires Enabled(s, e)
  {
    match e
    case Start(target) => s.(txs := s.txs + [Tx(Burst(target, [], 0), [], [], [], false)])
    case Push(i, frame) =>
      var t := s.txs[i];
      s.(txs := s.txs[i := t.(burst := t.burst.(pending := t.burst.pending + [frame]), pushed := t.pushed + [frame])])
    case Ship(i, burstEnd, reachable) =>
      var t := s.txs[i];
      var s' := s.(txs := s.txs[i := ShipTx(t, s.counter, burstEnd, reachable)]);
      if t.burst.pending == [] then s'
      else s'.(counter := Reserve(s.counter, |t.burst.pending|),
                  reserved := s.reserved + [(s.counter % U32, |t.burst.pending|)])
  }

  /** The states of a run, from any counter value and no bursts. */
  ghost predicate IsRun(states: seq<System>, events: seq<Event>, counter: nat) {
    && |states| == |events| + 1 && states[0] == System(counter, [], [])
    && forall k :: 0 <= k < |events| ==> Enabled(states[k], events[k]) && states[k + 1] == Step(states[k], events[k])
  }

  /** The packets of one burst, so far: the i-th carries the i-th run of frames and its flags. What
      is not shipped is pending or lost. */
  ghost predicate TxInvariant(t: Tx) {
    var n, target := |t.pushed|, t.burst.target;
    && 1 <= target < 0x100 && t.burst.sent == |t.shipped| && |t.burst.pending| <= target
    && (forall i: nat :: i < |t.shipped| ==>
          i * target <= n && t.shipped[i].frames == ChunkAt(t.pushed, target, i)
              && t.shipped[i].flags == FlagsAt(n, target, i))
    && (if !t.ended || t.lost != [] then
          |t.shipped| * target <= n && t.pushed[|t.shipped| * target..] == t.burst.pending + t.lost
        else |t.shipped| == PacketCount(n, target) && t.burst.pending == [])
    && (t.lost != [] ==> t.burst.pending == [])
  }

  ghost predicate Invariant(s: System) {
    forall i :: 0 <= i < |s.txs| ==> TxInvariant(s.txs[i])
  }

  /** A full run is the same run of a longer list. */
  lemma FullRunStays(frames: seq<Frame>, frame: Frame, target: nat, i: nat)
    requires i * target + target <= |frames|
    ensures ChunkAt(frames + [frame], target, i) == ChunkAt(frames, target, i)
    ensures FlagsAt(|frames| + 1, target, i) == FlagsAt(|frames|, target, i)
  {
    var lo := i * target;
    assert (frames + [frame])[lo..lo + target] == frames[lo..lo + target];
  }

  lemma PushKeepsTx(t: Tx, frame: Frame)
    requires TxInvariant(t) && !t.ended && t.lost == [] && |t.burst.pending| < t.burst.target
    ensures TxInvariant(t.(burst := t.burst.(pending := t.burst.pending + [frame]), pushed := t.pushed + [frame]))
  {
    var t' := t.(burst := t.burst.(pending := t.burst.pending + [frame]), pushed := t.pushed + [frame]);
    var target, k := t.burst.target, |t.shipped|;
    forall i: nat | i < k
      ensures i * target <= |t'.pushed| && t'.shipped[i].frames == ChunkAt(t'.pushed, target, i)
        && t'.shipped[i].flags == FlagsAt(|t'.pushed|, target, i)
    {
      MulStep(i, k, target);
      FullRunStays(t.pushed, frame, target, i);
    }
    assert t'.pushed[k * target..] == t.pushed[k * target..] + [frame];
  }

  lemma ShipKeepsTx(t: Tx, counter: nat, burstEnd: bool, reachable: bool)
    requires TxInvariant(t) && !t.ended && t.lost == []
    requires burstEnd <==> |t.burst.pending| < t.burst.target
    ensures TxInvariant(ShipTx(t, counter, burstEnd, reachable))
  {
    var t' := ShipTx(t, counter, burstEnd, reachable);
    var n, target, k := |t.pushed|, t.burst.target, |t.shipped|;
    assert |t.pushed[k * target..]| == n - k * target;
    if t.burst.pending == [] {
      CountFrom(n, target, k);
    } else if reachable {
      if burstEnd {
        CountFrom(n, target, k);
      }
      NextRun(k, target);
      assert PacketOf(t.burst, counter, burstEnd).frames == ChunkAt(t.pushed, target, k);
      assert t'.pushed[n..] == [];
    } else {
      assert t'.burst.pending + t'.lost == t.burst.pending;
    }
  }

  lemma StepKeepsInvariant(s: System, e: Event)
    requires Invariant(s) && Enabled(s, e)
    ensures Invariant(Step(s, e))
  {
    match e
    case Start(target) =>
      assert PacketCount(0, target) == 0 by { CountFrom(0, target, 0); }
    case Push(i, frame) => PushKeepsTx(s.txs[i], frame);
    case Ship(i, burstEnd, reachable) => ShipKeepsTx(s.txs[i], s.counter, burstEnd, reachable);
  }

  lemma {:induction false} RunKeepsInvariant(states: seq<System>, events: seq<Event>, counter: nat, k: nat)
    requires IsRun(states, events, counter) && k < |states|
    ensures Invariant(states[k])
  {
    if k > 0 {
      RunKeepsInvariant(states, events, counter, k - 1);
      StepKeepsInvariant(states[k - 1], events[k - 1]);
    }
  }

  /** What each event does in an interleaving: a started burst is new and empty; a pushed frame is pending; a
      shipment empties the buffer into a packet with the next numbers, or loses it when there is no link,
      and ends the burst if it is its last. No other burst is touched. */
  lemma EventsMoveBursts(states: seq<System>, events: seq<Event>, counter: nat, k: nat)
    requires IsRun(states, events, counter) && k < |events|
    ensures var s, s' := states[k], states[k + 1];
      match events[k]
      case Start(target) =>
        1 <= target <= 255 && s'.txs == s.txs + [Tx(Burst(target, [], 0), [], [], [], false)] && s'.counter == s.counter
      case Push(i, frame) =>
        && i < |s.txs| && |s.txs[i].burst.pending| < s.txs[i].burst.target && s'.counter == s.counter
        && var t := s.txs[i];
          s'.txs == s.txs[i := Tx(Burst(t.burst.target, t.burst.pending + [frame], t.burst.sent),
                                  t.pushed + [frame], t.shipped, t.lost, t.ended)]
      case Ship(i, last, reachable) =>
        && i < |s.txs|
        && var t := s.txs[i]; var pending, target := t.burst.pending, t.burst.target;
          && (last <==> |pending| < target)
          && (pending == [] || s'.counter == (s.counter + |pending|) % 0x1_0000_0000_0000_0000)
          && s'.txs == s.txs[i :=
               if pending == [] then Tx(Burst(target, [], t.burst.sent), t.pushed, t.shipped, t.lost, last)
               else if !reachable then Tx(Burst(target, [], t.burst.sent), t.pushed, t.shipped, pending, last)
               else
                 var flags := (if t.burst.sent == 0 then 1 else 0) + (if last then 2 else 0);
                 Tx(Burst(target, [], t.burst.sent + 1), t.pushed,
                    t.shipped + [Packet(s.counter % 0x1_0000_0000, flags, pending)], t.lost, last)]
  {
  }

  /** A burst may start with any packet size from 1 to 255; a running one may take any frame, or end, unless its
      buffer is full, and then ships it. */
  lemma AlwaysOneWayOn(s: System, i: nat, frame: Frame, target: nat, reachable: bool)
    ensures 1 <= target <= 255 ==> Enabled(s, Start(target))
    ensures i < |s.txs| && !s.txs[i].ended && s.txs[i].lost == [] ==>
      var full := |s.txs[i].burst.pending| >= s.txs[i].burst.target;
      && (Enabled(s, Push(i, frame)) <==> !full)
      && Enabled(s, Ship(i, !full, reachable)) && !Enabled(s, Ship(i, full, reachable))
  {
  }

  /** In every interleaving, a burst that ended with no packet lost has shipped ceil(N/T) packets: all
      full but possibly the last, START on the first only, and END on the last exactly when N is not
      a multiple of T. */
  lemma EndedBurstShape(states: seq<System>, events: seq<Event>, counter: nat, k: nat, i: nat)
    requires IsRun(states, events, counter) && k < |states| && i < |states[k].txs|
    requires states[k].txs[i].ended && states[k].txs[i].lost == []
    ensures var t := states[k].txs[i]; var n, target := |t.pushed|, t.burst.target; var c := |t.shipped|;
      && target > 0 && c == PacketCount(n, target)
      && (forall j: nat :: j < c ==> j * target <= n && t.shipped[j].frames == ChunkAt(t.pushed, target, j))
      && (forall j: nat :: j < c ==>
          0 < |t.shipped[j].frames| <= target && (|t.shipped[j].frames| == target || j == c - 1))
      && (forall j: nat :: j < c ==> (t.shipped[j].flags % 2 == 1 <==> j == 0))
      && (forall j: nat :: j < c ==> t.shipped[j].flags < 4)
      && (forall j: nat :: j < c ==> (t.shipped[j].flags / 2 % 2 == 1 <==> j == c - 1 && n % target != 0))
  {
    RunKeepsInvariant(states, events, counter, k);
    var t := states[k].txs[i];
    var n, target := |t.pushed|, t.burst.target;
    forall j: nat | j < |t.shipped|
      ensures 0 < |t.shipped[j].frames| <= target && (|t.shipped[j].frames| == target || j == |t.shipped| - 1)
      ensures t.shipped[j].flags % 2 == 1 <==> j == 0
      ensures t.shipped[j].flags / 2 % 2 == 1 <==> j == |t.shipped| - 1 && n % target != 0
    {
      ChunkLengths(n, target, j);
    }
  }

  /** The j-th of ceil(n/target) runs is full, except the last when target does not divide n. */
  lemma ChunkLengths(n: nat, target: nat, j: nat)
    requires target > 0 && j < PacketCount(n, target)
    ensures j * target < n
    ensures j * target + target > n <==> j == PacketCount(n, target) - 1 && n % target != 0
  {
    var c := PacketCount(n, target);
    assert n + target - 1 == c * target + (n + target - 1) % target;
    MulStep(j, c, target);
    assert n == (n / target) * target + n % target;
    CountFrom(n, target, n / target);
    MulStep(j + 1, c, target);
    NextRun(j, target);
    if j == c - 1 && n % target != 0 {
      assert c == n / target + 1;
    }
  }

  // --- the shared counter ---

  /** The 32-bit sequence numbers of n frames from a base. */
  function Numbers(base: nat, n: nat): seq<nat> {
    seq(n, k requires 0 <= k < n => (base + k) % U32)
  }

  function AllNumbers(reserved: seq<(nat, nat)>): seq<nat> {
    if reserved == [] then []
    else AllNumbers(reserved[..|reserved| - 1]) + Numbers(reserved[|reserved| - 1].0, reserved[|reserved| - 1].1)
  }

  lemma NumbersAppend(counter: nat, a: nat, b: nat)
    ensures Numbers(counter, a) + Numbers((counter + a) % U32, b) == Numbers(counter, a + b)
  {
    var whole, tail := Numbers(counter, a + b), Numbers((counter + a) % U32, b);
    forall k: nat | k < b
      ensures tail[k] == whole[a + k]
    {
      ModOfSum(counter + a, k, U32);
    }
  }

  /** Which of the ranges taken from the counter a shipped packet carries: the one its step took. */
  ghost function Slot(states: seq<System>, events: seq<Event>, counter: nat, k: nat, i: nat, j: nat): nat
    requires IsRun(states, events, counter) && k < |states| && i < |states[k].txs| && j < |states[k].txs[i].shipped|
  {
    var s := states[k - 1];
    if i < |s.txs| && j < |s.txs[i].shipped| then Slot(states, events, counter, k - 1, i, j) else |s.reserved|
  }

  /** Every packet shipped carries its own range taken from the counter. */
  lemma {:induction false} ShippedRangesAreReserved(states: seq<System>, events: seq<Event>, counter: nat, k: nat,
      i: nat, j: nat)
    requires IsRun(states, events, counter) && k < |states| && i < |states[k].txs| && j < |states[k].txs[i].shipped|
    ensures var p := states[k].txs[i].shipped[j]; var slot := Slot(states, events, counter, k, i, j);
      slot < |states[k].reserved| && states[k].reserved[slot] == (p.baseSeq, |p.frames|)
  {
    var s, e := states[k - 1], events[k - 1];
    if i < |s.txs| && j < |s.txs[i].shipped| {
      ShippedRangesAreReserved(states, events, counter, k - 1, i, j);
    }
  }

  /** No two packets, of the same burst or of different ones, carry the same range. */
  lemma {:induction false} SlotsAreDistinct(states: seq<System>, events: seq<Event>, counter: nat, k: nat, i: nat,
      j: nat, i': nat, j': nat)
    requires IsRun(states, events, counter) && k < |states| && (i, j) != (i', j')
    requires i < |states[k].txs| && j < |states[k].txs[i].shipped|
    requires i' < |states[k].txs| && j' < |states[k].txs[i'].shipped|
    ensures Slot(states, events, counter, k, i, j) != Slot(states, events, counter, k, i', j')
  {
    var s := states[k - 1];
    var early, early' := i < |s.txs| && j < |s.txs[i].shipped|, i' < |s.txs| && j' < |s.txs[i'].shipped|;
    if early && early' {
      SlotsAreDistinct(states, events, counter, k - 1, i, j, i', j');
    } else if early {
      ShippedRangesAreReserved(states, events, counter, k - 1, i, j);
    } else if early' {
      ShippedRangesAreReserved(states, events, counter, k - 1, i', j');
    }
  }

  /** How many frames were numbered before the r-th range. */
  function Offset(reserved: seq<(nat, nat)>, r: nat): nat
    requires r <= |reserved|
  {
    |AllNumbers(reserved[..r])|
  }

  lemma {:induction false} BaseOfSlot(states: seq<System>, events: seq<Event>, counter: nat, k: nat, r: nat)
    requires counter < U64 && IsRun(states, events, counter) && k < |states| && r < |states[k].reserved|
    ensures states[k].reserved[r].0 == (counter + Offset(states[k].reserved, r)) % U32
  {
    var s := states[k - 1];
    if r < |s.reserved| {
      BaseOfSlot(states, events, counter, k - 1, r);
      assert states[k].reserved[..r] == s.reserved[..r];
    } else {
      RangesTileTheCounter(states, events, counter, k - 1);
      assert states[k].reserved[..r] == s.reserved;
      ReservedBase(counter, Offset(states[k].reserved, r));
    }
  }

  lemma {:induction false} OffsetsGrow(reserved: seq<(nat, nat)>, r: nat, r': nat)
    requires r < r' <= |reserved|
    ensures Offset(reserved, r) + reserved[r].1 <= Offset(reserved, r')
  {
    assert reserved[..r'][..r' - 1] == reserved[..r' - 1];
    if r < r' - 1 {
      OffsetsGrow(reserved, r, r' - 1);
    }
  }

  /** Where a frame of a shipped packet stands in the order in which frames were numbered. */
  ghost function Position(states: seq<System>, events: seq<Event>, counter: nat, k: nat, i: nat, j: nat, x: nat): nat
    requires IsRun(states, events, counter) && k < |states| && i < |states[k].txs| && j < |states[k].txs[i].shipped|
  {
    ShippedRangesAreReserved(states, events, counter, k, i, j);
    Offset(states[k].reserved, Slot(states, events, counter, k, i, j)) + x
  }

  /** Frame x of a shipped packet has the number its position gives it. */
  lemma NumberAtPosition(states: seq<System>, events: seq<Event>, counter: nat, k: nat, i: nat, j: nat, x: nat)
    requires counter < U64 && IsRun(states, events, counter) && k < |states|
    requires i < |states[k].txs| && j < |states[k].txs[i].shipped|
    ensures (states[k].txs[i].shipped[j].baseSeq + x) % U32 ==
        (counter + Position(states, events, counter, k, i, j, x)) % U32
  {
    var slot := Slot(states, events, counter, k, i, j);
    ShippedRangesAreReserved(states, events, counter, k, i, j);
    BaseOfSlot(states, events, counter, k, slot);
    ModOfSum(counter + Offset(states[k].reserved, slot), x, U32);
  }

  lemma PositionsAreDistinct(states: seq<System>, events: seq<Event>, counter: nat, k: nat, i: nat, j: nat, x: nat,
      i': nat, j': nat, y: nat)
    requires IsRun(states, events, counter) && k < |states| && (i, j) != (i', j')
    requires i < |states[k].txs| && j < |states[k].txs[i].shipped| && x < |states[k].txs[i].shipped[j].frames|
    requires i' < |states[k].txs| && j' < |states[k].txs[i'].shipped| && y < |states[k].txs[i'].shipped[j'].frames|
    ensures Position(states, events, counter, k, i, j, x) != Position(states, events, counter, k, i', j', y)
  {
    var slot, slot' := Slot(states, events, counter, k, i, j), Slot(states, events, counter, k, i', j');
    ShippedRangesAreReserved(states, events, counter, k, i, j);
    ShippedRangesAreReserved(states, events, counter, k, i', j');
    SlotsAreDistinct(states, events, counter, k, i, j, i', j');
    if slot < slot' {
      OffsetsGrow(states[k].reserved, slot, slot');
    } else {
      OffsetsGrow(states[k].reserved, slot', slot);
    }
  }

  /** Frames of two packets, over any interleaving of bursts, never share a number unless exactly a
      multiple of 2^32 frames were numbered from one to the other. */
  lemma FramesShareNumberIff(states: seq<System>, events: seq<Event>, counter: nat, k: nat, i: nat, j: nat, x: nat,
      i': nat, j': nat, y: nat)
    requires counter < U64 && IsRun(states, events, counter) && k < |states| && (i, j) != (i', j')
    requires i < |states[k].txs| && j < |states[k].txs[i].shipped| && x < |states[k].txs[i].shipped[j].frames|
    requires i' < |states[k].txs| && j' < |states[k].txs[i'].shipped| && y < |states[k].txs[i'].shipped[j'].frames|
    ensures var p, q := states[k].txs[i].shipped[j], states[k].txs[i'].shipped[j'];
      var u, v := Position(states, events, counter, k, i, j, x), Position(states, events, counter, k, i', j', y);
      && u != v
      && ((p.baseSeq + x) % U32 == (q.baseSeq + y) % U32 <==> (u - v) % U32 == 0)
  {
    PositionsAreDistinct(states, events, counter, k, i, j, x, i', j', y);
    NumberAtPosition(states, events, counter, k, i, j, x);
    NumberAtPosition(states, events, counter, k, i', j', y);
    SameRemainder(counter + Position(states, events, counter, k, i, j, x),
        counter + Position(states, events, counter, k, i', j', y));
  }

  lemma SameRemainder(a: int, b: int)
    ensures a % U32 == b % U32 <==> (a - b) % U32 == 0
  {
  }

  /** In every interleaving of bursts, the ranges taken from the counter, in the order taken, number
      all frames consecutively modulo 2^32: no gap, no overlap, even as the counter itself wraps. */
  lemma {:induction false} RangesTileTheCounter(states: seq<System>, events: seq<Event>, counter: nat, k: nat)
    requires counter < U64 && IsRun(states, events, counter) && k < |states|
    ensures var numbers := AllNumbers(states[k].reserved);
      numbers == Numbers(counter, |numbers|) && states[k].counter == Reserve(counter, |numbers|)
  {
    if k > 0 {
      RangesTileTheCounter(states, events, counter, k - 1);
      var s, s' := states[k - 1], states[k];
      var n := |AllNumbers(s.reserved)|;
      if s'.reserved != s.reserved {
        var b := |s.txs[events[k - 1].i].burst.pending|;
        assert s'.reserved[..|s'.reserved| - 1] == s.reserved;
        ReservedBase(counter, n);
        NumbersAppend(counter, n, b);
        ReserveTwice(counter, n, b);
      }
    }
  }

  // --- lossless reception ---

  /** The frames a receiver cuts out of one packet. */
  function Split(body: Bytes, n: nat, size: nat): seq<Frame>
    requires |body| == n * size
  {
    seq(n, i requires 0 <= i < n => SliceOf(body, i, n, size))
  }

  function SliceOf(body: Bytes, i: nat, n: nat, size: nat): Frame
    requires i < n && |body| == n * size
  {
    SliceInRange(i, n, size);
    Chunk(body, i, size)
  }

  /** Decoding a packet's bytes: a header counting its frames, and a payload that splits into them. */
  lemma PacketDecodes(p: Packet, size: nat)
    requires p.baseSeq < U32 && |p.frames| < 0x100 && AllSized(p.frames, size)
    ensures DecodePacket(Wire(p)) == Some((Header(p.baseSeq, p.flags, |p.frames|), Flatten(p.frames)))
    ensures |Flatten(p.frames)| == |p.frames| * size && Split(Flatten(p.frames), |p.frames|, size) == p.frames
  {
    PacketRoundTrip(Header(p.baseSeq, p.flags, |p.frames|), Flatten(p.frames));
    FlattenLength(p.frames, size);
    forall i: nat | i < |p.frames|
      ensures SliceOf(Flatten(p.frames), i, |p.frames|, size) == p.frames[i]
    {
      ChunkOfFlatten(p.frames, size, i);
    }
  }

  function Received(wire: seq<Bytes>, size: nat): Option<seq<Frame>> {
    if wire == [] then Some([])
    else
      var n := |wire| - 1;
      match (Received(wire[..n], size), DecodePacket(wire[n]))
      case (Some(frames), Some((h, body))) =>
        if |body| == h.nFrames * size then Some(frames + Split(body, h.nFrames, size)) else None
      case _ => None
  }

  lemma ReceivedSnoc(front: seq<Bytes>, p: Packet, size: nat, frames: seq<Frame>)
    requires p.baseSeq < U32 && |p.frames| < 0x100 && AllSized(p.frames, size)
    requires Received(front, size) == Some(frames)
    ensures Received(front + [Wire(p)], size) == Some(frames + p.frames)
  {
    PacketDecodes(p, size);
    assert (front + [Wire(p)])[..|front|] == front;
  }

  /** Packets that carry the first |packets| runs of a list of frames. */
  ghost predicate Carries(packets: seq<Packet>, frames: seq<Frame>, target: nat) {
    && 0 < target < 0x100
    && forall i: nat :: i < |packets| ==>
         packets[i].baseSeq < U32 && i * target <= |frames| && packets[i].frames == ChunkAt(frames, target, i)
  }

  function Wires(packets: seq<Packet>): seq<Bytes>
    requires forall i :: 0 <= i < |packets| ==> |packets[i].frames| < 0x100
  {
    if packets == [] then [] else Wires(packets[..|packets| - 1]) + [Wire(packets[|packets| - 1])]
  }

  /** Received in order, they give back those frames. */
  lemma {:induction false} ReceivedPrefix(packets: seq<Packet>, frames: seq<Frame>, target: nat, size: nat)
    requires AllSized(frames, size) && Carries(packets, frames, target)
    ensures forall i :: 0 <= i < |packets| ==> |packets[i].frames| < 0x100
    ensures Received(Wires(packets), size) == Some(frames[..Min(|packets| * target, |frames|)])
  {
    CarriedAreSmall(packets, frames, target);
    if packets != [] {
      var k := |packets| - 1;
      ReceivedPrefix(packets[..k], frames, target, size);
      assert k * target <= |frames|;
      ReceivedOneMore(Wires(packets[..k]), packets[k], frames, target, size, k);
    }
  }

  lemma CarriedAreSmall(packets: seq<Packet>, frames: seq<Frame>, target: nat)
    requires Carries(packets, frames, target)
    ensures forall i :: 0 <= i < |packets| ==> |packets[i].frames| < 0x100
  {
  }

  lemma ReceivedOneMore(front: seq<Bytes>, p: Packet, frames: seq<Frame>, target: nat, size: nat, k: nat)
    requires AllSized(frames, size) && k * target <= |frames| && p.baseSeq < U32 && target < 0x100
    requires p.frames == ChunkAt(frames, target, k) && Received(front, size) == Some(frames[..k * target])
    ensures |p.frames| < 0x100 && Received(front + [Wire(p)], size) == Some(frames[..Min((k + 1) * target, |frames|)])
  {
    PrefixGrows(frames, target, k);
    ReceivedSnoc(front, p, size, frames[..k * target]);
  }

  lemma PrefixGrows(frames: seq<Frame>, target: nat, i: nat)
    requires i * target <= |frames|
    ensures Min(i * target, |frames|) == i * target
    ensures frames[..i * target] + ChunkAt(frames, target, i) == frames[..Min((i + 1) * target, |frames|)]
  {
    NextRun(i, target);
  }

  lemma CountCovers(n: nat, target: nat)
    requires target > 0
    ensures PacketCount(n, target) * target >= n
  {
    var c := PacketCount(n, target);
    assert n + target - 1 == c * target + (n + target - 1) % target;
  }

  /** All packets of a burst, received without loss, give back exactly its frames in order; every
      payload has the length its header announces, so no slice or size check fails. */
  lemma LosslessStream(packets: seq<Packet>, frames: seq<Frame>, target: nat, size: nat)
    requires AllSized(frames, size) && Carries(packets, frames, target) && |packets| == PacketCount(|frames|, target)
    ensures forall i :: 0 <= i < |packets| ==> |packets[i].frames| < 0x100
    ensures Received(Wires(packets), size) == Some(frames)
  {
    ReceivedPrefix(packets, frames, target, size);
    CountCovers(|frames|, target);
    assert frames[..|frames|] == frames;
  }

  /** That is so for every burst of every interleaving, once it has ended with nothing lost. */
  lemma InterleavedLosslessStream(states: seq<System>, events: seq<Event>, counter: nat, k: nat, i: nat, size: nat)
    requires IsRun(states, events, counter) && k < |states| && i < |states[k].txs|
    requires states[k].txs[i].ended && states[k].txs[i].lost == [] && AllSized(states[k].txs[i].pushed, size)
    ensures forall j :: 0 <= j < |states[k].txs[i].shipped| ==> |states[k].txs[i].shipped[j].frames| < 0x100
    ensures Received(Wires(states[k].txs[i].shipped), size) == Some(states[k].txs[i].pushed)
  {
    RunKeepsInvariant(states, events, counter, k);
    forall j: nat | j < |states[k].txs[i].shipped|
      ensures states[k].txs[i].shipped[j].baseSeq < U32
    {
      ShippedRangesAreReserved(states, events, counter, k, i, j);
      assert (states[k].txs[i].shipped[j].baseSeq, |states[k].txs[i].shipped[j].frames|) in states[k].reserved;
      ReservedBasesFit(states, events, counter, k);
    }
    LosslessStream(states[k].txs[i].shipped, states[k].txs[i].pushed, states[k].txs[i].burst.target, size);
  }

  lemma {:induction false} ReservedBasesFit(states: seq<System>, events: seq<Event>, counter: nat, k: nat)
    requires IsRun(states, events, counter) && k < |states|
    ensures forall r :: r in states[k].reserved ==> r.0 < U32
  {
    if k > 0 {
      ReservedBasesFit(states, events, counter, k - 1);
    }
  }

  /** And so it is for what one sender puts on the wire for a burst. */
  lemma {:induction false} SenderStreamIsWires(wire: seq<Bytes>, frames: seq<Frame>, target: nat, counter: nat)
      returns (packets: seq<Packet>)
    requires 0 < target && Shipped(wire, [], frames, target, counter, |wire|)
    ensures |packets| == |wire| && Carries(packets, frames, target)
    ensures forall i :: 0 <= i < |packets| ==> |packets[i].frames| < 0x100
    ensures Wires(packets) == wire
  {
    if wire == [] {
      packets := [];
    } else {
      var k := |wire| - 1;
      ShippedAt(wire, frames, target, counter, k);
      ShippedFront(wire, frames, target, counter);
      var front := SenderStreamIsWires(wire[..k], frames, target, counter);
      var p := BurstPacket(frames, target, counter, k);
      packets := front + [p];
      SnocCarries(front, p, frames, target);
      assert wire == wire[..k] + [Wire(p)];
    }
  }

  lemma SnocCarries(front: seq<Packet>, p: Packet, frames: seq<Frame>, target: nat)
    requires Carries(front, frames, target) && |p.frames| < 0x100 && p.baseSeq < U32
    requires forall i :: 0 <= i < |front| ==> |front[i].frames| < 0x100
    requires |front| * target <= |frames| && p.frames == ChunkAt(frames, target, |front|)
    ensures Carries(front + [p], frames, target)
    ensures Wires(front + [p]) == Wires(front) + [Wire(p)]
  {
    assert (front + [p])[..|front|] == front;
  }

  lemma ShippedAt(wire: seq<Bytes>, frames: seq<Frame>, target: nat, counter: nat, i: nat)
    requires Shipped(wire, [], frames, target, counter, |wire|) && i < |wire|
    ensures i * target <= |frames| && |ChunkAt(frames, target, i)| < 0x100
    ensures wire[i] == Wire(BurstPacket(frames, target, counter, i))
  {
    var none: seq<Bytes> := [];
    assert wire[|none| + i] == Wire(BurstPacket(frames, target, counter, i));
  }

  lemma ShippedFront(wire: seq<Bytes>, frames: seq<Frame>, target: nat, counter: nat)
    requires wire != [] && Shipped(wire, [], frames, target, counter, |wire|)
    ensures Shipped(wire[..|wire| - 1], [], frames, target, counter, |wire| - 1)
  {
    var front: seq<Bytes>, none: seq<Bytes> := wire[..|wire| - 1], [];
    forall i: nat | i < |front|
      ensures i * target <= |frames| && |ChunkAt(frames, target, i)| <= target
        && front[|none| + i] == Wire(BurstPacket(frames, target, counter, i))
    {
      assert wire[|none| + i] == Wire(BurstPacket(frames, target, counter, i));
    }
  }

  lemma SenderLosslessStream(wire: seq<Bytes>, frames: seq<Frame>, target: nat, counter: nat, size: nat)
    requires 0 < target && AllSized(frames, size)
    requires Shipped(wire, [], frames, target, counter, PacketCount(|frames|, target))
    ensures Received(wire, size) == Some(frames)
  {
    var packets := SenderStreamIsWires(wire, frames, target, counter);
    LosslessStream(packets, frames, target, size);
  }
}
