/** Receiving push-to-talk packets: header checks, frame by frame decoding, browser broadcast and a
    bounded playback queue, with counters that account for every frame. */
module PttReceiver {
  import opened BurstTx
  import opened ByteStrings
  import opened PttPacket
  import opened PttStream
  import opened Wrappers

  type Pcm = seq<int>

  /** Codec2 decoding one frame of the fixed size: its state moves on, samples come out. */
  type Decoder = (nat, Frame) -> (nat, Pcm)

  /** How the bounded wait for room in the playback queue went for a frame. */
  datatype Verdict = Queued | TimedOut | Closed

  datatype RxError = BadHeader | NoFrames | WrongLength | PlaybackGone | WrongFrameSize

  datatype Rx = Rx(
    codec: nat,
    queue: seq<Pcm>,
    broadcast: seq<Pcm>,
    playbackDrops: nat,
    droppedWhileTalking: nat,
    rxPackets: nat,
    rxBytes: nat,
    lastRemote: Option<string>)

  /** One packet coming in, with all that the outside decides about it. */
  datatype Arrival = Arrival(payload: Bytes, remote: string, talking: bool, browserOnly: bool, verdict: nat -> Verdict)

  // --- specification ---

  /** Decoding frames in order from a codec state. */
  function DecodeAll(decode: Decoder, codec: nat, frames: seq<Frame>): (nat, seq<Pcm>) {
    if frames == [] then (codec, [])
    else
      var n := |frames| - 1;
      var (c, pcms) := DecodeAll(decode, codec, frames[..n]);
      var (c', pcm) := decode(c, frames[n]);
      (c', pcms + [pcm])
  }

  /** The first frame, of n, that playback did not take. */
  function Stop(verdict: nat -> Verdict, n: nat): (k: nat)
    ensures k <= n && (k < n ==> verdict(k) != Queued) && forall i: nat :: i < k ==> verdict(i) == Queued
  {
    if n == 0 then 0
    else
      var k := Stop(verdict, n - 1);
      if k < n - 1 then k else if verdict(n - 1) == Queued then n else n - 1
  }

  predicate WellFormed(payload: Bytes, size: nat) {
    match DecodePacket(payload)
    case None => false
    case Some((h, body)) => h.nFrames > 0 && |body| == h.nFrames * size
  }

  /** The frames of a well-formed packet. */
  function FramesOf(payload: Bytes, size: nat): seq<Frame>
    requires WellFormed(payload, size)
  {
    var (h, body) := DecodePacket(payload).value;
    Split(body, h.nFrames, size)
  }

  function Rejection(payload: Bytes): RxError {
    match DecodePacket(payload)
    case None => BadHeader
    case Some((h, _)) => if h.nFrames == 0 then NoFrames else WrongLength
  }

  /** Playback took the first `taken` frames and refused the next, if there is one; the refused frame
      was decoded and broadcast already, the ones after it were not. */
  function Delivered(decode: Decoder, s: Rx, frames: seq<Frame>, taken: nat, toPlayback: bool): Rx
    requires taken <= |frames|
  {
    var heard := Min(taken + 1, |frames|);
    var (codec, pcms) := DecodeAll(decode, s.codec, frames[..heard]);
    DecodeAllLength(decode, s.codec, frames[..heard]);
    s.(codec := codec, broadcast := s.broadcast + pcms, queue := s.queue + if toPlayback then pcms[..taken] else [])
  }

  lemma {:induction false} DecodeAllLength(decode: Decoder, codec: nat, frames: seq<Frame>)
    ensures |DecodeAll(decode, codec, frames).1| == |frames|
  {
    if frames != [] {
      DecodeAllLength(decode, codec, frames[..|frames| - 1]);
    }
  }

  /** `handle_received_audio`. */
  function Handled(decode: Decoder, size: nat, s: Rx, a: Arrival): (Rx, Option<RxError>) {
    if a.talking then (s.(droppedWhileTalking := s.droppedWhileTalking + 1), None)
    else if !WellFormed(a.payload, size) then (s, Some(Rejection(a.payload)))
    else
      var frames := FramesOf(a.payload, size);
      var k := if a.browserOnly then |frames| else Stop(a.verdict, |frames|);
      var s' := Delivered(decode, s, frames, k, !a.browserOnly);
      if k < |frames| && a.verdict(k) == Closed then (s', Some(PlaybackGone))
      else
        (s'.(playbackDrops := s.playbackDrops + (|frames| - k), rxPackets := s.rxPackets + 1,
             rxBytes := s.rxBytes + |a.payload|, lastRemote := Some(a.remote)), None)
  }

  // --- the code ---

  class Receiver {
    const decode: Decoder
    const bytesPerFrame: nat
    var rx: Rx

    constructor (decode: Decoder, bytesPerFrame: nat, rx: Rx)
      ensures this.decode == decode && this.bytesPerFrame == bytesPerFrame && this.rx == rx
    {
      this.decode, this.bytesPerFrame, this.rx := decode, bytesPerFrame, rx;
    }

    /** `RxCodec::decode_into`, with its size check. */
    method DecodeInto(chunk: Frame) returns (r: Result<Pcm, RxError>)
      modifies this
      ensures |chunk| != bytesPerFrame ==> r == Err(WrongFrameSize) && rx == old(rx)
      ensures |chunk| == bytesPerFrame ==>
        r == Ok(decode(old(rx.codec), chunk).1) && rx == old(rx).(codec := decode(old(rx.codec), chunk).0)
    {
      if |chunk| != bytesPerFrame {
        return Err(WrongFrameSize);
      }
      var (codec, pcm) := decode(rx.codec, chunk);
      rx := rx.(codec := codec);
      r := Ok(pcm);
    }

    /** The frame loop: decodes, broadcasts and queues frame after frame until playback refuses one.
        No slice leaves the payload and no size check fails. */
    method PlayFrames(a: Arrival, body: Bytes, n: nat) returns (taken: nat)
      requires |body| == n * bytesPerFrame
      modifies this
      ensures taken == if a.browserOnly then n else Stop(a.verdict, n)
      ensures rx == Delivered(decode, old(rx), Split(body, n, bytesPerFrame), taken, !a.browserOnly)
    {
      ghost var s, frames := rx, Split(body, n, bytesPerFrame);
      taken := 0;
      assert frames[..0] == [];
      while taken < n
        invariant 0 <= taken <= n
        invariant !a.browserOnly ==> forall j: nat :: j < taken ==> a.verdict(j) == Queued
        invariant rx == AllDelivered(decode, s, frames, taken, !a.browserOnly)
      {
        SliceInRange(taken, n, bytesPerFrame);
        var start := taken * bytesPerFrame;
        var chunk := body[start..start + bytesPerFrame];
        assert chunk == frames[taken];
        var r := DecodeInto(chunk);
        var pcm := r.value;
        rx := rx.(broadcast := rx.broadcast + [pcm]);
        OneMoreDelivered(decode, s, frames, taken, !a.browserOnly);
        if !a.browserOnly {
          if a.verdict(taken) != Queued {
            StopAt(a.verdict, n, taken);
            return;
          }
          rx := rx.(queue := rx.queue + [pcm]);
        }
        taken := taken + 1;
      }
      EverythingDelivered(decode, s, frames, !a.browserOnly);
      if !a.browserOnly {
        StopAt(a.verdict, n, n);
      }
    }

    /** `handle_received_audio`. */
    method Handle(a: Arrival) returns (error: Option<RxError>)
      modifies this
      ensures (rx, error) == Handled(decode, bytesPerFrame, old(rx), a)
      ensures error != Some(WrongFrameSize)
    {
      if a.talking {
        rx := rx.(droppedWhileTalking := rx.droppedWhileTalking + 1);
        return None;
      }
      var decoded := DecodePacket(a.payload);
      if decoded.None? {
        return Some(BadHeader);
      }
      var (header, body) := decoded.value;
      if header.nFrames == 0 {
        return Some(NoFrames);
      }
      if |body| != bytesPerFrame * header.nFrames {
        return Some(WrongLength);
      }
      var n := header.nFrames;
      var taken := PlayFrames(a, body, n);
      if taken < n {
        if a.verdict(taken) == Closed {
          return Some(PlaybackGone);
        }
        rx := rx.(playbackDrops := rx.playbackDrops + (n - taken));
      }
      rx := rx.(rxPackets := rx.rxPackets + 1, rxBytes := rx.rxBytes + |a.payload|, lastRemote := Some(a.remote));
      error := None;
    }
  }

  /** After the first i frames were decoded, broadcast and queued. */
  function AllDelivered(decode: Decoder, s: Rx, frames: seq<Frame>, i: nat, toPlayback: bool): Rx
    requires i <= |frames|
  {
    var (codec, pcms) := DecodeAll(decode, s.codec, frames[..i]);
    s.(codec := codec, broadcast := s.broadcast + pcms, queue := s.queue + if toPlayback then pcms else [])
  }

  /** Decoding and broadcasting frame i, and then queueing it or not. */
  lemma OneMoreDelivered(decode: Decoder, s: Rx, frames: seq<Frame>, i: nat, toPlayback: bool)
    requires i < |frames|
    ensures var before := AllDelivered(decode, s, frames, i, toPlayback);
      var (codec, pcm) := decode(before.codec, frames[i]);
      var heard := before.(codec := codec, broadcast := before.broadcast + [pcm]);
      && (toPlayback ==> heard == Delivered(decode, s, frames, i, true))
      && AllDelivered(decode, s, frames, i + 1, toPlayback) ==
          if toPlayback then heard.(queue := heard.queue + [pcm]) else heard
  {
    assert frames[..i + 1][..i] == frames[..i];
    var pcms := DecodeAll(decode, s.codec, frames[..i]).1;
    DecodeAllLength(decode, s.codec, frames[..i]);
    var more := DecodeAll(decode, s.codec, frames[..i + 1]).1;
    assert more == pcms + [more[i]] && more[..i] == pcms;
  }

  lemma EverythingDelivered(decode: Decoder, s: Rx, frames: seq<Frame>, toPlayback: bool)
    ensures AllDelivered(decode, s, frames, |frames|, toPlayback) == Delivered(decode, s, frames, |frames|, toPlayback)
  {
    var pcms := DecodeAll(decode, s.codec, frames[..|frames|]).1;
    DecodeAllLength(decode, s.codec, frames[..|frames|]);
    assert pcms[..|frames|] == pcms;
  }

  lemma {:induction false} StopAt(verdict: nat -> Verdict, n: nat, k: nat)
    requires k <= n && (k < n ==> verdict(k) != Queued) && forall i: nat :: i < k ==> verdict(i) == Queued
    ensures Stop(verdict, n) == k
  {
    assert Stop(verdict, n) < k ==> verdict(Stop(verdict, n)) == Queued;
  }

  // --- accounting over runs ---

  function HandledAll(decode: Decoder, size: nat, s: Rx, arrivals: seq<Arrival>): Rx {
    if arrivals == [] then s
    else
      var n := |arrivals| - 1;
      Handled(decode, size, HandledAll(decode, size, s, arrivals[..n]), arrivals[n]).0
  }

  /** Frames in the packets that were looked at and well formed. */
  function AcceptedFrames(size: nat, arrivals: seq<Arrival>): nat {
    if arrivals == [] then 0
    else
      var a := arrivals[|arrivals| - 1];
      AcceptedFrames(size, arrivals[..|arrivals| - 1])
        + if !a.talking && WellFormed(a.payload, size) then |FramesOf(a.payload, size)| else 0
  }

  function Count(arrivals: seq<Arrival>, which: Arrival -> bool): nat {
    if arrivals == [] then 0
    else Count(arrivals[..|arrivals| - 1], which) + if which(arrivals[|arrivals| - 1]) then 1 else 0
  }

  ghost predicate PlaybackOpen(a: Arrival) {
    !a.browserOnly && forall k: nat :: a.verdict(k) != Closed
  }

  lemma PacketIsAccountedFor(decode: Decoder, size: nat, s: Rx, a: Arrival)
    requires PlaybackOpen(a)
    ensures var s' := Handled(decode, size, s, a).0;
      (|s'.queue| - |s.queue|) + (s'.playbackDrops - s.playbackDrops)
        == if !a.talking && WellFormed(a.payload, size) then |FramesOf(a.payload, size)| else 0
  {
    if !a.talking && WellFormed(a.payload, size) {
      var frames := FramesOf(a.payload, size);
      var k := Stop(a.verdict, |frames|);
      DecodeAllLength(decode, s.codec, frames[..Min(k + 1, |frames|)]);
    }
  }

  /** With playback open and sound going to ALSA, every frame of an accepted packet is either queued
      or counted as dropped. */
  lemma {:induction false} FramesAreAccountedFor(decode: Decoder, size: nat, s: Rx, arrivals: seq<Arrival>)
    requires forall i :: 0 <= i < |arrivals| ==> PlaybackOpen(arrivals[i])
    ensures var s' := HandledAll(decode, size, s, arrivals);
      AcceptedFrames(size, arrivals) == (|s'.queue| - |s.queue|) + (s'.playbackDrops - s.playbackDrops)
  {
    if arrivals != [] {
      var n := |arrivals| - 1;
      FramesAreAccountedFor(decode, size, s, arrivals[..n]);
      PacketIsAccountedFor(decode, size, HandledAll(decode, size, s, arrivals[..n]), arrivals[n]);
    }
  }

  /** Packets arriving while transmitting are counted once, as such, and touch nothing else: in every
      run, whatever becomes of playback, the rest is as if only the others had arrived. */
  lemma {:induction false} TalkingPacketsAreOnlyCounted(decode: Decoder, size: nat, s: Rx, arrivals: seq<Arrival>)
    ensures var s' := HandledAll(decode, size, s, arrivals);
      && s'.droppedWhileTalking == s.droppedWhileTalking + Count(arrivals, (a: Arrival) => a.talking)
      && s'.(droppedWhileTalking := 0) == HandledAll(decode, size, s, Quiet(arrivals)).(droppedWhileTalking := 0)
  {
    if arrivals != [] {
      var n := |arrivals| - 1;
      TalkingPacketsAreOnlyCounted(decode, size, s, arrivals[..n]);
      var a, quiet := arrivals[n], Quiet(arrivals[..n]);
      if !a.talking {
        assert (quiet + [a])[..|quiet|] == quiet;
        HandledIgnoresTalkCount(decode, size, HandledAll(decode, size, s, arrivals[..n]),
            HandledAll(decode, size, s, quiet), a);
      } else {
        assert quiet + [] == quiet;
      }
    }
  }

  /** Unless playback is gone, every well-formed packet that found the transmitter silent is received. */
  lemma {:induction false} QuietPacketsAreReceived(decode: Decoder, size: nat, s: Rx, arrivals: seq<Arrival>)
    requires forall i :: 0 <= i < |arrivals| ==> PlaybackOpen(arrivals[i])
    ensures HandledAll(decode, size, s, arrivals).rxPackets
      == s.rxPackets + Count(arrivals, (a: Arrival) => !a.talking && WellFormed(a.payload, size))
  {
    if arrivals != [] {
      var n := |arrivals| - 1;
      QuietPacketsAreReceived(decode, size, s, arrivals[..n]);
      assert PlaybackOpen(arrivals[n]);
    }
  }

  /** The arrivals that found the transmitter silent. */
  function Quiet(arrivals: seq<Arrival>): seq<Arrival> {
    if arrivals == [] then []
    else
      var a := arrivals[|arrivals| - 1];
      Quiet(arrivals[..|arrivals| - 1]) + if a.talking then [] else [a]
  }

  lemma HandledIgnoresTalkCount(decode: Decoder, size: nat, s: Rx, t: Rx, a: Arrival)
    requires !a.talking && s.(droppedWhileTalking := 0) == t.(droppedWhileTalking := 0)
    ensures Handled(decode, size, s, a).0.(droppedWhileTalking := 0) ==
        Handled(decode, size, t, a).0.(droppedWhileTalking := 0)
  {
  }

  // --- what is counted, and why a packet is rejected ---

  /** A packet is well formed exactly if it is one, counts at least a frame, and has as many bytes after the
      header as its frames need; else the first of these that fails is the reason. */
  lemma RejectionIs(payload: Bytes, size: nat)
    ensures var packet := |payload| >= 10 && payload[..4] == [0x4b, 0x50, 0x54, 0x33];
      && (WellFormed(payload, size) <==> packet && payload[9] != 0 && |payload| - 10 == payload[9] * size)
      && (!packet ==> Rejection(payload) == BadHeader)
      && (packet && payload[9] == 0 ==> Rejection(payload) == NoFrames)
      && (packet && payload[9] != 0 && !WellFormed(payload, size) ==> Rejection(payload) == WrongLength)
  {
  }

  /** The frames of a well-formed packet, each where it lies in the packet. */
  lemma FramesLieInPacket(payload: Bytes, size: nat, i: nat)
    requires WellFormed(payload, size) && i < payload[9]
    ensures |FramesOf(payload, size)| == payload[9]
    ensures 10 + i * size + size <= |payload|
        && FramesOf(payload, size)[i] == payload[10 + i * size..10 + i * size + size]
  {
    var n := payload[9] as nat;
    SliceInRange(i, n, size);
    var body := payload[10..];
    assert body[i * size..i * size + size] == payload[10 + i * size..10 + i * size + size];
  }

  /** One packet that found the transmitter silent and is well formed: every frame is decoded, in order, and
      heard by browsers, up to the first that playback does not take and including it; those taken are
      queued; a closed queue is an error and counts nothing; otherwise the packet, its bytes and its sender
      are noted, and the frames that were not queued are counted as dropped. */
  lemma PlayedPacket(decode: Decoder, size: nat, s: Rx, a: Arrival, k: nat)
    requires !a.talking && !a.browserOnly && WellFormed(a.payload, size) && k <= a.payload[9]
    requires forall i: nat :: i < k ==> a.verdict(i) == Queued
    requires k < a.payload[9] ==> a.verdict(k) != Queued
    ensures var n := a.payload[9] as nat; var (s', error) := Handled(decode, size, s, a);
      var frames := FramesOf(a.payload, size);
      var heard := frames[..if k < n then k + 1 else n];
      && |DecodeAll(decode, s.codec, heard).1| == |heard|
      && s'.codec == DecodeAll(decode, s.codec, heard).0
      && s'.broadcast == s.broadcast + DecodeAll(decode, s.codec, heard).1
      && s'.queue == s.queue + DecodeAll(decode, s.codec, heard).1[..k]
      && s'.droppedWhileTalking == s.droppedWhileTalking
      && if k < n && a.verdict(k) == Closed
         then error == Some(PlaybackGone) && s'.rxPackets == s.rxPackets && s'.rxBytes == s.rxBytes
              && s'.lastRemote == s.lastRemote && s'.playbackDrops == s.playbackDrops
         else error == None && s'.rxPackets == s.rxPackets + 1 && s'.rxBytes == s.rxBytes + |a.payload|
              && s'.lastRemote == Some(a.remote) && s'.playbackDrops == s.playbackDrops + (n - k)
  {
    StopAt(a.verdict, a.payload[9], k);
    var n := a.payload[9] as nat;
    DecodeAllLength(decode, s.codec, FramesOf(a.payload, size)[..if k < n then k + 1 else n]);
  }

  /** The same with sound for browsers only: all frames are heard, none is queued or dropped. */
  lemma BrowserPacket(decode: Decoder, size: nat, s: Rx, a: Arrival)
    requires !a.talking && a.browserOnly && WellFormed(a.payload, size)
    ensures var (s', error) := Handled(decode, size, s, a);
      var (codec, pcms) := DecodeAll(decode, s.codec, FramesOf(a.payload, size));
      && error == None
      && s' == Rx(codec, s.queue, s.broadcast + pcms, s.playbackDrops, s.droppedWhileTalking, s.rxPackets + 1,
                  s.rxBytes + |a.payload|, Some(a.remote))
  {
    EverythingDelivered(decode, s, FramesOf(a.payload, size), false);
    var frames := FramesOf(a.payload, size);
    assert frames[..|frames|] == frames;
  }

  /** Any other packet changes at most the count of those that came while talking. */
  lemma UnplayedPacket(decode: Decoder, size: nat, s: Rx, a: Arrival)
    requires a.talking || !WellFormed(a.payload, size)
    ensures Handled(decode, size, s, a) ==
      if a.talking then (s.(droppedWhileTalking := s.droppedWhileTalking + 1), None)
      else (s, Some(Rejection(a.payload)))
  {
  }

  /** Decoding in order: each frame from the state its predecessors left. */
  lemma {:induction false} DecodedInOrder(decode: Decoder, codec: nat, frames: seq<Frame>, i: nat)
    requires i < |frames|
    ensures |DecodeAll(decode, codec, frames).1| == |frames| && DecodeAll(decode, codec, []) == (codec, [])
    ensures DecodeAll(decode, codec, frames).1[i] == decode(DecodeAll(decode, codec, frames[..i]).0, frames[i]).1
    ensures DecodeAll(decode, codec, frames[..i + 1]).0 == decode(DecodeAll(decode, codec, frames[..i]).0, frames[i]).0
    decreases |frames|
  {
    DecodeAllLength(decode, codec, frames);
    var n := |frames| - 1;
    DecodeAllLength(decode, codec, frames[..n]);
    assert frames[..i + 1][..i] == frames[..i];
    if i < n {
      DecodedInOrder(decode, codec, frames[..n], i);
      assert frames[..n][..i] == frames[..i];
    } else {
      assert frames[..n] == frames[..i];
    }
  }

  /** The bytes of the packets received. */
  function ReceivedBytes(size: nat, arrivals: seq<Arrival>): nat {
    if arrivals == [] then 0
    else
      var a := arrivals[|arrivals| - 1];
      ReceivedBytes(size, arrivals[..|arrivals| - 1])
        + if !a.talking && WellFormed(a.payload, size) then |a.payload| else 0
  }

  /** The i-th packet was received, and none after it. */
  predicate LastReceived(size: nat, arrivals: seq<Arrival>, i: int) {
    && 0 <= i < |arrivals| && !arrivals[i].talking && WellFormed(arrivals[i].payload, size)
    && forall j :: i < j < |arrivals| ==> arrivals[j].talking || !WellFormed(arrivals[j].payload, size)
  }

  /** Over any run with playback open, the bytes counted are those of the packets received, and the sender
      shown is that of the last one. */
  lemma {:induction false} BytesAndSenderNoted(decode: Decoder, size: nat, s: Rx, arrivals: seq<Arrival>)
    requires forall i :: 0 <= i < |arrivals| ==> PlaybackOpen(arrivals[i])
    ensures var s' := HandledAll(decode, size, s, arrivals);
      && s'.rxBytes == s.rxBytes + ReceivedBytes(size, arrivals)
      && forall i :: LastReceived(size, arrivals, i) ==> s'.lastRemote == Some(arrivals[i].remote)
  {
    if arrivals != [] {
      var n := |arrivals| - 1;
      BytesAndSenderNoted(decode, size, s, arrivals[..n]);
      assert PlaybackOpen(arrivals[n]);
      forall i | i < n && LastReceived(size, arrivals, i)
        ensures HandledAll(decode, size, s, arrivals).lastRemote == Some(arrivals[i].remote)
      {
        assert LastReceived(size, arrivals[..n], i);
        assert arrivals[n].talking || !WellFormed(arrivals[n].payload, size);
      }
    }
  }
}
