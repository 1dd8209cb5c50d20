/** Traffic counters and the bits-per-second rates recomputed from them at most once a second. */
module RateSampler {
  import opened Arithmetic

  const U64: nat := 0x1_0000_0000_0000_0000
  const RATE_WINDOW_SECS: nat := 1

  function SaturatingSub(a: nat, b: nat): nat {
    if a < b then 0 else a - b
  }

  function SaturatingMul(a: nat, b: nat): nat {
    if a * b < U64 then a * b else U64 - 1
  }

  function BitsPerSecond(bytes: nat, elapsed: nat): nat
    requires elapsed > 0
  {
    SaturatingMul(bytes, 8) / elapsed
  }

  /** The sampler, for one direction of traffic. */
  datatype Track = Track(lastTs: nat, lastBytes: nat, bps: nat)

  /** `refresh_rates`, for one direction, and the rate it reports. */
  function Refreshed(t: Track, now: nat, bytes: nat): (Track, nat) {
    if t.lastTs == 0 then (t.(lastTs := now, lastBytes := bytes), 0)
    else
      var elapsed := SaturatingSub(now, t.lastTs);
      if elapsed < RATE_WINDOW_SECS then (t, t.bps)
      else
        var bps := BitsPerSecond(SaturatingSub(bytes, t.lastBytes), elapsed);
        (Track(now, bytes, bps), bps)
  }

  datatype Snapshot = Snapshot(
    txPackets: nat, txBytes: nat, rxPackets: nat, rxBytes: nat, dropPackets: nat,
    lastTxTs: nat, lastRxTs: nat, txBps: nat, rxBps: nat)

  class Metrics {
    var txPackets: nat
    var txBytes: nat
    var rxPackets: nat
    var rxBytes: nat
    var dropPackets: nat
    var lastTxTs: nat
    var lastRxTs: nat
    var samplerTs: nat
    var samplerTxBytes: nat
    var samplerRxBytes: nat
    var samplerTxBps: nat
    var samplerRxBps: nat

    constructor ()
      ensures TxTrack() == RxTrack() == Track(0, 0, 0)
      ensures txPackets == txBytes == rxPackets == rxBytes == dropPackets == lastTxTs == lastRxTs == 0
    {
      txPackets, txBytes, rxPackets, rxBytes, dropPackets, lastTxTs, lastRxTs := 0, 0, 0, 0, 0, 0, 0;
      samplerTs, samplerTxBytes, samplerRxBytes, samplerTxBps, samplerRxBps := 0, 0, 0, 0, 0;
    }

    ghost function TxTrack(): Track
      reads this
    {
      Track(samplerTs, samplerTxBytes, samplerTxBps)
    }

    ghost function RxTrack(): Track
      reads this
    {
      Track(samplerTs, samplerRxBytes, samplerRxBps)
    }

    /** `record_tx`; the counters wrap like 64-bit atomics. */
    method RecordTx(bytes: nat, now: nat)
      modifies this`txPackets, this`txBytes, this`lastTxTs
      ensures txPackets == (old(txPackets) + 1) % U64 && txBytes == (old(txBytes) + bytes) % U64 && lastTxTs == now
    {
      txPackets := (txPackets + 1) % U64;
      txBytes := (txBytes + bytes) % U64;
      lastTxTs := now;
    }

    /** `record_rx`. */
    method RecordRx(bytes: nat, now: nat)
      modifies this`rxPackets, this`rxBytes, this`lastRxTs
      ensures rxPackets == (old(rxPackets) + 1) % U64 && rxBytes == (old(rxBytes) + bytes) % U64 && lastRxTs == now
    {
      rxPackets := (rxPackets + 1) % U64;
      rxBytes := (rxBytes + bytes) % U64;
      lastRxTs := now;
    }

    /** `refresh_rates`: one lock, both directions, each as its own track. */
    method RefreshRates(tx: nat, rx: nat, now: nat) returns (txBps: nat, rxBps: nat)
      modifies this`samplerTs, this`samplerTxBytes, this`samplerRxBytes, this`samplerTxBps, this`samplerRxBps
      ensures (TxTrack(), txBps) == Refreshed(old(TxTrack()), now, tx)
      ensures (RxTrack(), rxBps) == Refreshed(old(RxTrack()), now, rx)
    {
      if samplerTs == 0 {
        samplerTs := now;
        samplerTxBytes := tx;
        samplerRxBytes := rx;
        return 0, 0;
      }
      var elapsed := SaturatingSub(now, samplerTs);
      if elapsed < RATE_WINDOW_SECS {
        return samplerTxBps, samplerRxBps;
      }
      var txDelta := SaturatingSub(tx, samplerTxBytes);
      var rxDelta := SaturatingSub(rx, samplerRxBytes);
      samplerTxBps := BitsPerSecond(txDelta, elapsed);
      samplerRxBps := BitsPerSecond(rxDelta, elapsed);
      samplerTs := now;
      samplerTxBytes := tx;
      samplerRxBytes := rx;
      txBps, rxBps := samplerTxBps, samplerRxBps;
    }

    /** `snapshot`. */
    method TakeSnapshot(now: nat) returns (s: Snapshot)
      modifies this`samplerTs, this`samplerTxBytes, this`samplerRxBytes, this`samplerTxBps, this`samplerRxBps
      ensures (TxTrack(), s.txBps) == Refreshed(old(TxTrack()), now, txBytes)
      ensures (RxTrack(), s.rxBps) == Refreshed(old(RxTrack()), now, rxBytes)
      ensures s == Snapshot(txPackets, txBytes, rxPackets, rxBytes, dropPackets, lastTxTs, lastRxTs, s.txBps, s.rxBps)
    {
      var txBps, rxBps := RefreshRates(txBytes, rxBytes, now);
      s := Snapshot(txPackets, txBytes, rxPackets, rxBytes, dropPackets, lastTxTs, lastRxTs, txBps, rxBps);
    }
  }

  // --- what the rates add up to ---

  /** What one call of `refresh_rates` sees: the clock, and the byte counter as loaded before the lock. */
  datatype Reading = Reading(now: nat, bytes: nat)

  /** Sums since the sampler took its base line: reported rate times window, windows, what the division of each
      window rounded away, and how far readings fell back behind the one before (racing snapshots may
      enter the lock in the other order). */
  datatype Account = Account(base: nat, area: nat, window: nat, windows: nat, lost: nat, fellBack: nat)

  /** The reading ends a window. */
  predicate IsSample(t: Track, r: Reading) {
    t.lastTs != 0 && r.now > t.lastTs
  }

  function Accounted(t: Track, a: Account, r: Reading): Account {
    if t.lastTs == 0 then Account(r.bytes, 0, 0, 0, 0, 0)
    else if !IsSample(t, r) then a
    else
      var elapsed, delta := r.now - t.lastTs, SaturatingSub(r.bytes, t.lastBytes);
      Account(a.base, a.area + Refreshed(t, r.now, r.bytes).1 * elapsed, a.window + elapsed, a.windows + 1,
              a.lost + 8 * delta % elapsed, a.fellBack + SaturatingSub(t.lastBytes, r.bytes))
  }

  function Sampled(readings: seq<Reading>): (Track, Account) {
    if readings == [] then (Track(0, 0, 0), Account(0, 0, 0, 0, 0, 0))
    else
      var n := |readings| - 1;
      var (t, a) := Sampled(readings[..n]);
      (Refreshed(t, readings[n].now, readings[n].bytes).0, Accounted(t, a, readings[n]))
  }

  /** Eight times the bytes counted between the base line and the last sample, with what fell back
      counted again. */
  function CountedBits(t: Track, a: Account): int {
    8 * (t.lastBytes + a.fellBack - a.base)
  }

  /** No reading is so far above the one sampled before that eight times the difference overflows. */
  predicate NeverSaturates(readings: seq<Reading>) {
    readings == [] ||
    (var n := |readings| - 1;
     NeverSaturates(readings[..n]) && 8 * SaturatingSub(readings[n].bytes, Sampled(readings[..n]).0.lastBytes) < U64)
  }

  lemma RateOfWindow(bits: nat, elapsed: nat)
    requires elapsed > 0
    ensures (bits / elapsed) * elapsed + bits % elapsed == bits && bits % elapsed < elapsed
  {
    DivRecompose(bits, elapsed);
  }

  lemma SaturatedRate(bits: nat, elapsed: nat)
    requires elapsed > 0
    ensures (if bits < U64 then bits else U64 - 1) / elapsed * elapsed <= bits
  {
    RateOfWindow(if bits < U64 then bits else U64 - 1, elapsed);
  }

  /** Over any run of snapshots, with a clock that may stall or step back and readings in any order:
      rates times windows and what rounding lost are exactly the bits counted, if no rate saturates;
      rounding loses less than a bit per second in each window. Saturation only makes rates smaller. */
  lemma {:induction false} RatesAddUp(readings: seq<Reading>)
    ensures var (t, a) := Sampled(readings);
      && (NeverSaturates(readings) ==> a.area + a.lost == CountedBits(t, a))
      && a.area <= CountedBits(t, a)
      && a.lost + a.windows <= a.window
      && (readings != [] && t.lastTs == 0 ==> a == Account(t.lastBytes, 0, 0, 0, 0, 0))
  {
    if readings != [] {
      var n := |readings| - 1;
      RatesAddUp(readings[..n]);
      var (t, a) := Sampled(readings[..n]);
      var r := readings[n];
      if IsSample(t, r) {
        var delta, elapsed := SaturatingSub(r.bytes, t.lastBytes), r.now - t.lastTs;
        RateOfWindow(8 * delta, elapsed);
        SaturatedRate(8 * delta, elapsed);
      }
    }
  }

  /** Every reading that ended a window was at least the one sampled before. */
  predicate SamplesRise(readings: seq<Reading>) {
    readings == [] ||
    (var n := |readings| - 1; var t := Sampled(readings[..n]).0;
     if t.lastTs == 0 then true
     else SamplesRise(readings[..n]) && (IsSample(t, readings[n]) ==> readings[n].bytes >= t.lastBytes))
  }

  lemma {:induction false} SamplesRiseIff(readings: seq<Reading>)
    ensures SamplesRise(readings) <==> Sampled(readings).1.fellBack == 0
  {
    if readings != [] {
      SamplesRiseIff(readings[..|readings| - 1]);
    }
  }

  /** With windows of one second, in which rounding loses nothing, the rates stay within the bytes between
      first and last sample exactly when no sample fell back, and else exceed them by what fell back. */
  lemma OneSecondRatesIff(readings: seq<Reading>)
    requires NeverSaturates(readings) && Sampled(readings).1.window == Sampled(readings).1.windows
    ensures var (t, a) := Sampled(readings); var bits := 8 * (t.lastBytes - a.base);
      && (a.area <= bits <==> SamplesRise(readings))
      && a.area == bits + 8 * a.fellBack
  {
    RatesAddUp(readings);
    SamplesRiseIff(readings);
  }

  /** In general they stay within them exactly when rounding lost at least what fell back. */
  lemma RatesWithinBytesIff(readings: seq<Reading>)
    requires NeverSaturates(readings)
    ensures var (t, a) := Sampled(readings);
      a.area <= 8 * (t.lastBytes - a.base) <==> 8 * a.fellBack <= a.lost
  {
    RatesAddUp(readings);
  }

  ghost predicate Monotone(readings: seq<Reading>) {
    forall i, j :: 0 <= i < j < |readings| ==> readings[i].bytes <= readings[j].bytes
  }

  lemma {:induction false} MonotoneNeverFallsBack(readings: seq<Reading>)
    requires Monotone(readings)
    ensures var (t, a) := Sampled(readings);
      a.fellBack == 0 && (readings != [] ==> exists i :: 0 <= i < |readings| && readings[i].bytes == t.lastBytes)
  {
    if readings != [] {
      var n := |readings| - 1;
      MonotoneNeverFallsBack(readings[..n]);
      var (t, a) := Sampled(readings[..n]);
      if n > 0 {
        var i :| 0 <= i < n && readings[..n][i].bytes == t.lastBytes;
        assert readings[i].bytes == t.lastBytes;
      }
      assert readings[n].bytes == readings[n].bytes;
    }
  }

  /** With a monotone counter and no saturation: the sum of rate times window length is at most eight
      times the bytes between the first and last sample, and short of it by less than the total window
      length (by nothing if there was no window). */
  lemma MonotoneRatesAddUp(readings: seq<Reading>)
    requires Monotone(readings) && NeverSaturates(readings)
    ensures var (t, a) := Sampled(readings); var bits := 8 * (t.lastBytes - a.base);
      && a.area <= bits
      && (if a.windows == 0 then a.area == bits && a.window == 0 else bits - a.window < a.area)
  {
    RatesAddUp(readings);
    MonotoneNeverFallsBack(readings);
    NoWindowNoLength(readings);
  }

  lemma {:induction false} NoWindowNoLength(readings: seq<Reading>)
    ensures Sampled(readings).1.windows == 0 ==> Sampled(readings).1.window == 0
  {
    if readings != [] {
      NoWindowNoLength(readings[..|readings| - 1]);
    }
  }

  /** Racing snapshots do make the rates count bytes twice: a reading that fell back by 50 bytes. */
  lemma RacingSnapshotsCountTwice()
    ensures var (t, a) := Sampled([Reading(1, 0), Reading(2, 100), Reading(3, 50), Reading(4, 100)]);
      a.area == 8 * 150 && 8 * (t.lastBytes - a.base) == 8 * 100 && a.fellBack == 50
  {
    SampledSnoc([], Reading(1, 0));
    SampledSnoc([Reading(1, 0)], Reading(2, 100));
    SampledSnoc([Reading(1, 0), Reading(2, 100)], Reading(3, 50));
    SampledSnoc([Reading(1, 0), Reading(2, 100), Reading(3, 50)], Reading(4, 100));
    assert [] + [Reading(1, 0)] == [Reading(1, 0)];
    assert [Reading(1, 0)] + [Reading(2, 100)] == [Reading(1, 0), Reading(2, 100)];
    assert [Reading(1, 0), Reading(2, 100)] + [Reading(3, 50)] == [Reading(1, 0), Reading(2, 100), Reading(3, 50)];
    assert [Reading(1, 0), Reading(2, 100), Reading(3, 50)] + [Reading(4, 100)]
        == [Reading(1, 0), Reading(2, 100), Reading(3, 50), Reading(4, 100)];
  }

  lemma SampledSnoc(readings: seq<Reading>, r: Reading)
    ensures var (t, a) := Sampled(readings);
      Sampled(readings + [r]) == (Refreshed(t, r.now, r.bytes).0, Accounted(t, a, r))
  {
    assert (readings + [r])[..|readings|] == readings;
  }

  // --- what each call reports ---

  /** What the last of these calls reported. */
  function LastReport(readings: seq<Reading>): nat
    requires readings != []
  {
    var n := |readings| - 1;
    Refreshed(Sampled(readings[..n]).0, readings[n].now, readings[n].bytes).1
  }

  /** The reading whose time and bytes the sampler holds: the last one that ended a window, or else the
      last one while no time was known. */
  lemma {:induction false} TrackHoldsReading(readings: seq<Reading>) returns (i: nat)
    requires readings != []
    ensures i < |readings|
    ensures Sampled(readings).0.lastTs == readings[i].now && Sampled(readings).0.lastBytes == readings[i].bytes
    ensures Sampled(readings).0.lastTs != 0 ==> forall j :: i < j < |readings| ==> readings[j].now <= readings[i].now
  {
    var n := |readings| - 1;
    if n == 0 {
      i := 0;
    } else {
      var t := Sampled(readings[..n]).0;
      i := TrackHoldsReading(readings[..n]);
      assert readings[i] == readings[..n][i];
      if t.lastTs == 0 || readings[n].now > t.lastTs {
        i := n;
      } else {
        forall j | i < j < |readings|
          ensures readings[j].now <= readings[i].now
        {
          assert j < n ==> readings[j] == readings[..n][j];
        }
      }
    }
  }

  /** The stored rate is what was reported last. */
  lemma {:induction false} StoredIsReported(readings: seq<Reading>)
    requires readings != []
    ensures Sampled(readings).0.bps == LastReport(readings)
    ensures Sampled(readings).0.lastTs == 0 ==> Sampled(readings).0.bps == 0
  {
    var n := |readings| - 1;
    if n > 0 {
      StoredIsReported(readings[..n]);
    }
  }

  /** Every call's report: the first one 0, and so every one until a time is known; one that ends a window
      the rate of that window, in bits per second rounded down; one inside a window what the call before
      it reported. `i` is the reading the window began with. */
  lemma ReportOf(readings: seq<Reading>, i: nat)
    requires |readings| >= 2 && i < |readings| - 1
    requires var t := Sampled(readings[..|readings| - 1]).0;
      t.lastTs == readings[i].now && t.lastBytes == readings[i].bytes
    ensures LastReport(readings[..1]) == 0
    ensures var r, last := LastReport(readings), readings[|readings| - 1];
      var delta := if last.bytes < readings[i].bytes then 0 else last.bytes - readings[i].bytes;
      if readings[i].now == 0 then r == 0
      else if last.now <= readings[i].now then r == LastReport(readings[..|readings| - 1])
      else
        var elapsed := last.now - readings[i].now;
        if 8 * delta < 0x1_0000_0000_0000_0000 then r * elapsed + 8 * delta % elapsed == 8 * delta
        else r == 0xffff_ffff_ffff_ffff / elapsed
  {
    var n := |readings| - 1;
    var last, start := readings[n], readings[i];
    assert readings[..1][..0] == [];
    StoredIsReported(readings[..n]);
    if start.now != 0 && last.now > start.now {
      DivRecompose(8 * SaturatingSub(last.bytes, start.bytes), last.now - start.now);
    }
  }
}
