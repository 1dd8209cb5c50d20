/** Playback conversion: nearest-sample resampling and spreading mono sound over output channels. */
module Resampler {
  import opened Arithmetic
  import opened ByteStrings
  import opened PttPacket

  type Sample = x: int | -0x8000 <= x < 0x8000

  function SourceIndex(i: nat, inRate: nat, outRate: nat): nat
    requires outRate > 0
  {
    i * inRate / outRate
  }

  function OutputLen(n: nat, inRate: nat, outRate: nat): nat
    requires inRate > 0
  {
    if n * outRate / inRate < 1 then 1 else n * outRate / inRate
  }

  /** The resampled signal, without the index clamp. */
  function Resampled(input: seq<Sample>, inRate: nat, outRate: nat): seq<Sample>
    requires inRate > 0 && outRate > 0
  {
    if inRate == outRate || input == [] then input
    else
      var len := OutputLen(|input|, inRate, outRate);
      seq(len, i requires 0 <= i < len => SourceSample(input, inRate, outRate, i))
  }

  function SourceSample(input: seq<Sample>, inRate: nat, outRate: nat, i: nat): Sample
    requires inRate > 0 && outRate > 0 && input != [] && i < OutputLen(|input|, inRate, outRate)
  {
    SourceInRange(|input|, inRate, outRate, i);
    input[SourceIndex(i, inRate, outRate)]
  }

  /** Every output index reads inside the input, so the clamp never acts. */
  lemma SourceInRange(n: nat, inRate: nat, outRate: nat, i: nat)
    requires n > 0 && inRate > 0 && outRate > 0 && i < OutputLen(n, inRate, outRate)
    ensures SourceIndex(i, inRate, outRate) < n
  {
    if n * outRate / inRate >= 1 {
      DivRecompose(n * outRate, inRate);
      MulStep(i, n * outRate / inRate, inRate);
      DivBound(i * inRate, n, outRate);
    } else {
      assert i * inRate == 0;
    }
  }

  lemma SourceNonDecreasing(i: nat, j: nat, inRate: nat, outRate: nat)
    requires i <= j && outRate > 0
    ensures SourceIndex(i, inRate, outRate) <= SourceIndex(j, inRate, outRate)
  {
    var a, b := SourceIndex(i, inRate, outRate), SourceIndex(j, inRate, outRate);
    MulMono(i, j, inRate);
    DivRecompose(i * inRate, outRate);
    DivRecompose(j * inRate, outRate);
    MulStep(b, a, outRate);
  }

  /** `resample_mono_pcm`, clamp included. */
  method ResampleMonoPcm(input: seq<Sample>, inRate: nat, outRate: nat) returns (output: seq<Sample>)
    requires inRate > 0 && outRate > 0
    ensures output == Resampled(input, inRate, outRate)
  {
    if inRate == outRate || input == [] {
      return input;
    }
    var ratio := |input| * outRate / inRate;
    var outputLen := if ratio < 1 then 1 else ratio;
    output := [];
    for index := 0 to outputLen
      invariant |output| == index
      invariant forall j: nat :: j < index ==> output[j] == Resampled(input, inRate, outRate)[j]
    {
      var sourceIndex := index * inRate / outRate;
      SourceInRange(|input|, inRate, outRate, index);
      output := output + [input[if sourceIndex < |input| - 1 then sourceIndex else |input| - 1]];
    }
  }

  // --- resampling there and back ---

  /** Every signal of n samples survives conversion to another rate and back. */
  ghost predicate Survives(n: nat, rate: nat, other: nat)
    requires rate > 0 && other > 0
  {
    forall x: seq<Sample> :: |x| == n ==> Resampled(Resampled(x, rate, other), other, rate) == x
  }

  lemma MultipleDivides(a: nat, k: nat)
    requires a > 0
    ensures k * a / a == k
  {
    DivUnique(k * a, a, k);
  }

  /** Raising the rate by an integer factor and lowering it again returns the input. */
  lemma UpThenDown(x: seq<Sample>, rate: nat, k: nat)
    requires rate > 0 && k > 0
    ensures k * rate > 0 && Resampled(Resampled(x, rate, k * rate), k * rate, rate) == x
  {
    MulMono(1, k, rate);
    var up := k * rate;
    if k != 1 && x != [] {
      var n := |x|;
      var y := Resampled(x, rate, up);
      MulStep(1, k, rate);
      assert n * up == (n * k) * rate by { MulAssoc(n, k, rate); }
      MultipleDivides(rate, n * k);
      MulMono(1, n, k);
      assert |y| == n * k;
      assert (n * k) * rate == n * up;
      MultipleDivides(up, n);
      assert OutputLen(|y|, up, rate) == n;
      var z := Resampled(y, up, rate);
      assert |z| == n;
      forall j: nat | j < n
        ensures z[j] == x[j]
      {
        UpThenDownAt(j, rate, k);
        SourceInRange(|y|, up, rate, j);
        assert z[j] == y[SourceIndex(j, up, rate)];
      }
    } else {
      assert k == 1 ==> up == rate;
    }
  }

  lemma UpThenDownAt(j: nat, rate: nat, k: nat)
    requires rate > 0 && k > 0 && k * rate > 0
    ensures SourceIndex(j, k * rate, rate) == j * k
    ensures SourceIndex(j * k, rate, k * rate) == j
  {
    MulAssoc(j, k, rate);
    MultipleDivides(rate, j * k);
    MultipleDivides(k * rate, j);
  }

  /** A unit impulse at position 1. */
  function Impulse(n: nat): seq<Sample> {
    seq(n, i => if i == 1 then 1 else 0)
  }

  /** Unless the other rate is a multiple of the first, position 1 comes back holding sample 0, if at all. */
  lemma ImpulseIsLost(n: nat, rate: nat, other: nat)
    requires n >= 2 && rate > 0 && other > 0 && other % rate != 0
    ensures Resampled(Resampled(Impulse(n), rate, other), other, rate) != Impulse(n)
  {
    var x := Impulse(n);
    var y := Resampled(x, rate, other);
    assert rate != other by {
      if rate == other { DivUnique(other, rate, 1); DivRecompose(other, rate); }
    }
    assert |y| >= 1;
    var z := Resampled(y, other, rate);
    if |z| >= 2 {
      var q := SourceIndex(1, other, rate);
      assert 1 * other == other && q == other / rate;
      SourceInRange(|y|, other, rate, 1);
      assert z[1] == y[q];
      DivRecompose(other, rate);
      assert q * rate < 1 * other;
      DivBound(q * rate, 1, other);
      assert SourceIndex(q, rate, other) == 0;
      SourceInRange(n, rate, other, q);
      assert y[q] == x[0] == 0;
      assert z[1] != x[1];
    }
  }

  /** For signals of two or more samples, conversion to another rate and back is lossless exactly when
      that rate is a multiple of the first. */
  lemma SurvivesIffMultiple(n: nat, rate: nat, other: nat)
    requires n >= 2 && rate > 0 && other > 0
    ensures Survives(n, rate, other) <==> other % rate == 0
  {
    if other % rate == 0 {
      var k := other / rate;
      DivRecompose(other, rate);
      assert k > 0;
      forall x: seq<Sample> | |x| == n
        ensures Resampled(Resampled(x, rate, other), other, rate) == x
      {
        UpThenDown(x, rate, k);
      }
    } else {
      ImpulseIsLost(n, rate, other);
      assert |Impulse(n)| == n;
    }
  }

  /** The number of samples a single one turns into, there and back. */
  lemma SingleLength(rate: nat, other: nat)
    requires rate > 0 && other > 0
    ensures OutputLen(OutputLen(1, rate, other), other, rate) == 1 <==> rate < 2 * other
  {
    var up := other / rate;
    DivRecompose(other, rate);
    if up >= 1 {
      MulMono(1, up, rate);
      DivBound(up * rate, 2, other);
    } else {
      DivRecompose(rate, other);
      if rate < 2 * other {
        DivBound(rate, 2, other);
      } else {
        MulStep(rate / other, 2, other);
      }
    }
  }

  /** A single sample comes back alone exactly when the rate is less than twice the other. */
  lemma SurvivesSingle(rate: nat, other: nat)
    requires rate > 0 && other > 0
    ensures Survives(1, rate, other) <==> rate < 2 * other
  {
    SingleLength(rate, other);
    if rate < 2 * other {
      forall x: seq<Sample> | |x| == 1
        ensures Resampled(Resampled(x, rate, other), other, rate) == x
      {
        SingleSurvives(x, rate, other);
      }
    } else {
      var x: seq<Sample> := [0];
      assert |x| == 1;
      assert |Resampled(Resampled(x, rate, other), other, rate)| != 1;
    }
  }

  lemma SingleSurvives(x: seq<Sample>, rate: nat, other: nat)
    requires rate > 0 && other > 0 && |x| == 1 && rate < 2 * other
    ensures Resampled(Resampled(x, rate, other), other, rate) == x
  {
    if rate != other {
      SingleLength(rate, other);
      var y := Resampled(x, rate, other);
      var z := Resampled(y, other, rate);
      SourceInRange(|y|, other, rate, 0);
      var j := SourceIndex(0, other, rate);
      SourceInRange(1, rate, other, j);
      assert z[0] == y[j] && y[j] == x[SourceIndex(j, rate, other)];
    }
  }

  // --- bytes on the output channels ---

  function LittleEndian(s: Sample): (b: Bytes)
    ensures |b| == 2
  {
    var u := if s < 0 then s + 0x1_0000 else s;
    [u % 0x100, u / 0x100]
  }

  function FromLittleEndian(b: Bytes): Sample
    requires |b| == 2
  {
    var lo: int := b[0];
    var hi: int := b[1];
    var u := lo + 0x100 * hi;
    if u >= 0x8000 then u - 0x1_0000 else u
  }

  lemma LittleEndianRoundTrip(s: Sample)
    ensures FromLittleEndian(LittleEndian(s)) == s
  {
  }

  /** One sample on every channel. */
  function Spread(s: Sample, channels: nat): seq<Frame> {
    seq(channels, c => LittleEndian(s))
  }

  function SpreadAll(samples: seq<Sample>, channels: nat): seq<Frame> {
    seq(|samples|, i requires 0 <= i < |samples| => Flatten(Spread(samples[i], channels)))
  }

  /** `convert_playback_frame`. */
  method ConvertPlaybackFrame(input: seq<Sample>, inRate: nat, outRate: nat, channels: nat) returns (raw: Bytes)
    requires inRate > 0 && outRate > 0
    ensures raw == Flatten(SpreadAll(Resampled(input, inRate, outRate), channels))
  {
    var resampled := ResampleMonoPcm(input, inRate, outRate);
    ghost var frames := SpreadAll(resampled, channels);
    raw := [];
    assert frames[..0] == [];
    for i := 0 to |resampled|
      invariant raw == Flatten(frames[..i])
    {
      ghost var before, copies := raw, Spread(resampled[i], channels);
      assert copies[..0] == [];
      for c := 0 to channels
        invariant raw == before + Flatten(copies[..c])
      {
        FlattenSnoc(copies, c);
        raw := raw + LittleEndian(resampled[i]);
        assert before + Flatten(copies[..c]) + copies[c] == before + (Flatten(copies[..c]) + copies[c]);
      }
      assert copies[..channels] == copies;
      FlattenSnoc(frames, i);
    }
    assert frames[..|resampled|] == frames;
  }

  lemma FlattenSnoc(frames: seq<Frame>, i: nat)
    requires i < |frames|
    ensures Flatten(frames[..i + 1]) == Flatten(frames[..i]) + frames[i]
  {
    assert frames[..i + 1] == frames[..i] + [frames[i]];
    FlattenConcat(frames[..i], [frames[i]]);
    assert Flatten([frames[i]]) == frames[i];
  }

  /** Reading channel c of the converted frame gives back the resampled signal, sample by sample. */
  lemma ChannelHoldsSignal(samples: seq<Sample>, channels: nat, i: nat, c: nat)
    requires i < |samples| && c < channels
    ensures var raw := Flatten(SpreadAll(samples, channels)); var at := i * (channels * 2) + c * 2;
      && |raw| == |samples| * (channels * 2) && at + 2 <= |raw|
      && FromLittleEndian(raw[at..at + 2]) == samples[i]
  {
    var frames, copies := SpreadAll(samples, channels), Spread(samples[i], channels);
    SpreadSized(samples, channels);
    FlattenLength(frames, channels * 2);
    ChunkOfFlatten(frames, channels * 2, i);
    FlattenLength(copies, 2);
    ChunkOfFlatten(copies, 2, c);
    SliceOfSlice(Flatten(frames), i * (channels * 2), channels * 2, c * 2);
    LittleEndianRoundTrip(samples[i]);
  }

  lemma SliceOfSlice(raw: Bytes, lo: nat, size: nat, at: nat)
    requires lo + size <= |raw| && at + 2 <= size
    ensures raw[lo..lo + size][at..at + 2] == raw[lo + at..lo + at + 2]
  {
    var inner, direct := raw[lo..lo + size][at..at + 2], raw[lo + at..lo + at + 2];
    assert inner[0] == direct[0] && inner[1] == direct[1];
  }

  lemma SpreadSized(samples: seq<Sample>, channels: nat)
    ensures AllSized(SpreadAll(samples, channels), channels * 2)
  {
    forall i | 0 <= i < |samples|
      ensures |Flatten(Spread(samples[i], channels))| == channels * 2
    {
      FlattenLength(Spread(samples[i], channels), 2);
    }
  }
}
