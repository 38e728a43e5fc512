/** The energy-percentile estimate of the signal-to-noise ratio
    (`AudioAnalyzer.calculate_snr`). The per-frame RMS energies, their 20th
    percentile and `log10` are computed by NumPy/librosa and enter the model
    as inputs: the frames, the threshold, and an uninterpreted `log10`. */
module Snr {
  import opened Stats

  /** Returned when the frames cannot be split into two non-empty sides. */
  const UnseparableDb: real := 30.0
  /** Returned when the noise side carries no energy at all. */
  const SilentNoiseDb: real := 40.0

  /** `rms[rms < threshold]`: the frames taken as noise, in order. */
  function NoiseFrames(rms: seq<real>, threshold: real): (r: seq<real>)
    ensures |r| <= |rms|
    ensures forall k :: 0 <= k < |r| ==> r[k] < threshold
  {
    if rms == [] then []
    else (if rms[0] < threshold then [rms[0]] else []) + NoiseFrames(rms[1..], threshold)
  }

  /** `rms[rms >= threshold]`: the frames taken as signal, in order. */
  function SignalFrames(rms: seq<real>, threshold: real): (r: seq<real>)
    ensures |r| <= |rms|
    ensures forall k :: 0 <= k < |r| ==> r[k] >= threshold
  {
    if rms == [] then []
    else (if rms[0] >= threshold then [rms[0]] else []) + SignalFrames(rms[1..], threshold)
  }

  /** Every frame lands on exactly one side: the two sides together are a
      permutation of the frames. */
  lemma {:induction false} PartitionExact(rms: seq<real>, threshold: real)
    ensures |NoiseFrames(rms, threshold)| + |SignalFrames(rms, threshold)| == |rms|
    ensures multiset(NoiseFrames(rms, threshold)) + multiset(SignalFrames(rms, threshold)) == multiset(rms)
  {
    if rms != [] {
      PartitionExact(rms[1..], threshold);
      assert rms == [rms[0]] + rms[1..];
    }
  }

  /** Non-negative energies give non-negative noise frames. */
  lemma {:induction false} NoiseFramesNonNegative(rms: seq<real>, threshold: real)
    requires forall k :: 0 <= k < |rms| ==> rms[k] >= 0.0
    ensures forall k :: 0 <= k < |NoiseFrames(rms, threshold)| ==> NoiseFrames(rms, threshold)[k] >= 0.0
  {
    if rms != [] {
      NoiseFramesNonNegative(rms[1..], threshold);
    }
  }

  /** `np.mean(frames ** 2)`. */
  function Power(frames: seq<real>): real
    requires frames != []
  {
    Mean(Squares(frames))
  }

  /** `calculate_snr`, given the frame energies `rms`, the percentile
      `threshold` and NumPy's `log10`. */
  function EstimateSnr(rms: seq<real>, threshold: real, log10: real -> real): (snr: real)
    ensures (NoiseFrames(rms, threshold) == [] || SignalFrames(rms, threshold) == [])
            ==> snr == UnseparableDb
    ensures (&& NoiseFrames(rms, threshold) != [] && SignalFrames(rms, threshold) != []
             && Power(NoiseFrames(rms, threshold)) == 0.0)
            ==> snr == SilentNoiseDb
    ensures (&& NoiseFrames(rms, threshold) != [] && SignalFrames(rms, threshold) != []
             && Power(NoiseFrames(rms, threshold)) != 0.0)
            ==> snr == 10.0 * log10(Power(SignalFrames(rms, threshold)) / Power(NoiseFrames(rms, threshold)))
  {
    var noise := NoiseFrames(rms, threshold);
    var signal := SignalFrames(rms, threshold);
    if |noise| == 0 || |signal| == 0 then UnseparableDb
    else
      var signalPower := Power(signal);
      var noisePower := Power(noise);
      if noisePower == 0.0 then SilentNoiseDb
      else 10.0 * log10(signalPower / noisePower)
  }

  /** With non-negative energies, the noise side has zero power exactly when
      every noise frame is silent. */
  lemma NoisePowerZeroIff(rms: seq<real>, threshold: real)
    requires forall k :: 0 <= k < |rms| ==> rms[k] >= 0.0
    requires NoiseFrames(rms, threshold) != []
    ensures var noise := NoiseFrames(rms, threshold);
            Power(noise) == 0.0 <==> forall k :: 0 <= k < |noise| ==> noise[k] == 0.0
  {
    var noise := NoiseFrames(rms, threshold);
    NoiseFramesNonNegative(rms, threshold);
    var sq := Squares(noise);
    forall k | 0 <= k < |sq| ensures sq[k] >= 0.0 && (sq[k] == 0.0 <==> noise[k] == 0.0) {
      assert noise[k] >= 0.0;
      SquareZeroIff(noise[k]);
    }
    SumZeroIff(sq);
    MeanZeroIff(sq);
  }

  /** With non-negative energies, whenever both sides are non-empty the signal
      side is strictly more powerful than the noise side: the ratio handed to
      `log10` exceeds 1 and the estimate is a positive number of decibels. */
  lemma SignalDominatesNoise(rms: seq<real>, threshold: real)
    requires forall k :: 0 <= k < |rms| ==> rms[k] >= 0.0
    requires NoiseFrames(rms, threshold) != [] && SignalFrames(rms, threshold) != []
    ensures Power(SignalFrames(rms, threshold)) > Power(NoiseFrames(rms, threshold))
    ensures Power(NoiseFrames(rms, threshold)) != 0.0 ==>
            Power(SignalFrames(rms, threshold)) / Power(NoiseFrames(rms, threshold)) > 1.0
  {
    var noise := NoiseFrames(rms, threshold);
    var signal := SignalFrames(rms, threshold);
    NoiseFramesNonNegative(rms, threshold);
    assert forall k :: 0 <= k < |noise| ==> 0.0 <= noise[k] < threshold;
    assert threshold > 0.0 by {
      assert 0.0 <= noise[0] < threshold;
    }
    var t2 := threshold * threshold;
    var nsq := Squares(noise);
    var ssq := Squares(signal);
    forall k | 0 <= k < |nsq| ensures 0.0 <= nsq[k] < t2 {
      SquareBelow(noise[k], threshold);
    }
    forall k | 0 <= k < |ssq| ensures ssq[k] >= t2 {
      SquareAtLeast(signal[k], threshold);
    }
    MeanBelow(nsq, t2);
    MeanAtLeast(ssq, t2);
    MeanAtLeast(nsq, 0.0);
    if Power(noise) != 0.0 {
      RatioAboveOne(Power(signal), Power(noise));
    }
  }
}
