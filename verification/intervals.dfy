/** Voice activity and pause statistics computed from the non-silent
    intervals that `librosa.effects.split` reports (`detect_voice_activity`
    and `analyze_speaking_style`). The intervals are an input: pairs of
    sample indices `[start, end)`. */
module Intervals {
  import opened Stats
  import Quality

  datatype Interval = Interval(start: int, end: int) {
    function Length(): int {
      end - start
    }
  }

  /** Non-empty intervals in increasing order, disjoint, starting at or after
      `lo` and ending by `n`: what a splitter reports for `n` samples. */
  predicate WithinFrom(iv: seq<Interval>, lo: int, n: int) {
    iv == [] || (lo <= iv[0].start < iv[0].end <= n && WithinFrom(iv[1..], iv[0].end, n))
  }

  predicate WellFormed(iv: seq<Interval>, n: int) {
    WithinFrom(iv, 0, n)
  }

  /** `sum(end - start for start, end in intervals)`. */
  function SpeechSamples(iv: seq<Interval>): int {
    if iv == [] then 0 else iv[0].Length() + SpeechSamples(iv[1..])
  }

  /** Well-formed intervals cover at least one sample each and never more
      than the stretch `[lo, n)` they lie in. */
  lemma {:induction false} SpeechSamplesBounded(iv: seq<Interval>, lo: int, n: int)
    requires WithinFrom(iv, lo, n)
    ensures |iv| <= SpeechSamples(iv)
    ensures iv != [] ==> SpeechSamples(iv) <= n - lo
  {
    if iv != [] {
      SpeechSamplesBounded(iv[1..], iv[0].end, n);
    }
  }

  /** `detect_voice_activity`: the percentage of the `n` samples that lie in
      a speech interval, or 0.0 when there is none. */
  function VoiceActivity(iv: seq<Interval>, n: int): (pct: real)
    requires iv == [] || n > 0
    ensures iv == [] ==> pct == 0.0
    ensures iv != [] ==> pct * n as real == SpeechSamples(iv) as real * 100.0
  {
    if iv == [] then 0.0
    else (SpeechSamples(iv) as real / n as real) * 100.0
  }

  /** For well-formed intervals the percentage is a genuine percentage, and
      positive exactly when some speech was found. */
  lemma VoiceActivityBounded(iv: seq<Interval>, n: int)
    requires WellFormed(iv, n)
    requires iv == [] || n > 0
    ensures 0.0 <= VoiceActivity(iv, n) <= 100.0
    ensures VoiceActivity(iv, n) > 0.0 <==> iv != []
  {
    if iv != [] {
      SpeechSamplesBounded(iv, 0, n);
      var s := SpeechSamples(iv) as real;
      var t := n as real;
      assert 0.0 < s <= t;
      assert s / t <= 1.0;
      assert s / t > 0.0;
    }
  }

  /** The silence between interval `i` and the next, in seconds. */
  function Gap(iv: seq<Interval>, i: int, sampleRate: nat): real
    requires 0 <= i < |iv| - 1
    requires sampleRate > 0
  {
    (iv[i + 1].start - iv[i].end) as real / sampleRate as real
  }

  /** Only silences longer than this many seconds count as pauses. */
  const MinPause: real := 0.1

  /** The `pauses` list of `analyze_speaking_style`: every gap between
      consecutive intervals longer than `MinPause`, in order. */
  function Pauses(iv: seq<Interval>, sampleRate: nat): (p: seq<real>)
    requires sampleRate > 0
    ensures |iv| < 2 ==> p == []
    ensures |iv| >= 2 ==> |p| <= |iv| - 1
    ensures forall k :: 0 <= k < |p| ==> p[k] > MinPause
  {
    if |iv| < 2 then []
    else
      var g := Gap(iv, 0, sampleRate);
      (if g > MinPause then [g] else []) + Pauses(iv[1..], sampleRate)
  }

  /** Every pause is the gap after some interval. */
  lemma {:induction false} PauseIsGap(iv: seq<Interval>, sampleRate: nat, k: int)
    requires sampleRate > 0
    requires 0 <= k < |Pauses(iv, sampleRate)|
    ensures exists i :: 0 <= i < |iv| - 1 && Pauses(iv, sampleRate)[k] == Gap(iv, i, sampleRate)
  {
    var g := Gap(iv, 0, sampleRate);
    if g > MinPause && k == 0 {
      assert Pauses(iv, sampleRate)[0] == Gap(iv, 0, sampleRate);
    } else {
      var j := if g > MinPause then k - 1 else k;
      assert Pauses(iv, sampleRate)[k] == Pauses(iv[1..], sampleRate)[j];
      PauseIsGap(iv[1..], sampleRate, j);
      var i :| 0 <= i < |iv[1..]| - 1 && Pauses(iv[1..], sampleRate)[j] == Gap(iv[1..], i, sampleRate);
      assert Gap(iv[1..], i, sampleRate) == Gap(iv, i + 1, sampleRate);
    }
  }

  /** No long gap is missed: every gap longer than `MinPause` is a pause. */
  lemma {:induction false} PausesComplete(iv: seq<Interval>, sampleRate: nat, i: int)
    requires sampleRate > 0
    requires 0 <= i < |iv| - 1 && Gap(iv, i, sampleRate) > MinPause
    ensures Gap(iv, i, sampleRate) in Pauses(iv, sampleRate)
  {
    if i > 0 {
      assert Gap(iv, i, sampleRate) == Gap(iv[1..], i - 1, sampleRate);
      PausesComplete(iv[1..], sampleRate, i - 1);
    }
  }

  /** Appending an interval keeps the first gap, and the last gap is the
      same seen from the second interval on. */
  lemma GapsOfSnoc(iv: seq<Interval>, x: Interval, sampleRate: nat)
    requires sampleRate > 0
    requires |iv| >= 2
    ensures Gap(iv + [x], 0, sampleRate) == Gap(iv, 0, sampleRate)
    ensures Gap(iv[1..] + [x], |iv| - 2, sampleRate) == Gap(iv + [x], |iv| - 1, sampleRate)
  {
    assert (iv + [x])[0] == iv[0] && (iv + [x])[1] == iv[1];
    assert (iv[1..] + [x])[|iv| - 2] == (iv + [x])[|iv| - 1];
    assert (iv[1..] + [x])[|iv| - 1] == (iv + [x])[|iv|];
  }

  /** One more interval adds at most one pause, at the end: the gap before
      it, when that gap is longer than `MinPause`. */
  lemma {:induction false} PausesSnoc(iv: seq<Interval>, x: Interval, sampleRate: nat)
    requires sampleRate > 0
    requires iv != []
    ensures var g := Gap(iv + [x], |iv| - 1, sampleRate);
            Pauses(iv + [x], sampleRate) == Pauses(iv, sampleRate) + (if g > MinPause then [g] else [])
  {
    var longer := iv + [x];
    var g := Gap(longer, |iv| - 1, sampleRate);
    var added := if g > MinPause then [g] else [];
    if |iv| >= 2 {
      var tail := iv[1..];
      var g0 := Gap(iv, 0, sampleRate);
      var first := if g0 > MinPause then [g0] else [];
      GapsOfSnoc(iv, x, sampleRate);
      assert Pauses(longer, sampleRate) == first + Pauses(longer[1..], sampleRate);
      assert longer[1..] == tail + [x];
      PausesSnoc(tail, x, sampleRate);
    } else {
      assert longer[1..] == [x];
    }
  }

  /** Every gap is a pause when all of them exceed `MinPause`, and none is
      when none does. */
  lemma {:induction false} PausesAllOrNone(iv: seq<Interval>, sampleRate: nat)
    requires sampleRate > 0
    requires |iv| >= 2
    ensures (forall i :: 0 <= i < |iv| - 1 ==> Gap(iv, i, sampleRate) > MinPause)
            ==> |Pauses(iv, sampleRate)| == |iv| - 1
    ensures (forall i :: 0 <= i < |iv| - 1 ==> Gap(iv, i, sampleRate) <= MinPause)
            ==> Pauses(iv, sampleRate) == []
  {
    if |iv| > 2 {
      PausesAllOrNone(iv[1..], sampleRate);
      assert forall i :: 0 <= i < |iv[1..]| - 1 ==> Gap(iv[1..], i, sampleRate) == Gap(iv, i + 1, sampleRate);
    }
  }

  /** `(pause_count, avg_pause_duration)`: zero for fewer than two intervals
      or no pause, else the number of pauses and their mean. */
  function PauseStats(iv: seq<Interval>, sampleRate: nat): (stats: (nat, real))
    requires sampleRate > 0
    ensures stats.0 == |Pauses(iv, sampleRate)|
    ensures |iv| < 2 ==> stats == (0, 0.0)
    ensures |iv| >= 2 ==> stats.0 <= |iv| - 1
    ensures stats.0 == 0 <==> stats.1 == 0.0
    ensures stats.0 > 0 ==> stats.1 > MinPause
  {
    var p := Pauses(iv, sampleRate);
    if |iv| < 2 || p == [] then (0, 0.0)
    else
      MeanAbove(p, MinPause);
      (|p|, Mean(p))
  }

  /** The pause count times the mean pause is the total pause time. */
  lemma PauseStatsSum(iv: seq<Interval>, sampleRate: nat, count: nat, mean: real)
    requires sampleRate > 0
    requires PauseStats(iv, sampleRate) == (count, mean)
    ensures mean * count as real == Sum(Pauses(iv, sampleRate))
  {
    var p := Pauses(iv, sampleRate);
    assert (count == 0 && mean == 0.0 && p == []) || (p != [] && count == |p| && mean == Mean(p));
    CountTimesMean(count, mean, p);
  }

  /** `analyze_speaking_style` for `n` samples at `sampleRate`, given the
      speech intervals and the standard deviation of the frame energies. */
  function AnalyzeSpeakingStyle(iv: seq<Interval>, n: nat, sampleRate: nat, energyVariation: real)
    : (f: Quality.StyleFeatures)
    requires sampleRate > 0
    requires iv == [] || n > 0
    ensures (f.pauseCount, f.avgPauseDuration) == PauseStats(iv, sampleRate)
    ensures f.speechPercentage == VoiceActivity(iv, n)
    ensures f.energyVariation == energyVariation
    ensures f.totalDuration >= 0.0
    ensures f.totalDuration == 0.0 <==> n == 0
    ensures f.totalDuration * sampleRate as real == n as real
  {
    var (count, avg) := PauseStats(iv, sampleRate);
    Quality.StyleFeatures(count, avg, VoiceActivity(iv, n), energyVariation, n as real / sampleRate as real)
  }

  /** Classifying the style of a clip fails exactly when it has no samples. */
  lemma StyleFailsOnlyWhenEmpty(iv: seq<Interval>, n: nat, sampleRate: nat, energyVariation: real)
    requires sampleRate > 0
    requires iv == [] || n > 0
    ensures Quality.ClassifySpeakingStyle(AnalyzeSpeakingStyle(iv, n, sampleRate, energyVariation)).Failure?
            <==> n == 0
  {
  }
}
