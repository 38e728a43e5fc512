/** The threshold classifiers of `AudioAnalyzer`: noise level from the SNR,
    speech clarity from spectral features, and speaking style from pause and
    energy statistics. All comparisons are strict, as in the source. */
module Quality {
  import opened Wrappers
  import opened Labels

  /** `classify_noise_level`. */
  function ClassifyNoiseLevel(snrDb: real): (level: NoiseLevel)
    ensures level == LowNoise <==> snrDb > 25.0
    ensures level == MediumNoise <==> 15.0 < snrDb <= 25.0
    ensures level == HighNoise <==> snrDb <= 15.0
  {
    if snrDb > 25.0 then LowNoise
    else if snrDb > 15.0 then MediumNoise
    else HighNoise
  }

  /** The two boundary values fall into the noisier class. */
  lemma NoiseBoundaries()
    ensures ClassifyNoiseLevel(15.0) == HighNoise
    ensures ClassifyNoiseLevel(25.0) == MediumNoise
  {
  }

  /** The noise rank of a level: 0 for low noise up to 2 for high noise. */
  function NoiseRank(level: NoiseLevel): (rank: nat)
    ensures rank <= 2
  {
    match level
    case LowNoise => 0
    case MediumNoise => 1
    case HighNoise => 2
  }

  /** A cleaner signal is never classified as noisier. */
  lemma NoiseLevelMonotone(a: real, b: real)
    requires a <= b
    ensures NoiseRank(ClassifyNoiseLevel(b)) <= NoiseRank(ClassifyNoiseLevel(a))
  {
  }

  /** The summary features `analyze_speech_clarity` returns; librosa computes
      them, so they are inputs here. */
  datatype ClarityFeatures = ClarityFeatures(
    spectralCentroid: real,
    spectralRolloff: real,
    zeroCrossingRate: real,
    mfccStd: real,
    spectralFlatness: real)

  /** `classify_speech_clarity`: distortion is checked before muffling. */
  function ClassifySpeechClarity(f: ClarityFeatures, snrDb: real): (c: SpeechClarity)
    ensures c == DistortedSpeech <==> f.spectralFlatness > 0.5 || snrDb < 10.0
    ensures c == MuffledSpeech <==>
              f.spectralFlatness <= 0.5 && 10.0 <= snrDb < 20.0 && f.mfccStd < 10.0
    ensures c == ClearSpeech <==>
              f.spectralFlatness <= 0.5 && snrDb >= 10.0 && (snrDb >= 20.0 || f.mfccStd >= 10.0)
  {
    if f.spectralFlatness > 0.5 || snrDb < 10.0 then DistortedSpeech
    else if snrDb < 20.0 && f.mfccStd < 10.0 then MuffledSpeech
    else ClearSpeech
  }

  /** A flat spectrum or a very low SNR is distortion whatever the MFCC spread;
      an SNR of at least 20 dB with a non-flat spectrum is always clear. */
  lemma ClarityOverrides(f: ClarityFeatures, snrDb: real)
    ensures f.spectralFlatness > 0.5 || snrDb < 10.0 ==>
              forall m :: ClassifySpeechClarity(f.(mfccStd := m), snrDb) == DistortedSpeech
    ensures f.spectralFlatness <= 0.5 && snrDb >= 20.0 ==>
              ClassifySpeechClarity(f, snrDb) == ClearSpeech
  {
  }

  /** The statistics `analyze_speaking_style` returns. */
  datatype StyleFeatures = StyleFeatures(
    pauseCount: nat,
    avgPauseDuration: real,
    speechPercentage: real,
    energyVariation: real,
    totalDuration: real)

  /** Pauses per minute, `pause_count / (total_duration / 60)`. */
  function PauseRate(f: StyleFeatures): (rate: real)
    requires f.totalDuration != 0.0
    ensures f.totalDuration > 0.0 ==> rate >= 0.0
    ensures rate * f.totalDuration == 60.0 * f.pauseCount as real
  {
    f.pauseCount as real / (f.totalDuration / 60.0)
  }

  /** The message Python attaches to the `ZeroDivisionError` raised when the
      clip has zero duration. */
  const DivisionByZero: string := "float division by zero"

  /** `classify_speaking_style`: read speech needs few pauses, flat energy and
      short pauses; everything else is spontaneous. */
  function ClassifySpeakingStyle(f: StyleFeatures): (r: Result<SpeakingStyle>)
    ensures r.Failure? <==> f.totalDuration == 0.0
    ensures r.Failure? ==> r.error == DivisionByZero
    ensures r.Success? ==>
              (r.value == ReadSpeech <==>
                 PauseRate(f) < 5.0 && f.energyVariation < 0.05 && f.avgPauseDuration < 0.5)
    ensures r.Success? ==> r.value != Conversational
  {
    if f.totalDuration == 0.0 then Failure(DivisionByZero)
    else
      var pauseRate := PauseRate(f);
      if pauseRate < 5.0 && f.energyVariation < 0.05 && f.avgPauseDuration < 0.5 then
        Success(ReadSpeech)
      else if pauseRate > 5.0 && f.avgPauseDuration > 0.3 then
        Success(SpontaneousSpeech)
      else
        Success(SpontaneousSpeech)
  }

  /** With a positive duration the rate test is the integer test
      `12 * pauseCount < totalDuration`, i.e. fewer than five pauses a minute. */
  lemma ReadSpeechByCount(f: StyleFeatures)
    requires f.totalDuration > 0.0
    ensures ClassifySpeakingStyle(f) == Success(ReadSpeech) <==>
              12.0 * f.pauseCount as real < f.totalDuration
              && f.energyVariation < 0.05 && f.avgPauseDuration < 0.5
  {
    var rate := PauseRate(f);
    assert rate * f.totalDuration == 60.0 * f.pauseCount as real;
    if rate < 5.0 {
      assert rate * f.totalDuration < 5.0 * f.totalDuration;
    } else {
      assert rate * f.totalDuration >= 5.0 * f.totalDuration;
    }
  }
}
