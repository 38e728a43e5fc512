/** `ThaiSTTAutoTagger`: processing one audio file into a metadata record,
    and a directory of files into a list of records.

    Everything the tagger asks of the outside world is a field of
    `Environment`: the file system (`fileSize`, where `None` means the file
    does not exist, and `write`, how writing a metadata file ends), the
    audio decoder together with librosa's feature extraction (`loadAudio`),
    Whisper, PyThaiNLP's normaliser, NumPy's `log10`, the clock and the
    output directory. */
module Tagger {
  import opened Wrappers
  import opened Labels
  import PyStr
  import Paths
  import Snr
  import Quality
  import Intervals
  import Language
  import Normalization
  import Metadata

  /** What the decoder and librosa report about one clip: its length in
      samples, the sample rate, the frame energies and their 20th percentile,
      the clarity features, the non-silent intervals and the spread of the
      frame energies. */
  datatype AudioMeasures = AudioMeasures(
    sampleCount: nat,
    sampleRate: nat,
    rms: seq<real>,
    rmsThreshold: real,
    clarity: Quality.ClarityFeatures,
    intervals: seq<Intervals.Interval>,
    energyVariation: real)

  /** A decoded clip has a positive sample rate, and its intervals are
      ordered, non-empty and inside the clip. */
  predicate Decoded(a: AudioMeasures) {
    a.sampleRate > 0 && Intervals.WellFormed(a.intervals, a.sampleCount)
  }

  type DecodedAudio = a: AudioMeasures | Decoded(a)
    witness AudioMeasures(0, 1, [], 0.0, Quality.ClarityFeatures(0.0, 0.0, 0.0, 0.0, 0.0), [], 0.0)

  /** Whisper's answer before the text is stripped; `language` is `None`
      when the answer has no language entry. */
  datatype WhisperResult = WhisperResult(text: string, language: Option<string>)

  /** How `save_metadata` ends for one output path: the file is written;
      `open(path, 'w')` raises, which leaves the file as it was; or
      `json.dump` raises after the open has created or truncated the file,
      which leaves it partial. */
  datatype WriteResult = Written | OpenFails(error: string) | DumpFails(error: string)

  /** `clock(path)` is what `datetime.now().isoformat()` gives while the file
      at `path` is processed. */
  datatype Environment = Environment(
    fileSize: string -> Option<nat>,
    loadAudio: string -> Result<DecodedAudio>,
    whisperAvailable: bool,
    whisper: string -> Option<WhisperResult>,
    thaiNlpAvailable: bool,
    normalizer: string -> Option<string>,
    log10: real -> real,
    clock: string -> string,
    outputDir: string,
    write: string -> WriteResult)

  /** `SpeechTranscriber.transcribe`: `None` without Whisper or when the model
      raises; otherwise the stripped text and the language, `th` by default. */
  function Transcribe(path: string, env: Environment): (t: Option<Metadata.Transcript>)
    ensures t.Some? <==> env.whisperAvailable && env.whisper(path).Some?
    ensures t.Some? ==>
              t.value.text == PyStr.Strip(env.whisper(path).value.text)
              && t.value.language == env.whisper(path).value.language.GetOr("th")
  {
    if !env.whisperAvailable then None
    else
      match env.whisper(path)
      case None => None
      case Some(w) => Some(Metadata.Transcript(PyStr.Strip(w.text), w.language.GetOr("th")))
  }

  lemma WellFormedNonEmpty(iv: seq<Intervals.Interval>, n: int)
    requires Intervals.WellFormed(iv, n)
    ensures iv == [] || n > 0
  {
  }

  /** The acoustic part of `process_file`: SNR, noise level, clarity, speaking
      style and voice activity. It fails, as the style classifier's division
      does, exactly for a clip without samples. */
  function AnalyzeAudio(a: DecodedAudio, log10: real -> real): (r: Result<Metadata.AudioAnalysis>)
    ensures r.Failure? <==> a.sampleCount == 0
    ensures r.Failure? ==> r.error == Quality.DivisionByZero
    ensures r.Success? ==>
              var snr := Snr.EstimateSnr(a.rms, a.rmsThreshold, log10);
              && r.value.snrDb == snr
              && r.value.noiseLevel == Quality.ClassifyNoiseLevel(snr)
              && r.value.speechClarity == Quality.ClassifySpeechClarity(a.clarity, snr)
              && r.value.noiseConfidence == High
              && r.value.clarityConfidence == Medium
              && r.value.speakingStyle != Conversational
              && r.value.voiceActivity == Intervals.VoiceActivity(a.intervals, a.sampleCount)
              && 0.0 <= r.value.voiceActivity <= 100.0
              && r.value.duration * a.sampleRate as real == a.sampleCount as real
  {
    WellFormedNonEmpty(a.intervals, a.sampleCount);
    var snr := Snr.EstimateSnr(a.rms, a.rmsThreshold, log10);
    var features := Intervals.AnalyzeSpeakingStyle(a.intervals, a.sampleCount, a.sampleRate, a.energyVariation);
    Intervals.StyleFailsOnlyWhenEmpty(a.intervals, a.sampleCount, a.sampleRate, a.energyVariation);
    Intervals.VoiceActivityBounded(a.intervals, a.sampleCount);
    var style :- Quality.ClassifySpeakingStyle(features);
    Success(Metadata.AudioAnalysis(
      a.sampleCount as real / a.sampleRate as real,
      a.sampleRate,
      snr,
      Quality.ClassifyNoiseLevel(snr),
      High,
      Quality.ClassifySpeechClarity(a.clarity, snr),
      Medium,
      style,
      features.speechPercentage,
      a.clarity,
      features))
  }

  /** The `language_analysis` of `process_file` for a non-empty transcript. */
  function AnalyzeLanguage(text: string, env: Environment): (l: Metadata.LanguageAnalysis)
    ensures l.codeSwitching == Language.DetectCodeSwitching(text)
    ensures l.vocabularyType == Language.AnalyzeVocabularyType(text)
    ensures l.normalizedText == Language.NormalizeText(text, env.thaiNlpAvailable, env.normalizer)
    ensures l.normalizationApplied <==> l.normalizedText != text
    ensures l.normalizationNotes == Normalization.NoChangesNote <==> !l.normalizationApplied
  {
    var normalized := Language.NormalizeText(text, env.thaiNlpAvailable, env.normalizer);
    Normalization.NoChangesIff(text, normalized);
    Metadata.LanguageAnalysis(
      Language.DetectCodeSwitching(text),
      Language.AnalyzeVocabularyType(text),
      normalized,
      normalized != text,
      Normalization.NormalizationNotes(text, normalized))
  }

  /** The outcome of `process_file`: the record and the path it is saved
      under, or the message of the exception that escaped together with the
      metadata path it left partial, if any. */
  datatype FileOutcome =
    | Processed(outputPath: string, record: Metadata.Record)
    | Failed(error: string, leftover: Option<string>)

  /** `process_file`. */
  function ProcessFile(path: string, enableTranscription: bool, env: Environment): (o: FileOutcome)
    ensures env.fileSize(path).None? ==> o == Failed("File not found: " + path, None)
    ensures env.fileSize(path).Some? && env.loadAudio(path).Failure?
            ==> o == Failed(env.loadAudio(path).error, None)
    ensures o.Processed? <==>
              env.fileSize(path).Some? && env.loadAudio(path).Success?
              && env.loadAudio(path).value.sampleCount > 0
              && env.write(Paths.MetadataPath(env.outputDir, path)).Written?
    ensures env.fileSize(path).Some? && env.loadAudio(path).Success?
            && env.loadAudio(path).value.sampleCount > 0
            && env.write(Paths.MetadataPath(env.outputDir, path)).OpenFails?
            ==> o == Failed(env.write(Paths.MetadataPath(env.outputDir, path)).error, None)
    ensures env.fileSize(path).Some? && env.loadAudio(path).Success?
            && env.loadAudio(path).value.sampleCount > 0
            && env.write(Paths.MetadataPath(env.outputDir, path)).DumpFails?
            ==> o == Failed(env.write(Paths.MetadataPath(env.outputDir, path)).error,
                            Some(Paths.MetadataPath(env.outputDir, path)))
    ensures o.Failed? && o.leftover.Some? ==> env.write(Paths.MetadataPath(env.outputDir, path)).DumpFails?
    ensures o.Processed? ==> o.outputPath == Paths.MetadataPath(env.outputDir, path)
    ensures o.Processed? ==> o.record.fileInfo.processedAt == env.clock(path)
    ensures o.Processed? ==>
              (o.record.transcriptionMetadata.available <==>
                 enableTranscription && env.whisperAvailable && env.whisper(path).Some?)
    ensures o.Processed? ==>
              (o.record.linguisticAnalysis.codeSwitching.Some? <==>
                 enableTranscription && env.whisperAvailable && env.whisper(path).Some?
                 && PyStr.Strip(env.whisper(path).value.text) != [])
    ensures o.Processed? ==> o.record.annotationStatus.humanReviewComplete == false
  {
    match env.fileSize(path)
    case None => Failed("File not found: " + path, None)
    case Some(size) =>
      match env.loadAudio(path)
      case Failure(e) => Failed(e, None)
      case Success(audio) =>
        match AnalyzeAudio(audio, env.log10)
        case Failure(e) => Failed(e, None)
        case Success(analysis) =>
          var transcript := if enableTranscription && env.whisperAvailable then Transcribe(path, env) else None;
          var language :=
            if transcript.Some? && transcript.value.text != [] then Some(AnalyzeLanguage(transcript.value.text, env))
            else None;
          var record := Metadata.GenerateMetadata(path, size, env.clock(path), analysis, transcript, language);
          Paths.BaseNameIdempotent(path);
          var output := Paths.MetadataPath(env.outputDir, Paths.BaseName(path));
          match env.write(output)
          case Written => Processed(output, record)
          case OpenFails(e) => Failed(e, None)
          case DumpFails(e) => Failed(e, Some(output))
  }

  /** A transcription that fails only loses the transcript: the file is still
      processed, with the acoustic tags intact, unless writing it fails. */
  lemma TranscriptionFailureIsNotFatal(path: string, enableTranscription: bool, env: Environment)
    requires env.fileSize(path).Some? && env.loadAudio(path).Success?
    requires env.loadAudio(path).value.sampleCount > 0
    requires env.whisper(path).None?
    ensures ProcessFile(path, enableTranscription, env).Processed?
            <==> env.write(Paths.MetadataPath(env.outputDir, path)).Written?
    ensures ProcessFile(path, enableTranscription, env).Processed?
            ==> ProcessFile(path, enableTranscription, env).record.text == []
    ensures ProcessFile(path, enableTranscription, env)
            == ProcessFile(path, enableTranscription, env.(whisperAvailable := false))
  {
    var quiet := env.(whisperAvailable := false);
    SameAsWithoutWhisper(path, enableTranscription, env);
    NoWhisperNoText(path, enableTranscription, quiet);
  }

  /** With Whisper failing on the file, the outcome is the one without
      Whisper. */
  lemma SameAsWithoutWhisper(path: string, enableTranscription: bool, env: Environment)
    requires env.whisper(path).None?
    ensures ProcessFile(path, enableTranscription, env)
            == ProcessFile(path, enableTranscription, env.(whisperAvailable := false))
  {
    var quiet := env.(whisperAvailable := false);
    assert Transcribe(path, env).None?;
    assert quiet.fileSize == env.fileSize && quiet.loadAudio == env.loadAudio && quiet.log10 == env.log10;
    assert quiet.clock == env.clock && quiet.outputDir == env.outputDir && quiet.write == env.write;
  }

  /** Without Whisper a processed record has no text. */
  lemma NoWhisperNoText(path: string, enableTranscription: bool, env: Environment)
    requires !env.whisperAvailable
    ensures ProcessFile(path, enableTranscription, env).Processed?
            ==> ProcessFile(path, enableTranscription, env).record.text == []
  {
  }

  /* ---------------------------------------------------------------- */
  /* process_directory                                                 */
  /* ---------------------------------------------------------------- */

  function Outcomes(files: seq<string>, enableTranscription: bool, env: Environment): (os: seq<FileOutcome>)
    ensures |os| == |files|
    ensures forall i :: 0 <= i < |files| ==> os[i] == ProcessFile(files[i], enableTranscription, env)
  {
    seq(|files|, i requires 0 <= i < |files| => ProcessFile(files[i], enableTranscription, env))
  }

  /** The records of the processed files, in order. */
  function Successes(os: seq<FileOutcome>): (records: seq<Metadata.Record>)
    ensures |records| <= |os|
  {
    if os == [] then []
    else Successes(os[..|os| - 1]) + (if os[|os| - 1].Processed? then [os[|os| - 1].record] else [])
  }

  function FailureCount(os: seq<FileOutcome>): (n: nat)
    ensures n <= |os|
  {
    if os == [] then 0
    else FailureCount(os[..|os| - 1]) + (if os[|os| - 1].Failed? then 1 else 0)
  }

  /** Every outcome is counted once, as a success or as a failure. */
  lemma {:induction false} OutcomesCounted(os: seq<FileOutcome>)
    ensures |Successes(os)| + FailureCount(os) == |os|
  {
    if os != [] {
      OutcomesCounted(os[..|os| - 1]);
    }
  }

  /** Failure isolation: the successes of a batch are the successes of its
      parts, so a failing file changes nothing for the files around it. */
  lemma {:induction false} SuccessesAppend(a: seq<FileOutcome>, b: seq<FileOutcome>)
    ensures Successes(a + b) == Successes(a) + Successes(b)
  {
    if b == [] {
      assert a + b == a;
    } else {
      SuccessesAppend(a, b[..|b| - 1]);
      assert (a + b)[..|a + b| - 1] == a + b[..|b| - 1];
    }
  }

  /** A processed file's record is among the results, whatever the other
      files do. */
  lemma ProcessedFileKept(os: seq<FileOutcome>, i: int)
    requires 0 <= i < |os| && os[i].Processed?
    ensures os[i].record in Successes(os)
  {
    assert os == os[..i] + [os[i]] + os[i + 1..];
    SuccessesAppend(os[..i] + [os[i]], os[i + 1..]);
    SuccessesAppend(os[..i], [os[i]]);
    assert Successes([os[i]]) == Successes([]) + [os[i].record];
  }

  /** What a metadata file holds: a whole record, or the partial text a
      `json.dump` that raised left behind. */
  datatype Contents = Complete(record: Metadata.Record) | Partial

  /** Whether an outcome touched a metadata file, and which one. */
  predicate Writes(o: FileOutcome) {
    o.Processed? || o.leftover.Some?
  }

  function WrittenPath(o: FileOutcome): string
    requires Writes(o)
  {
    if o.Processed? then o.outputPath else o.leftover.value
  }

  /** What a write leaves in its file. */
  function Written(o: FileOutcome): (c: Contents)
    requires Writes(o)
    ensures c.Complete? <==> o.Processed?
    ensures o.Processed? ==> c.record == o.record
  {
    if o.Processed? then Complete(o.record) else Partial
  }

  /** The metadata files after a batch, `Store(disk, Outcomes(files, ...))`,
      starting from the files `disk` already holds: each outcome that
      touched a file replaces its contents, later files overwriting earlier
      ones. */
  function Store(disk: map<string, Contents>, os: seq<FileOutcome>): map<string, Contents> {
    if os == [] then disk
    else
      var before := Store(disk, os[..|os| - 1]);
      var last := os[|os| - 1];
      if Writes(last) then before[WrittenPath(last) := Written(last)] else before
  }

  /** A path holds what the last outcome that touched it left: the record of
      a processed file, or partial text after a failed dump, whatever it
      held before. */
  lemma {:induction false} StoreLastWriterWins(disk: map<string, Contents>, os: seq<FileOutcome>, i: int)
    requires 0 <= i < |os| && Writes(os[i])
    requires forall j :: i < j < |os| ==> !(Writes(os[j]) && WrittenPath(os[j]) == WrittenPath(os[i]))
    ensures WrittenPath(os[i]) in Store(disk, os)
    ensures Store(disk, os)[WrittenPath(os[i])] == Written(os[i])
  {
    if i < |os| - 1 {
      StoreLastWriterWins(disk, os[..|os| - 1], i);
    }
  }

  /** A path no outcome touched keeps what it held before the batch. */
  lemma {:induction false} StoreKeepsUntouched(disk: map<string, Contents>, os: seq<FileOutcome>, p: string)
    requires forall i :: 0 <= i < |os| ==> !(Writes(os[i]) && WrittenPath(os[i]) == p)
    ensures p in Store(disk, os) <==> p in disk
    ensures p in disk ==> Store(disk, os)[p] == disk[p]
  {
    if os != [] {
      StoreKeepsUntouched(disk, os[..|os| - 1], p);
    }
  }

  /** A complete record in a metadata file is either one that was there
      before the batch or the record of a processed file written to that
      path: a failed file never leaves a complete record. */
  lemma {:induction false} StoreOnlyProcessed(disk: map<string, Contents>, os: seq<FileOutcome>, p: string)
    requires p in Store(disk, os) && Store(disk, os)[p].Complete?
    ensures || (p in disk && Store(disk, os)[p] == disk[p])
            || exists i :: 0 <= i < |os| && os[i].Processed? && os[i].outputPath == p
                           && os[i].record == Store(disk, os)[p].record
  {
    if os != [] {
      var init := os[..|os| - 1];
      var last := os[|os| - 1];
      if Writes(last) && WrittenPath(last) == p {
        assert last.Processed?;
      } else {
        StoreOnlyProcessed(disk, init, p);
        if !(p in disk && Store(disk, os)[p] == disk[p]) {
          var i :| 0 <= i < |init| && init[i].Processed? && init[i].outputPath == p
                   && init[i].record == Store(disk, init)[p].record;
          assert os[i] == init[i];
        }
      }
    }
  }

  /** A file whose dump fails leaves partial text at its metadata path,
      destroying any record an earlier run left there, unless a later file
      writes to that path. */
  lemma DumpFailureTruncates(disk: map<string, Contents>, files: seq<string>, enableTranscription: bool,
                             env: Environment, i: int)
    requires 0 <= i < |files|
    requires var o := ProcessFile(files[i], enableTranscription, env); o.Failed? && o.leftover.Some?
    requires forall j :: i < j < |files| ==>
               Paths.MetadataPath(env.outputDir, files[j]) != Paths.MetadataPath(env.outputDir, files[i])
    ensures var p := Paths.MetadataPath(env.outputDir, files[i]);
            p in Store(disk, Outcomes(files, enableTranscription, env))
            && Store(disk, Outcomes(files, enableTranscription, env))[p] == Partial
  {
    var os := Outcomes(files, enableTranscription, env);
    TouchesOwnPath(files[i], enableTranscription, env);
    forall j | i < j < |os| ensures !(Writes(os[j]) && WrittenPath(os[j]) == WrittenPath(os[i])) {
      TouchesOwnPath(files[j], enableTranscription, env);
    }
    StoreLastWriterWins(disk, os, i);
  }

  /** A file's outcome touches no metadata file but its own. */
  lemma TouchesOwnPath(path: string, enableTranscription: bool, env: Environment)
    ensures var o := ProcessFile(path, enableTranscription, env);
            Writes(o) ==> WrittenPath(o) == Paths.MetadataPath(env.outputDir, path)
  {
  }

  /** One more outcome extends the results, the counts and the store. */
  lemma PrefixStep(os: seq<FileOutcome>, i: int)
    requires 0 <= i < |os|
    ensures Successes(os[..i + 1]) == Successes(os[..i]) + (if os[i].Processed? then [os[i].record] else [])
    ensures FailureCount(os[..i + 1]) == FailureCount(os[..i]) + (if os[i].Failed? then 1 else 0)
  {
    assert os[..i + 1][..i] == os[..i];
  }

  /** The loop of `process_directory` over the outcomes of its files: a
      success appends the record, a failure is only counted. */
  method Tally(os: seq<FileOutcome>) returns (results: seq<Metadata.Record>, successful: nat, failed: nat)
    ensures results == Successes(os)
    ensures successful == |results|
    ensures failed == FailureCount(os)
    ensures successful + failed == |os|
  {
    results, successful, failed := [], 0, 0;
    var i := 0;
    while i < |os|
      invariant 0 <= i <= |os|
      invariant results == Successes(os[..i])
      invariant successful == |results|
      invariant failed == FailureCount(os[..i])
    {
      PrefixStep(os, i);
      match os[i] {
        case Processed(_, record) =>
          results := results + [record];
          successful := successful + 1;
        case Failed(_, _) =>
          failed := failed + 1;
      }
      i := i + 1;
    }
    assert os[..|os|] == os;
    OutcomesCounted(os);
  }

  /** `process_directory` over the files the glob matched, in glob order:
      every file is tried, and a failing file is counted and skipped. */
  method ProcessDirectory(files: seq<string>, enableTranscription: bool, env: Environment)
    returns (results: seq<Metadata.Record>, successful: nat, failed: nat)
    ensures results == Successes(Outcomes(files, enableTranscription, env))
    ensures failed == FailureCount(Outcomes(files, enableTranscription, env))
    ensures successful == |results| && successful + failed == |files|
    ensures files == [] ==> results == []
  {
    results, successful, failed := Tally(Outcomes(files, enableTranscription, env));
  }
}
