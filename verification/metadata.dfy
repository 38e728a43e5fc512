/** `MetadataGenerator.generate_metadata`: the record written for one audio
    file, assembled from the acoustic analysis, the optional transcript and
    the optional language analysis, plus its JSON form. */
module Metadata {
  import opened Wrappers
  import opened Labels
  import Json
  import Quality
  import Paths

  /** The acoustic results `process_file` gathers in `audio_analysis`. */
  datatype AudioAnalysis = AudioAnalysis(
    duration: real,
    sampleRate: nat,
    snrDb: real,
    noiseLevel: NoiseLevel,
    noiseConfidence: Confidence,
    speechClarity: SpeechClarity,
    clarityConfidence: Confidence,
    speakingStyle: SpeakingStyle,
    voiceActivity: real,
    clarityFeatures: Quality.ClarityFeatures,
    styleFeatures: Quality.StyleFeatures)

  /** A transcript: the stripped text and the language Whisper reports. The
      timed segments are not part of this model. */
  datatype Transcript = Transcript(text: string, language: string)

  /** The `language_analysis` dictionary of `process_file`. */
  datatype LanguageAnalysis = LanguageAnalysis(
    codeSwitching: CodeSwitch,
    vocabularyType: Vocabulary,
    normalizedText: string,
    normalizationApplied: bool,
    normalizationNotes: string)

  datatype FileInfo = FileInfo(filename: string, filePath: string, processedAt: string, fileSizeBytes: nat)

  datatype AudioProperties = AudioProperties(durationSeconds: real, sampleRate: nat)

  datatype AutomatedTags = AutomatedTags(
    noiseLevel: NoiseLevel,
    noiseLevelConfidence: Confidence,
    snrDb: real,
    speechClarity: SpeechClarity,
    speechClarityConfidence: Confidence,
    speakingStyleSuggested: SpeakingStyle,
    speakingStyleConfidence: Confidence,
    voiceActivityPercentage: real)

  datatype TranscriptionMetadata = TranscriptionMetadata(
    available: bool,
    normalizationApplied: bool,
    normalizationNotes: string,
    languageDetected: string)

  /** `codeSwitching` is `None` where the record says "unknown". */
  datatype LinguisticAnalysis = LinguisticAnalysis(
    codeSwitching: Option<CodeSwitch>,
    vocabularyTypeSuggested: Vocabulary,
    vocabularyConfidence: Confidence)

  datatype Requirement = Required | NotRequired

  datatype ManualReviewRequired = ManualReviewRequired(
    speakerGender: Requirement,
    dialect: Requirement,
    speakingStyleConfirmation: Requirement,
    vocabularyTypeConfirmation: Requirement,
    codeSwitchingConfirmation: Requirement)

  datatype AnnotationStatus = AnnotationStatus(
    automatedComplete: bool,
    humanReviewComplete: bool,
    humanAnnotator: Option<string>,
    reviewDate: Option<string>)

  datatype Record = Record(
    fileInfo: FileInfo,
    audioProperties: AudioProperties,
    automatedTags: AutomatedTags,
    acousticFeatures: Quality.ClarityFeatures,
    speakingStyleFeatures: Quality.StyleFeatures,
    text: string,
    transcriptionMetadata: TranscriptionMetadata,
    linguisticAnalysis: LinguisticAnalysis,
    manualReviewRequired: ManualReviewRequired,
    annotationStatus: AnnotationStatus,
    notes: seq<string>)

  const LowSnrNote: string := "Low SNR detected - audio quality may affect transcription"
  const ShortTranscriptNote: string := "Very short transcription - check for silence or audio issues"

  /** Below this SNR, in dB, the record warns about audio quality. */
  const LowSnrDb: real := 15.0
  /** A transcript shorter than this many characters is flagged. */
  const ShortTranscriptChars: nat := 10

  /** The `text` field: the normalised text when the language was analysed,
      else the transcript, else empty. */
  function RecordText(transcript: Option<Transcript>, language: Option<LanguageAnalysis>): (text: string)
    ensures language.Some? ==> text == language.value.normalizedText
    ensures language.None? && transcript.Some? ==> text == transcript.value.text
    ensures language.None? && transcript.None? ==> text == []
  {
    match language
    case Some(l) => l.normalizedText
    case None =>
      match transcript
      case Some(t) => t.text
      case None => []
  }

  /** The advisory notes, low SNR first. */
  function AdvisoryNotes(snrDb: real, transcript: Option<Transcript>): (notes: seq<string>)
    ensures |notes| <= 2
    ensures LowSnrNote in notes <==> snrDb < LowSnrDb
    ensures ShortTranscriptNote in notes <==>
              transcript.Some? && |transcript.value.text| < ShortTranscriptChars
    ensures |notes| == 2 ==> notes == [LowSnrNote, ShortTranscriptNote]
    ensures forall k :: 0 <= k < |notes| ==> notes[k] in {LowSnrNote, ShortTranscriptNote}
  {
    (if snrDb < LowSnrDb then [LowSnrNote] else [])
    + (if transcript.Some? && |transcript.value.text| < ShortTranscriptChars then [ShortTranscriptNote] else [])
  }

  /** `generate_metadata`. The file size and the processing time are the
      values the operating system and the clock report. */
  function GenerateMetadata(
    audioPath: string, fileSizeBytes: nat, processedAt: string,
    analysis: AudioAnalysis, transcript: Option<Transcript>, language: Option<LanguageAnalysis>)
    : (r: Record)
    ensures r.fileInfo == FileInfo(Paths.BaseName(audioPath), audioPath, processedAt, fileSizeBytes)
    ensures r.automatedTags.noiseLevel == analysis.noiseLevel
            && r.automatedTags.speechClarity == analysis.speechClarity
            && r.automatedTags.speakingStyleSuggested == analysis.speakingStyle
            && r.automatedTags.snrDb == analysis.snrDb
    ensures r.audioProperties == AudioProperties(analysis.duration, analysis.sampleRate)
    ensures r.automatedTags.noiseLevelConfidence == analysis.noiseConfidence
            && r.automatedTags.speechClarityConfidence == analysis.clarityConfidence
            && r.automatedTags.voiceActivityPercentage == analysis.voiceActivity
    ensures r.acousticFeatures == analysis.clarityFeatures && r.speakingStyleFeatures == analysis.styleFeatures
    ensures r.automatedTags.speakingStyleConfidence == Low
    ensures r.linguisticAnalysis.vocabularyConfidence == Low
    ensures r.manualReviewRequired == ManualReviewRequired(Required, Required, Required, Required, Required)
    ensures r.annotationStatus == AnnotationStatus(true, false, None, None)
    ensures r.text == RecordText(transcript, language)
    ensures r.transcriptionMetadata.available <==> transcript.Some?
    ensures r.transcriptionMetadata.normalizationApplied ==> language.Some?
    ensures language.Some? ==>
              r.transcriptionMetadata.normalizationApplied == language.value.normalizationApplied
              && r.transcriptionMetadata.normalizationNotes == language.value.normalizationNotes
    ensures language.None? ==> r.transcriptionMetadata.normalizationNotes == ""
    ensures transcript.Some? ==> r.transcriptionMetadata.languageDetected == transcript.value.language
    ensures transcript.None? ==> r.transcriptionMetadata.languageDetected == "th"
    ensures language.None? ==> r.linguisticAnalysis == LinguisticAnalysis(None, GeneralVocab, Low)
    ensures language.Some? ==>
              r.linguisticAnalysis.codeSwitching == Some(language.value.codeSwitching)
              && r.linguisticAnalysis.vocabularyTypeSuggested == language.value.vocabularyType
    ensures r.notes == AdvisoryNotes(analysis.snrDb, transcript)
  {
    Record(
      FileInfo(Paths.BaseName(audioPath), audioPath, processedAt, fileSizeBytes),
      AudioProperties(analysis.duration, analysis.sampleRate),
      AutomatedTags(
        analysis.noiseLevel, analysis.noiseConfidence, analysis.snrDb,
        analysis.speechClarity, analysis.clarityConfidence,
        analysis.speakingStyle, Low, analysis.voiceActivity),
      analysis.clarityFeatures,
      analysis.styleFeatures,
      RecordText(transcript, language),
      TranscriptionMetadata(
        transcript.Some?,
        if language.Some? then language.value.normalizationApplied else false,
        if language.Some? then language.value.normalizationNotes else "",
        if transcript.Some? then transcript.value.language else "th"),
      LinguisticAnalysis(
        if language.Some? then Some(language.value.codeSwitching) else None,
        if language.Some? then language.value.vocabularyType else GeneralVocab,
        Low),
      ManualReviewRequired(Required, Required, Required, Required, Required),
      AnnotationStatus(true, false, None, None),
      AdvisoryNotes(analysis.snrDb, transcript))
  }

  /* ---------------------------------------------------------------- */
  /* The record as JSON                                                */
  /* ---------------------------------------------------------------- */

  function OptStr(o: Option<string>): Json.Value {
    match o
    case None => Json.Null
    case Some(s) => Json.Str(s)
  }

  function RequirementJson(q: Requirement): Json.Value {
    Json.Str(if q == Required then "required" else "not_required")
  }

  function AutomatedTagsJson(t: AutomatedTags): (v: Json.Value)
    ensures v.Obj?
    ensures "speaking_style_suggested" in v.fields && "speaking_style" !in v.fields
    ensures "noise_level" in v.fields && "speech_clarity" in v.fields
    ensures v.fields["speaking_style_suggested"] == Json.Str(t.speakingStyleSuggested.Name())
    ensures v.fields["noise_level"] == Json.Str(t.noiseLevel.Name())
    ensures v.fields["speech_clarity"] == Json.Str(t.speechClarity.Name())
    ensures "code_switching" !in v.fields && "speaker_gender" !in v.fields
            && "dialect" !in v.fields && "vocabulary_type" !in v.fields
  {
    Json.Obj(map[
      "noise_level" := Json.Str(t.noiseLevel.Name()),
      "noise_level_confidence" := Json.Str(t.noiseLevelConfidence.Name()),
      "snr_db" := Json.Num(t.snrDb),
      "speech_clarity" := Json.Str(t.speechClarity.Name()),
      "speech_clarity_confidence" := Json.Str(t.speechClarityConfidence.Name()),
      "speaking_style_suggested" := Json.Str(t.speakingStyleSuggested.Name()),
      "speaking_style_confidence" := Json.Str(t.speakingStyleConfidence.Name()),
      "voice_activity_percentage" := Json.Num(t.voiceActivityPercentage)])
  }

  function LinguisticAnalysisJson(l: LinguisticAnalysis): (v: Json.Value)
    ensures v.Obj? && "code_switching" in v.fields && "vocabulary_type_suggested" in v.fields
    ensures v.fields["code_switching"] ==
              Json.Str(if l.codeSwitching.Some? then l.codeSwitching.value.Name() else "unknown")
    ensures v.fields["vocabulary_type_suggested"] == Json.Str(l.vocabularyTypeSuggested.Name())
  {
    Json.Obj(map[
      "code_switching" := Json.Str(if l.codeSwitching.Some? then l.codeSwitching.value.Name() else "unknown"),
      "vocabulary_type_suggested" := Json.Str(l.vocabularyTypeSuggested.Name()),
      "vocabulary_confidence" := Json.Str(l.vocabularyConfidence.Name())])
  }

  function AnnotationStatusJson(s: AnnotationStatus): (v: Json.Value)
    ensures v.Obj? && "human_review_complete" in v.fields && "review_date" in v.fields
    ensures v.fields["human_review_complete"] == Json.Bool(s.humanReviewComplete)
    ensures v.fields["review_date"] == OptStr(s.reviewDate)
  {
    Json.Obj(map[
      "automated_complete" := Json.Bool(s.automatedComplete),
      "human_review_complete" := Json.Bool(s.humanReviewComplete),
      "human_annotator" := OptStr(s.humanAnnotator),
      "review_date" := OptStr(s.reviewDate)])
  }

  function ClarityFeaturesJson(f: Quality.ClarityFeatures): Json.Value {
    Json.Obj(map[
      "spectral_centroid" := Json.Num(f.spectralCentroid),
      "spectral_rolloff" := Json.Num(f.spectralRolloff),
      "zero_crossing_rate" := Json.Num(f.zeroCrossingRate),
      "mfcc_std" := Json.Num(f.mfccStd),
      "spectral_flatness" := Json.Num(f.spectralFlatness)])
  }

  function StyleFeaturesJson(f: Quality.StyleFeatures): Json.Value {
    Json.Obj(map[
      "pause_count" := Json.Num(f.pauseCount as real),
      "avg_pause_duration" := Json.Num(f.avgPauseDuration),
      "speech_percentage" := Json.Num(f.speechPercentage),
      "energy_variation" := Json.Num(f.energyVariation),
      "total_duration" := Json.Num(f.totalDuration)])
  }

  /** The record as the JSON object `save_metadata` writes. */
  function ToJson(r: Record): (m: map<string, Json.Value>)
    ensures m.Keys == RecordKeys
    ensures "automated_tags" in m && m["automated_tags"] == AutomatedTagsJson(r.automatedTags)
    ensures "linguistic_analysis" in m && m["linguistic_analysis"] == LinguisticAnalysisJson(r.linguisticAnalysis)
    ensures "annotation_status" in m && m["annotation_status"] == AnnotationStatusJson(r.annotationStatus)
    ensures "text" in m && m["text"] == Json.Str(r.text)
    ensures "notes" in m && m["notes"] == Json.StrArr(r.notes)
  {
    WithTopEntries(Described(r), AutomatedTagsJson(r.automatedTags), LinguisticAnalysisJson(r.linguisticAnalysis),
                   AnnotationStatusJson(r.annotationStatus), Json.Str(r.text), Json.StrArr(r.notes))
  }

  /** The five entries `ToJson` sets after the descriptive sections. */
  function WithTopEntries(base: map<string, Json.Value>, tags: Json.Value, analysis: Json.Value,
                          status: Json.Value, text: Json.Value, notes: Json.Value): (m: map<string, Json.Value>)
    ensures m.Keys == base.Keys + {"automated_tags", "linguistic_analysis", "annotation_status", "text", "notes"}
    ensures m["automated_tags"] == tags && m["linguistic_analysis"] == analysis
    ensures m["annotation_status"] == status && m["text"] == text && m["notes"] == notes
    ensures forall k :: k in base && |k| !in {14, 19, 17, 4, 5} ==> m[k] == base[k]
  {
    TopKeysDistinct();
    base["automated_tags" := tags]["linguistic_analysis" := analysis]["annotation_status" := status]
      ["text" := text]["notes" := notes]
  }

  /** The entries `ToJson` sets last have keys of different lengths. */
  lemma TopKeysDistinct()
    ensures |"automated_tags"| == 14 && |"linguistic_analysis"| == 19 && |"annotation_status"| == 17
    ensures |"text"| == 4 && |"notes"| == 5
  {
  }

  /** The top-level entries of a written record. */
  const RecordKeys: set<string> :=
    DescribedKeys + {"automated_tags", "linguistic_analysis", "annotation_status", "text", "notes"}

  const DescribedKeys: set<string> :=
    {"file_info", "audio_properties", "acoustic_features", "speaking_style_features",
     "transcription_metadata", "manual_review_required"}

  /** The descriptive sections of the record, which the annotation tool
      only displays. */
  function Described(r: Record): (m: map<string, Json.Value>)
    ensures m.Keys == DescribedKeys
    ensures m["file_info"] == FileInfoJson(r.fileInfo)
    ensures m["audio_properties"] == AudioPropertiesJson(r.audioProperties)
  {
    map[
      "acoustic_features" := ClarityFeaturesJson(r.acousticFeatures),
      "speaking_style_features" := StyleFeaturesJson(r.speakingStyleFeatures),
      "transcription_metadata" := Json.Obj(map[
        "available" := Json.Bool(r.transcriptionMetadata.available),
        "normalization_applied" := Json.Bool(r.transcriptionMetadata.normalizationApplied),
        "normalization_notes" := Json.Str(r.transcriptionMetadata.normalizationNotes),
        "language_detected" := Json.Str(r.transcriptionMetadata.languageDetected)]),
      "manual_review_required" := Json.Obj(map[
        "speaker_gender" := RequirementJson(r.manualReviewRequired.speakerGender),
        "dialect" := RequirementJson(r.manualReviewRequired.dialect),
        "speaking_style_confirmation" := RequirementJson(r.manualReviewRequired.speakingStyleConfirmation),
        "vocabulary_type_confirmation" := RequirementJson(r.manualReviewRequired.vocabularyTypeConfirmation),
        "code_switching_confirmation" := RequirementJson(r.manualReviewRequired.codeSwitchingConfirmation)]),
      "file_info" := FileInfoJson(r.fileInfo),
      "audio_properties" := AudioPropertiesJson(r.audioProperties)]
  }

  function FileInfoJson(f: FileInfo): (v: Json.Value)
    ensures v.Obj?
  {
    Json.Obj(map[
      "filename" := Json.Str(f.filename),
      "file_path" := Json.Str(f.filePath),
      "processed_at" := Json.Str(f.processedAt),
      "file_size_bytes" := Json.Num(f.fileSizeBytes as real)])
  }

  function AudioPropertiesJson(a: AudioProperties): (v: Json.Value)
    ensures v.Obj? && "duration_seconds" in v.fields
    ensures v.fields["duration_seconds"] == Json.Num(a.durationSeconds)
  {
    Json.Obj(map[
      "duration_seconds" := Json.Num(a.durationSeconds),
      "sample_rate" := Json.Num(a.sampleRate as real)])
  }

  /** A written record holds the file information and audio properties as
      described, and no `transcription` entry. */
  lemma DescriptionKept(r: Record)
    ensures "file_info" in ToJson(r) && ToJson(r)["file_info"] == FileInfoJson(r.fileInfo)
    ensures "audio_properties" in ToJson(r) && ToJson(r)["audio_properties"] == AudioPropertiesJson(r.audioProperties)
    ensures "transcription" !in ToJson(r)
  {
    assert |"file_info"| == 9 && |"audio_properties"| == 16;
    NoTranscriptionKey();
  }

  /** A written record has no entry of the old `transcription` format: no
      top-level key is thirteen characters long. */
  lemma NoTranscriptionKey()
    ensures "transcription" !in RecordKeys
  {
    assert |"transcription"| == 13;
    forall k | k in RecordKeys ensures |k| != 13 {
      assert |"file_info"| == 9 && |"audio_properties"| == 16 && |"acoustic_features"| == 17;
      assert |"speaking_style_features"| == 23 && |"transcription_metadata"| == 22;
      assert |"manual_review_required"| == 22;
      TopKeysDistinct();
    }
  }

  /** The tagger never writes human annotations: a written record has no
      `manual_annotations` entry until the annotation tool saves one. */
  lemma NoManualAnnotations(r: Record)
    ensures "manual_annotations" !in ToJson(r)
  {
    var key := "manual_annotations";
    assert |key| == 18;
    assert |"file_info"| == 9 && |"audio_properties"| == 16 && |"acoustic_features"| == 17;
    assert |"speaking_style_features"| == 23 && |"transcription_metadata"| == 22;
    assert |"manual_review_required"| == 22;
    TopKeysDistinct();
    assert key !in RecordKeys;
  }

  /** A freshly generated record reads as not yet reviewed. */
  lemma FreshRecordUnreviewed(
    audioPath: string, fileSizeBytes: nat, processedAt: string,
    analysis: AudioAnalysis, transcript: Option<Transcript>, language: Option<LanguageAnalysis>)
    ensures var m := ToJson(GenerateMetadata(audioPath, fileSizeBytes, processedAt, analysis, transcript, language));
            m["annotation_status"].fields["human_review_complete"] == Json.Bool(false)
            && m["annotation_status"].fields["review_date"] == Json.Null
  {
  }
}
