# KUThaiSTT auto-tagger and annotation rules in Dafny

This project models two parts of KUThaiSTT, a toolkit for labelling Thai speech recordings.

**The auto-tagger** (`thai_stt_auto_tagger.py`) turns measurements of a recording and its transcript into labels and a metadata record. The model covers:
- the noise, clarity and speaking-style labels;
- the signal-to-noise estimate and the voice-activity and pause arithmetic;
- the code-switching and vocabulary-domain heuristics and the text-normalisation fallback;
- the normalisation notes;
- the assembly of the metadata record and its output path;
- the per-file pipeline and the directory loop.

**The annotation tool** (`annotation_gui.py`) lets a person review such a record. The model covers its rules without the widgets:
- how the file list is labelled, filtered, counted and clicked;
- which value each form field starts from;
- how the notes box becomes a list;
- how a save rewrites the record.

Everything the original gets from librosa, Whisper, PyThaiNLP, the clock or the file system is a parameter of the model:
- frame energies, the noise threshold and speech intervals;
- `log10`;
- the transcriber and the normaliser;
- file sizes, decoded audio and how writing a metadata file ends (written, `open` fails, or `json.dump` fails after `open` truncated the file);
- the timestamp of each processed file, the save time and the annotator name.

Modules:

| module | file | contents |
|---|---|---|
| `Wrappers` | wrappers.dfy | `Option` and `Result` |
| `PyStr` | pystr.dfy | the Python `str` operations the source uses: `strip`, `lower`, `in`, `split`, `join` |
| `Json` | json.dfy | decoded JSON values, truthiness, `dict.get` |
| `Stats` | stats.dfy | sums, means and squares over `real` |
| `Labels` | labels.dfy | the label vocabularies and their JSON spellings |
| `Quality` | quality.dfy | `AudioAnalyzer`'s classifiers |
| `Snr` | snr.dfy | `calculate_snr` |
| `Intervals` | intervals.dfy | `detect_voice_activity`, `analyze_speaking_style` |
| `Language` | language.dfy | `LanguageAnalyzer` |
| `Normalization` | normalization.dfy | `_get_normalization_notes` |
| `Paths` | paths.dfy | `Path.name`, `Path.stem`, the metadata file name |
| `Metadata` | metadata.dfy | `MetadataGenerator` and the record's JSON shape |
| `Tagger` | tagger.dfy | `process_file` and `process_directory` |
| `Annotation` | annotation.dfy | `AnnotationGUI`'s record logic |

## Model

| member | source | states |
|---|---|---|
| Quality.ClassifyNoiseLevel | thai_stt_auto_tagger.py:193-203 | `low_noise` exactly above 25 dB, `medium_noise` exactly in (15, 25], `high_noise` exactly at or below 15 dB |
| Quality.NoiseBoundaries | thai_stt_auto_tagger.py:198-203 | the comparisons are strict: exactly 15.0 dB is `high_noise` and exactly 25.0 dB is `medium_noise` |
| Quality.NoiseLevelMonotone | thai_stt_auto_tagger.py:193-203 | a higher SNR never gives a noisier label |
| Quality.ClassifySpeechClarity | thai_stt_auto_tagger.py:230-244 | distorted exactly when flatness > 0.5 or SNR < 10; muffled exactly when not distorted, SNR < 20 and MFCC spread < 10; clear otherwise |
| Quality.ClarityOverrides | thai_stt_auto_tagger.py:237-244 | distortion wins whatever the MFCC spread; flatness ≤ 0.5 with SNR ≥ 20 is always clear |
| Quality.PauseRate | thai_stt_auto_tagger.py:307 | pauses per minute: rate × duration = 60 × pauses, non-negative for a positive duration |
| Quality.ClassifySpeakingStyle | thai_stt_auto_tagger.py:302-320 | fails with Python's division-by-zero message exactly for a zero duration; otherwise read speech exactly when rate < 5, energy variation < 0.05 and mean pause < 0.5; never `conversational` |
| Quality.ReadSpeechByCount | thai_stt_auto_tagger.py:307-313 | the read-speech rule without division: 12 × pauses < duration (in seconds) and the two other limits |
| Snr.NoiseFrames | thai_stt_auto_tagger.py:178 | every noise frame lies strictly below the threshold |
| Snr.SignalFrames | thai_stt_auto_tagger.py:179 | every signal frame lies at or above the threshold |
| Snr.PartitionExact | thai_stt_auto_tagger.py:178-179 | noise and signal frames together are the input frames, as a multiset |
| Snr.NoiseFramesNonNegative | thai_stt_auto_tagger.py:172-178 | non-negative energies give non-negative noise frames |
| Snr.EstimateSnr | thai_stt_auto_tagger.py:165-191 | 30.0 when either side is empty, 40.0 when the noise power is zero, 10·log10(signal power / noise power) otherwise |
| Snr.NoisePowerZeroIff | thai_stt_auto_tagger.py:184-188 | the 40.0 case happens exactly when every noise frame is silent |
| Snr.SignalDominatesNoise | thai_stt_auto_tagger.py:181-191 | when both sides are present, signal power exceeds noise power, so the ratio passed to log10 is above one |
| Intervals.SpeechSamplesBounded | thai_stt_auto_tagger.py:257 | ordered, disjoint, in-range intervals cover at least one sample each and no more than the recording |
| Intervals.VoiceActivity | thai_stt_auto_tagger.py:246-261 | 0.0 without intervals; otherwise percentage × length = covered samples × 100 |
| Intervals.VoiceActivityBounded | thai_stt_auto_tagger.py:254-261 | for well-formed intervals the percentage lies in [0, 100] and is positive exactly when there is an interval |
| Intervals.Pauses | thai_stt_auto_tagger.py:271-282 | no pauses with fewer than two intervals; otherwise at most one per gap, each longer than 0.1 s |
| Intervals.PauseIsGap | thai_stt_auto_tagger.py:276-282 | every pause is the gap after some interval |
| Intervals.PausesComplete | thai_stt_auto_tagger.py:276-282 | every gap longer than 0.1 s is among the pauses |
| Intervals.PausesSnoc | thai_stt_auto_tagger.py:276-282 | one more interval appends at most one pause, at the end: the new gap exactly when it exceeds 0.1 s, so pauses keep the order of the gaps |
| Intervals.PausesAllOrNone | thai_stt_auto_tagger.py:276-282 | every gap over 0.1 s gives one pause per gap; no gap over 0.1 s gives none |
| Intervals.PauseStats | thai_stt_auto_tagger.py:271-284 | count and mean are (0, 0.0) for fewer than two intervals; the count is zero exactly when the mean is; a non-zero mean exceeds 0.1 s |
| Intervals.PauseStatsSum | thai_stt_auto_tagger.py:283-284 | the pause count times the mean pause is the sum of the pauses |
| Intervals.AnalyzeSpeakingStyle | thai_stt_auto_tagger.py:263-300 | the style features: pause statistics, voice activity, energy variation, and a duration of samples / rate that is zero exactly for an empty recording |
| Intervals.StyleFailsOnlyWhenEmpty | thai_stt_auto_tagger.py:299-307 | style classification of measured features raises exactly for an empty recording |
| Language.ThaiIsNotLatin | thai_stt_auto_tagger.py:373-374 | no character counts both as Thai and as Latin |
| Language.DetectCodeSwitching | thai_stt_auto_tagger.py:364-387 | code-switching exactly when there are Thai or Latin letters and 20 × Latin ≥ Thai + Latin; empty text never switches |
| Language.PercentThreshold | thai_stt_auto_tagger.py:381-384 | the source's percentage test against 5 is the integer test 20 × Latin ≥ total |
| Language.PureTextsDecided | thai_stt_auto_tagger.py:364-387 | all-Thai text never switches; text with Latin letters and no Thai always does |
| Language.CountFoundIsCardinality | thai_stt_auto_tagger.py:416-418 | a domain count is the number of distinct keywords found in the text |
| Language.KeywordListsDistinct | thai_stt_auto_tagger.py:399-412 | each keyword list holds twelve different keywords |
| Language.CountDomains | thai_stt_auto_tagger.py:416-418 | each domain count is at most twelve |
| Language.DecideVocabulary | thai_stt_auto_tagger.py:420-440 | with a maximum of at least 3: medical, then technical, then business among the domains reaching it; below 3: mixed exactly when two domains have at least two keywords, general otherwise |
| Language.DomainWinnerIsMaximal | thai_stt_auto_tagger.py:420-428 | the winning domain has the largest count, and a maximum of 3 or more never gives mixed or general |
| Language.AnalyzeVocabularyType | thai_stt_auto_tagger.py:389-440 | empty text is general vocabulary; otherwise the decision on the counts in the lower-cased text |
| Language.VocabularyCaseInsensitive | thai_stt_auto_tagger.py:396 | lower-casing the text first changes nothing |
| Language.EmptyTextGuardRedundant | thai_stt_auto_tagger.py:394-395 | the empty-text guard agrees with what the counting would give |
| Language.NormalizeText | thai_stt_auto_tagger.py:442-455 | the text is unchanged without the normaliser, for empty text, or when the call fails; otherwise it is the normaliser's answer |
| Language.NormalizeTextChanges | thai_stt_auto_tagger.py:444-452 | the text changes exactly when the normaliser is available, the text is non-empty and the normaliser answers with a different text |
| Normalization.Changes | thai_stt_auto_tagger.py:774-796 | one note per change found: length change exactly for different lengths, digits exactly when the original has one, whitespace exactly for a double space, newline or tab, zero-width space exactly when present; the fallback note exactly when none apply and then alone |
| Normalization.NormalizationNotes | thai_stt_auto_tagger.py:769-798 | equal texts give the fixed message; different texts give the notes joined by "; " |
| Normalization.NoChangesIff | thai_stt_auto_tagger.py:771-798 | the fixed message appears exactly when the texts are equal |
| Paths.BaseName | thai_stt_auto_tagger.py:473 | `Path(p).name` is the separator-free suffix after the last `/` |
| Paths.BaseNameIdempotent | thai_stt_auto_tagger.py:473 | taking the base name twice changes nothing |
| Paths.Stem | thai_stt_auto_tagger.py:533 | the stem drops the last suffix, whose dot is neither first nor last |
| Paths.StemOfSuffixed | thai_stt_auto_tagger.py:533 | the stem of `base.ext` is `base` |
| Paths.MetadataPath | thai_stt_auto_tagger.py:533-534 | the output is `<dir>/<stem>_metadata.json` |
| Paths.MetadataPathCollides | thai_stt_auto_tagger.py:533-534 | two recordings write the same file exactly when their names share a stem |
| Paths.SameStemOverwrites | thai_stt_auto_tagger.py:533-534 | `song.mp3` and `song.wav` overwrite each other's metadata (the tagger passes the base name at line 745) |
| Metadata.RecordText | thai_stt_auto_tagger.py:494 | the record text is the normalised text, else the transcript, else empty |
| Metadata.AdvisoryNotes | thai_stt_auto_tagger.py:522-527 | at most two notes in fixed order: low SNR exactly below 15 dB, short transcript exactly for a transcript under 10 characters |
| Metadata.GenerateMetadata | thai_stt_auto_tagger.py:465-529 | file info from the path; duration, sample rate, the audio labels, their confidences, voice activity and both feature sets copied; style and vocabulary confidences `low`; all five reviews required; status automated-complete and not reviewed; normalisation flag and notes from the language analysis, else false and empty; detected language from the transcript, else `th`; language fields `unknown`/`general_vocab` without analysis |
| Metadata.AutomatedTagsJson | thai_stt_auto_tagger.py:482-491 | the style suggestion is stored under `speaking_style_suggested`, never `speaking_style`, and the tags hold no manual field |
| Metadata.LinguisticAnalysisJson | thai_stt_auto_tagger.py:501-505 | code-switching is spelled out or `unknown`; the vocabulary suggestion is spelled out |
| Metadata.AnnotationStatusJson | thai_stt_auto_tagger.py:513-518 | review flag and review date as JSON, null for no date |
| Metadata.ToJson | thai_stt_auto_tagger.py:471-520 | the saved object has exactly the record's top-level keys, with the tags, analysis, status, text and notes in place |
| Metadata.NoManualAnnotations | thai_stt_auto_tagger.py:471-520 | a generated record has no `manual_annotations` entry |
| Metadata.DescriptionKept | thai_stt_auto_tagger.py:472-481 | a saved record holds the file information and audio properties it was given, as objects, and no `transcription` entry |
| Metadata.FreshRecordUnreviewed | thai_stt_auto_tagger.py:513-518 | a freshly saved record reads as not reviewed, with a null date |
| Tagger.Transcribe | thai_stt_auto_tagger.py:335-355 | a transcript exactly when Whisper is present and answers; its text stripped, its language `th` by default |
| Tagger.AnalyzeAudio | thai_stt_auto_tagger.py:648-691 | fails exactly for an empty recording; otherwise the SNR and its labels, confidences `high`/`medium`, never `conversational`, voice activity in [0, 100] |
| Tagger.AnalyzeLanguage | thai_stt_auto_tagger.py:708-726 | the three text analyses; normalisation counts as applied exactly when the text changed, and then the notes are not the fixed message |
| Tagger.ProcessFile | thai_stt_auto_tagger.py:601-767 | a missing file, a load error or a failed metadata write fails with its message, and only a failed dump leaves a partial file at the stem path; otherwise a record, stamped with the clock's time for that file, written to the stem path; transcription present exactly when enabled, available and answered; language analysis exactly when the stripped transcript is non-empty |
| Tagger.TranscriptionFailureIsNotFatal | thai_stt_auto_tagger.py:353-355 | a failing transcriber does not change the outcome: it is the one without Whisper, a record with empty text unless the write fails (the gate at lines 697-731) |
| Tagger.SameAsWithoutWhisper | thai_stt_auto_tagger.py:697-700 | with Whisper failing on the file, the outcome equals the one without Whisper |
| Tagger.NoWhisperNoText | thai_stt_auto_tagger.py:494 | without Whisper a processed record has empty text |
| Tagger.Outcomes | thai_stt_auto_tagger.py:825-831 | one outcome per file, in order |
| Tagger.OutcomesCounted | thai_stt_auto_tagger.py:821-840 | successes plus failures is the number of files |
| Tagger.SuccessesAppend | thai_stt_auto_tagger.py:825-840 | results of two batches concatenate |
| Tagger.ProcessedFileKept | thai_stt_auto_tagger.py:830-833 | every processed file's record is among the results |
| Tagger.StoreLastWriterWins | thai_stt_auto_tagger.py:825-840 | a metadata path holds what the last file that touched it left, whatever it held before: the record if processed, partial text if its dump failed (each `open(…, 'w')` at lines 536-537 truncates) |
| Tagger.StoreKeepsUntouched | thai_stt_auto_tagger.py:825-840 | a path no file touched keeps what it held before the batch |
| Tagger.StoreOnlyProcessed | thai_stt_auto_tagger.py:825-840 | a complete record at a path is either the one there before the batch or the record of a processed file written there; a failed file never leaves a complete record (it leaves nothing, or partial text after a failed dump) |
| Tagger.TouchesOwnPath | thai_stt_auto_tagger.py:531-537 | a file's outcome touches no metadata file but its own stem path |
| Tagger.DumpFailureTruncates | thai_stt_auto_tagger.py:534-537 | a file whose dump fails leaves partial text at its metadata path, destroying an earlier run's record there, unless a later file of the batch writes that path |
| Tagger.Tally | thai_stt_auto_tagger.py:821-840 | the loop: the results are the successful records in order; one failure never stops the loop; counts add up |
| Tagger.ProcessDirectory | thai_stt_auto_tagger.py:800-856 | the results are the successful records in file order; successes plus failures is the number of files; no files give no results |
| Annotation.Section | annotation_gui.py:553-575 | a missing section reads as empty; a present non-object section raises |
| Annotation.ReviewDate | annotation_gui.py:363-375 | a date is shown only for a reviewed file |
| Annotation.DisplayName | annotation_gui.py:366-384 | the line is a tick for a reviewed file or a circle otherwise, a space, the name, and ` [date]` exactly when a date reads |
| Annotation.Visible | annotation_gui.py:353-357 | every file shown passes the filter and every file that passes is shown: the lower-cased filter is empty or occurs in the lower-cased name |
| Annotation.VisibleAppend | annotation_gui.py:353-357 | filtering two runs of files is filtering each run in turn: directory order is kept and nothing is repeated or dropped |
| Annotation.VisibleFoldsLatin1 | annotation_gui.py:353-356 | the filter `ä` shows the file `Ä.json` |
| Annotation.Listing | annotation_gui.py:355-386 | one display line per listed file |
| Annotation.FilterIgnoresCase | annotation_gui.py:353 | lower-casing the filter first shows the same files |
| Annotation.EmptyFilterShowsAll | annotation_gui.py:356 | an empty search box lists every file |
| Annotation.ParseDisplayName | annotation_gui.py:430-434 | the parsed name is a prefix of the line after the icon and holds no ` [` |
| Annotation.DisplayNameRoundTrip | annotation_gui.py:366-384 | parsing a line gives back any non-empty name without ` [` |
| Annotation.SelectAsWritten | annotation_gui.py:430-440 | the parsed name opens that file; an unknown name leaves the previous file current |
| Annotation.SelectAsWrittenMissesBracketedName | annotation_gui.py:430-440 | clicking `a [1].json` keeps `b.json` open |
| Annotation.Select | annotation_gui.py:424-440 | the clicked line is the line of the file it opens |
| Annotation.SelectOpensClickedFile | annotation_gui.py:424-440 | the opened file's name is the one shown on the clicked line |
| Annotation.ReviewedCount | annotation_gui.py:397-404 | the reviewed count is at most the number of files |
| Annotation.ReviewedCountExtremes | annotation_gui.py:397-404 | the count equals the total exactly when every file is reviewed, and is zero exactly when none is |
| Annotation.ReviewStats | annotation_gui.py:392-406 | total and reviewed ≤ total; a percentage in [0, 100] exactly when there are files, and 100 exactly when all are reviewed |
| Annotation.ReviewingOneFile | annotation_gui.py:392-406 | saving a pending file raises the count by one; saving a reviewed file leaves it (a save sets the flag at line 732) |
| Annotation.ReadSections | annotation_gui.py:553-575 | the three sections read exactly when none of them is a non-object |
| Annotation.Resolve | annotation_gui.py:581-611 | the pre-fill value is the default or the value of a present source |
| Annotation.ResolveFirstPresent | annotation_gui.py:581-611 | the first present source wins, however falsy its value |
| Annotation.Coerce | annotation_gui.py:649-653 | the field starts empty or at one of its options; a string option is kept; anything else becomes empty |
| Annotation.Form | annotation_gui.py:553-613 | the form has one entry per field name |
| Annotation.PrefillWith | annotation_gui.py:474-613 | the form exists exactly when the header shows (the record is non-empty; the status, `file_info` and `audio_properties` entries are objects or missing; the duration is a number or a boolean or missing; a falsy `text` falls back to a `transcription` object or a missing one) and the sections read; it holds one entry per field, and every value is empty or offered |
| Annotation.FormValuesOffered | annotation_gui.py:649-653 | every pre-filled value is empty or one of its field's options |
| Annotation.FieldNamesDistinct | annotation_gui.py:556-613 | the form's field names are different in both modes |
| Annotation.Prefill | annotation_gui.py:474-613 | the corrected pre-fill: a form exactly when the header shows (the record is non-empty; the status, `file_info` and `audio_properties` entries are objects or missing; the duration is a number or a boolean or missing; a falsy `text` falls back to a `transcription` object or a missing one) and the sections read; one entry per field, each value empty or offered |
| Annotation.PrefillAsWritten | annotation_gui.py:474-613 | the pre-fill as written: a form exactly when the header shows (the record is non-empty; the status, `file_info` and `audio_properties` entries are objects or missing; the duration is a number or a boolean or missing; a falsy `text` falls back to a `transcription` object or a missing one) and the sections read; one entry per field, each value empty or offered |
| Annotation.StyleBlankAsWritten | annotation_gui.py:595-596 | without a manual style, the style as written starts empty whenever the tags hold no `speaking_style` |
| Annotation.FreshStyleBlankAsWritten | annotation_gui.py:595-596 | on a fresh tagger record the style as written always starts empty (the tagger writes `speaking_style_suggested` at thai_stt_auto_tagger.py line 488) |
| Annotation.SuggestionsPrefilled | annotation_gui.py:556-613 | before any review, each field starts at the tagger's suggestion: style, vocabulary, code-switching (empty when unknown), gender and dialect empty, noise and clarity in full mode |
| Annotation.TagsPrefilled | annotation_gui.py:556-564 | in full mode the noise and clarity fields start at the tagger's noise and clarity tags |
| Annotation.FreshRecordPrefill | annotation_gui.py:553-613 | on a fresh tagger record the corrected form starts at the tagger's style, vocabulary, code-switching, noise and clarity (the tags and analysis the tagger writes at thai_stt_auto_tagger.py lines 482-505) |
| Annotation.Notes | annotation_gui.py:693-696 | every note is a non-blank single line, and every non-blank line of the stripped text is a note |
| Annotation.NonBlankAppend | annotation_gui.py:694-696 | keeping the non-blank lines of two blocks is keeping those of each in turn: the notes keep the order of the lines |
| Annotation.NotesAreClean | annotation_gui.py:693-696 | notes are non-blank single lines, and the first and last have no outer whitespace |
| Annotation.NotesRoundTrip | annotation_gui.py:693-696 | showing clean notes in the box and collecting them gives them back |
| Annotation.NotesIdempotent | annotation_gui.py:693-696 | collecting, showing and collecting again changes nothing |
| Annotation.NotesText | annotation_gui.py:622-624 | the notes box shows nothing for falsy notes, the lines joined by newlines for a list of strings, the keys joined by newlines for a non-empty object, and raises exactly for a truthy number or boolean or a list holding a non-string |
| Annotation.Collect | annotation_gui.py:686-702 | one string per field and the notes list |
| Annotation.Route | annotation_gui.py:721-729 | notes go to the top level; noise and clarity go to the tags only in full mode; every other field goes to the manual section |
| Annotation.WithSection | annotation_gui.py:713-718 | a missing section is created empty and nothing else changes |
| Annotation.Updates | annotation_gui.py:721-729 | the entries routed to one place, unchanged |
| Annotation.Reviewed | annotation_gui.py:732-734 | review flag true, annotator and date set, other status entries kept |
| Annotation.Save | annotation_gui.py:704-734 | no record: nothing; a non-object status or a non-object target section: raises; otherwise the fields land where routed, missing sections appear, the status is marked reviewed and no other top-level key changes |
| Annotation.SaveMarksReviewed | annotation_gui.py:732-734 | after a save the file lists as reviewed, with the save time as its date (the list reads the flag and date at lines 363-375) |
| Annotation.SavedEntry | annotation_gui.py:721-729 | every saved field can be found in the section it was routed to |
| Annotation.SaveOfShownFormSucceeds | annotation_gui.py:704-734 | saving a record whose form was shown always succeeds, and the result can be shown again |
| Annotation.SavedHeaderShows | annotation_gui.py:704-734 | a save writes none of the entries the header reads and leaves the status an object, so a header that showed still shows |
| Annotation.HeaderKept | annotation_gui.py:486-531 | a record that keeps every entry but the four a save writes, and whose status is an object, shows its header whenever the original did |
| Annotation.FreshHeaderShows | annotation_gui.py:486-531 | the header of a record the tagger wrote always shows (its file information and audio properties are objects, its duration a number, and it has a `text` entry) |
| Annotation.CollectedRouted | annotation_gui.py:721-729 | after a save of the collected form, every value sits in the section its route names |
| Annotation.FieldReloads | annotation_gui.py:587-613 | a field saved from the form reads back as the saved value |
| Annotation.FieldReadsBack | annotation_gui.py:581-613 | a field whose value sits where it reads first, and is empty or offered, shows that value |
| Annotation.FormReadsBack | annotation_gui.py:553-613 | sections holding each value of a fitting form where its route stores it give back that form |
| Annotation.PrefillReadsBack | annotation_gui.py:474-613 | a record whose header shows, whose sections read and which holds each value where its route stores it opens with that form |
| Annotation.FormReloadsWith | annotation_gui.py:474-734 | for any table of distinct fields that each read first from where the save writes them, reopening a saved record shows the form that was saved |
| Annotation.FormReloads | annotation_gui.py:474-734 | reopening a saved record shows the form that was saved |
| Annotation.FormReloadsAsWritten | annotation_gui.py:474-734 | the same round trip for the field table as written, whose style field also reads the manual entry first |
| Annotation.NotesReload | annotation_gui.py:622-624 | reopening a saved record shows the collected notes |
| Annotation.SaveThenReload | annotation_gui.py:553-734 | saving a shown form succeeds; reopening shows the same choices and the same notes |

## Left out

- Audio decoding (`load_audio`) and the librosa measurements are left out because they are foreign float numerics. Frame energies, the 20th-percentile threshold, the speech intervals, the clarity features and the energy variation are inputs.
- `log10` is a parameter; the model states only what the code does around it.
- Whisper and PyThaiNLP are foreign models. They are parameters: the transcriber answers or fails, and the normaliser answers or fails.
- The ffmpeg check, progress output, timings and the warnings about large or unusual files print only; they are left out.
- `datetime.now`, `os.getlogin` and the file size are parameters: `clock`, a time per processed file; `now`; `annotator`; `fileSize`.
- JSON encoding details are left out: key order, indentation and `ensure_ascii`. Numbers are `real`, so an integer too large for a float is not distinguished. Formatting such a `duration_seconds` with `:.2f` raises `OverflowError`, while `Annotation.HeaderShows` holds for every number.
- All widgets, dialogs, audio playback, the unsaved-changes prompt and `save_and_next` are left out.
- The read-only labels of `display_annotation_fields` (lines 478-547) are not drawn: badge, file information and transcription. Only the ways they can raise, and so stop the form, are modelled (`Annotation.HeaderShows`).
- The transcription text itself is not shown by the model. A truthy `text` that is not a string is handed to Tk, which shows its string form; the header still shows, as in the model.
- The launcher menu and the packaging script are not part of this model.
- Tagger.ProcessFile: the only analysis failure modelled is the division by zero on an empty recording. Any other librosa error on degenerate audio is folded into the load outcome.
- Annotation.Save: when a save raises part-way, the source leaves the record partly mutated in memory. The model reports only `Raised`.
- Annotation.Save: a top level that is not an object is not modelled. Records are maps.
- Annotation.Notes: Tk's trailing newline on the text box is not modelled. The following `strip` removes it.
- Annotation.NotesText: the order in which an object's keys are joined is a parameter, because the decoder's key order is not modelled. For a string the contract states only that no error is raised.
- Annotation.ReviewStats: the one-decimal formatting of the percentage is not modelled; the percentage is the exact `real`.
- Normalization.Changes: Python's `\d` matches every Unicode decimal digit. The model recognises ASCII and Thai digits only.
- Language.IsLatin: Python's `lower()` is modelled for ASCII, the Latin-1 capitals and the two non-ASCII characters that lower into ASCII letters (U+0130, U+212A). Every other character is left unchanged, which cannot alter a Latin count or a keyword match.
- Annotation.Visible: capitals outside ASCII and Latin-1 (Greek, Cyrillic, Latin Extended) are not lower-cased. A filter that differs from a name only in the case of such letters hides a file that the source shows.
- Annotation.Save: writing the file (annotation_gui.py lines 736-752) is not modelled. A failing write is caught and shown; the record in memory keeps the changes, and the list is not refreshed.
- Paths.BaseName: pathlib's normalisation (trailing separators, `.` components, repeated `/`) is not modelled. For example, `Path("a/").name` is `a`, while the model gives the empty name. The tagger's paths come from a directory listing and never need it.
- Snr.EstimateSnr: the 20th-percentile threshold is an input and is not tied to the frames. With no frames both sides are empty and the result is 30.0.
- Language.DetectCodeSwitching: the source's docstring promises code-switching for ANY non-Thai word. The code applies a 5% threshold, and the model follows the code.

## Findings

| source | as written | input that shows it | evidently intended | confidence | as-written member | corrected member |
|---|---|---|---|---|---|---|
| annotation_gui.py:430-440 | the clicked file is found by cutting the list line at its first ` [` | clicking the line of `a [1].json` while `b.json` is open leaves `b.json` open | open the file whose line was clicked | high (not executed) | Annotation.SelectAsWritten, Annotation.SelectAsWrittenMissesBracketedName | Annotation.Select, Annotation.SelectOpensClickedFile |
| annotation_gui.py:595-596, thai_stt_auto_tagger.py:488 | the speaking-style field falls back to `automated_tags.speaking_style`, a key the tagger never writes | any fresh tagger record: the style starts empty although `speaking_style_suggested` holds a suggestion | fall back to `speaking_style_suggested`, as the vocabulary field falls back to `vocabulary_type_suggested` | medium (not executed) | Annotation.PrefillAsWritten, Annotation.FreshStyleBlankAsWritten | Annotation.Prefill, Annotation.FreshRecordPrefill |
