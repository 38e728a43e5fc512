/** The record-editing rules of the annotation tool (`annotation_gui.py`),
    without its widgets: how a metadata file is listed, filtered, counted and
    selected; which value each form field starts from; how the notes box
    becomes a list; and how a save rewrites the record. A metadata file is
    the decoded JSON object `Record`. */
module Annotation {
  import opened Wrappers
  import opened PyStr
  import Json
  import Labels
  import Metadata

  type Record = map<string, Json.Value>

  const AutomatedKey: string := "automated_tags"
  const LinguisticKey: string := "linguistic_analysis"
  const ManualKey: string := "manual_annotations"
  const StatusKey: string := "annotation_status"
  const NotesKey: string := "notes"
  const FileInfoKey: string := "file_info"
  const AudioKey: string := "audio_properties"
  const TextKey: string := "text"
  const TranscriptionKey: string := "transcription"

  /** The five top-level keys are different strings. */
  lemma KeysDistinct()
    ensures |{AutomatedKey, LinguisticKey, ManualKey, StatusKey, NotesKey}| == 5
    ensures LinguisticKey != AutomatedKey && LinguisticKey != ManualKey
    ensures LinguisticKey != StatusKey && LinguisticKey != NotesKey
  {
    assert |AutomatedKey| == 14 && |LinguisticKey| == 19 && |ManualKey| == 18;
    assert |StatusKey| == 17 && |NotesKey| == 5;
  }

  /** `record.get(key, {})` used as a dictionary: a missing entry reads as
      empty, a present non-object makes the following `.get` raise (None). */
  function Section(record: Record, key: string): (s: Option<Record>)
    ensures key !in record ==> s == Some(map[])
    ensures key in record ==> (s.Some? <==> record[key].Obj?)
    ensures s.Some? && key in record ==> s.value == record[key].fields
  {
    if key !in record then Some(map[])
    else if record[key].Obj? then Some(record[key].fields)
    else None
  }

  /** A value Python's `:.2f` formats: a number, booleans included. */
  predicate FormatsFixed(v: Json.Value) {
    v.Num? || v.Bool?
  }

  /** `display_annotation_fields` gets past the header to the fields: the
      record is not empty (an empty one returns at once), the status, the
      file information and the audio properties are objects or missing
      (each is read with `.get`), the duration formats with `:.2f`, and a
      falsy `text` falls back to a `transcription` that is an object or
      missing. */
  predicate HeaderShows(record: Record) {
    && record != map[]
    && Section(record, StatusKey).Some?
    && Section(record, FileInfoKey).Some?
    && Section(record, AudioKey).Some?
    && FormatsFixed(Json.Get(Section(record, AudioKey).value, "duration_seconds", Json.Num(0.0)))
    && (Json.Truthy(Json.Get(record, TextKey, Json.Str(""))) || Section(record, TranscriptionKey).Some?)
  }

  /* ---------------------------------------------------------------- */
  /* The file list                                                     */
  /* ---------------------------------------------------------------- */

  const ReviewedIcon: char := '\U{2713}'
  const PendingIcon: char := '\U{25CB}'

  /** One `*.json` file of the metadata directory: its name, and its decoded
      content, None when it cannot be opened or parsed. */
  datatype ListedFile = ListedFile(name: string, content: Option<Json.Value>)

  /** The `annotation_status` object of a file's content, None when reading it
      raises: unreadable file, non-object content or non-object status. */
  function ReviewStatus(content: Option<Json.Value>): (st: Option<Record>)
    ensures st.Some? ==> content.Some? && content.value.Obj?
  {
    if content.Some? && content.value.Obj? then Section(content.value.fields, StatusKey)
    else None
  }

  /** The test both the list and the statistics apply: the status reads and
      its `human_review_complete` entry is truthy. */
  predicate IsReviewed(content: Option<Json.Value>) {
    var st := ReviewStatus(content);
    st.Some? && Json.Truthy(Json.Get(st.value, "human_review_complete", Json.Bool(false)))
  }

  /** The formatted review date shown after a reviewed file's name: the
      stored date must be a non-empty string that `formatDate` (standing for
      `datetime.fromisoformat` followed by `strftime`) accepts. */
  function ReviewDate(content: Option<Json.Value>, formatDate: string -> Option<string>): (date: Option<string>)
    ensures date.Some? ==> IsReviewed(content)
  {
    if IsReviewed(content) then
      var rd := Json.Get(ReviewStatus(content).value, "review_date", Json.Str(""));
      if Json.Truthy(rd) && rd.Str? then formatDate(rd.s) else None
    else None
  }

  /** The listbox line of a file: an icon, a space, the name and, for a
      reviewed file with a readable date, ` [date]`. */
  function DisplayName(f: ListedFile, formatDate: string -> Option<string>): (d: string)
    ensures |d| >= 2 + |f.name| && d[1] == ' ' && d[2..2 + |f.name|] == f.name
    ensures d[0] == ReviewedIcon <==> IsReviewed(f.content)
    ensures d[0] == PendingIcon <==> !IsReviewed(f.content)
    ensures ReviewDate(f.content, formatDate).None? ==> |d| == 2 + |f.name|
    ensures ReviewDate(f.content, formatDate).Some? ==>
              d[2 + |f.name|..] == " [" + ReviewDate(f.content, formatDate).value + "]"
  {
    var icon := if IsReviewed(f.content) then ReviewedIcon else PendingIcon;
    var date := ReviewDate(f.content, formatDate);
    [icon, ' '] + f.name + (if date.Some? then " [" + date.value + "]" else "")
  }

  /** The search box: an empty (lower-cased) filter lists everything,
      otherwise the filter must occur in the lower-cased name. */
  predicate Listed(filter: string, name: string) {
    Lower(filter) == [] || Contains(Lower(name), Lower(filter))
  }

  /** The files the list shows, in directory order. */
  function Visible(files: seq<ListedFile>, filter: string): (shown: seq<ListedFile>)
    ensures |shown| <= |files|
    ensures forall k :: 0 <= k < |shown| ==> shown[k] in files && Listed(filter, shown[k].name)
    ensures forall k :: 0 <= k < |files| && Listed(filter, files[k].name) ==> files[k] in shown
  {
    if files == [] then []
    else
      var rest := Visible(files[..|files| - 1], filter);
      var last := files[|files| - 1];
      assert forall k :: 0 <= k < |files| - 1 ==> files[..|files| - 1][k] == files[k];
      if Listed(filter, last.name) then rest + [last] else rest
  }

  /** Filtering a concatenation filters each part: the list keeps directory
      order and shows each listed entry once per occurrence. */
  lemma {:induction false} VisibleAppend(a: seq<ListedFile>, b: seq<ListedFile>, filter: string)
    ensures Visible(a + b, filter) == Visible(a, filter) + Visible(b, filter)
  {
    if b != [] {
      var init := b[..|b| - 1];
      assert (a + b)[..|a + b| - 1] == a + init;
      assert (a + b)[|a + b| - 1] == b[|b| - 1];
      VisibleAppend(a, init, filter);
    } else {
      assert a + b == a;
    }
  }

  /** The filter folds Latin-1 capitals too: "ä" finds "Ä.json". */
  lemma VisibleFoldsLatin1()
    ensures var f := ListedFile("\U{00C4}.json", None);
            Visible([f], "\U{00E4}") == [f]
  {
    var f := ListedFile("\U{00C4}.json", None);
    assert Lower(f.name)[..1] == "\U{00E4}";
    assert Contains(Lower(f.name), Lower("\U{00E4}"));
    assert [f][..0] == [];
  }

  /** `update_file_list`: one line per visible file. */
  function Listing(files: seq<ListedFile>, filter: string, formatDate: string -> Option<string>): (lines: seq<string>)
    ensures |lines| == |Visible(files, filter)|
    ensures forall k :: 0 <= k < |lines| ==> lines[k] == DisplayName(Visible(files, filter)[k], formatDate)
  {
    var shown := Visible(files, filter);
    seq(|shown|, k requires 0 <= k < |shown| => DisplayName(shown[k], formatDate))
  }

  /** The search is case-insensitive: lower-casing the filter first shows
      the same files. */
  lemma {:induction false} FilterIgnoresCase(files: seq<ListedFile>, filter: string)
    ensures Visible(files, Lower(filter)) == Visible(files, filter)
  {
    LowerIdempotent(filter);
    if files != [] {
      FilterIgnoresCase(files[..|files| - 1], filter);
    }
  }

  /** An empty search box lists every file. */
  lemma {:induction false} EmptyFilterShowsAll(files: seq<ListedFile>)
    ensures Visible(files, "") == files
  {
    if files != [] {
      var init := files[..|files| - 1];
      var last := files[|files| - 1];
      assert init + [last] == files;
      EmptyFilterShowsAll(init);
      assert Lower("") == [];
      assert Visible(files, "") == Visible(init, "") + [last];
    }
  }

  /** `on_file_select` as written: drop the icon and the space, then cut at
      the first ` [`. */
  function ParseDisplayName(d: string): (name: string)
    ensures !Contains(name, " [")
    ensures |d| > 2 ==> |name| <= |d| - 2 && name == d[2..2 + |name|]
  {
    BeforeFirst(if |d| > 2 then d[2..] else d, " [")
  }

  /** Cutting `name + rest` at the first ` [` gives `name` back when `name`
      has no ` [` and `rest` is empty or starts with one. */
  lemma BeforeBracket(name: string, rest: string)
    requires !Contains(name, " [")
    requires rest == [] || (|rest| >= 2 && rest[..2] == " [")
    ensures BeforeFirst(name + rest, " [") == name
  {
    var s := name + rest;
    var n := |name|;
    assert s[..n] == name;
    if rest == [] {
      assert s == name;
    } else {
      BracketAt(s, n);
      assert Contains(s, " [");
      forall i | 0 <= i < n ensures !OccursAt(s, " [", i) {
        BracketAt(s, i);
        if i + 2 <= n {
          BracketAt(name, i);
          assert !OccursAt(name, " [", i);
        } else {
          assert s[i + 1] == rest[0];
        }
      }
    }
  }

  /** ` [` at `i` is a space followed by an opening bracket. */
  lemma BracketAt(s: string, i: nat)
    ensures OccursAt(s, " [", i) <==> i + 2 <= |s| && s[i] == ' ' && s[i + 1] == '['
  {
    if i + 2 <= |s| {
      assert s[i..i + 2] == [s[i], s[i + 1]];
    }
  }

  /** The parse recovers every non-empty name that does not itself contain
      ` [`, with or without a review date. */
  lemma DisplayNameRoundTrip(f: ListedFile, formatDate: string -> Option<string>)
    requires f.name != [] && !Contains(f.name, " [")
    ensures ParseDisplayName(DisplayName(f, formatDate)) == f.name
  {
    var d := DisplayName(f, formatDate);
    var rest := d[2 + |f.name|..];
    assert d[2..] == f.name + rest;
    BeforeBracket(f.name, rest);
  }

  /** The selection as written: the parsed name picks the file of that name;
      when no file has it, the previously open file stays current. */
  function SelectAsWritten(names: seq<string>, line: string, current: Option<string>): (selected: Option<string>)
    ensures ParseDisplayName(line) in names ==> selected == Some(ParseDisplayName(line))
    ensures ParseDisplayName(line) !in names ==> selected == current
  {
    var name := ParseDisplayName(line);
    if name in names then Some(name) else current
  }

  /** Clicking a file whose name contains ` [` leaves the previous file open:
      `a [1].json` parses to `a`, which names no file. */
  lemma SelectAsWrittenMissesBracketedName()
    ensures var clicked := ListedFile("a [1].json", None);
            var line := DisplayName(clicked, _ => None);
            SelectAsWritten(["a [1].json", "b.json"], line, Some("b.json")) == Some("b.json")
  {
    var clicked := ListedFile("a [1].json", None);
    var line := DisplayName(clicked, _ => None);
    assert line == [PendingIcon, ' '] + "a [1].json";
    var tail := line[2..];
    assert tail == "a [1].json";
    BracketAt(tail, 0);
    BracketAt(tail, 1);
    var r := BeforeFirst(tail, " [");
    assert |r| == 1;
    assert ParseDisplayName(line) == "a";
  }

  /** The selection by position in the visible list, for every file name:
      the clicked line is that file's line. */
  function Select(files: seq<ListedFile>, filter: string, index: nat): (selected: Option<ListedFile>)
    ensures selected.Some? <==> index < |Visible(files, filter)|
    ensures selected.Some? ==>
              selected.value in files && Listed(filter, selected.value.name)
              && forall formatDate: string -> Option<string> ::
                   Listing(files, filter, formatDate)[index] == DisplayName(selected.value, formatDate)
  {
    var shown := Visible(files, filter);
    if index < |shown| then Some(shown[index]) else None
  }

  /** Selecting a line opens the file the line names, brackets or not. */
  lemma SelectOpensClickedFile(files: seq<ListedFile>, filter: string, index: nat,
                               formatDate: string -> Option<string>)
    requires index < |Listing(files, filter, formatDate)|
    ensures var f := Select(files, filter, index).value;
            Listing(files, filter, formatDate)[index][2..2 + |f.name|] == f.name
  {
  }

  /* ---------------------------------------------------------------- */
  /* Statistics                                                        */
  /* ---------------------------------------------------------------- */

  /** How many of the files read as reviewed. */
  function ReviewedCount(contents: seq<Option<Json.Value>>): (n: nat)
    ensures n <= |contents|
  {
    if contents == [] then 0
    else ReviewedCount(contents[..|contents| - 1]) + (if IsReviewed(contents[|contents| - 1]) then 1 else 0)
  }

  /** Every file counts as reviewed exactly when the count is the total, and
      none when it is zero. */
  lemma {:induction false} ReviewedCountExtremes(contents: seq<Option<Json.Value>>)
    ensures ReviewedCount(contents) == |contents| <==> forall k :: 0 <= k < |contents| ==> IsReviewed(contents[k])
    ensures ReviewedCount(contents) == 0 <==> forall k :: 0 <= k < |contents| ==> !IsReviewed(contents[k])
  {
    if contents != [] {
      var init := contents[..|contents| - 1];
      ReviewedCountExtremes(init);
      assert forall k :: 0 <= k < |init| ==> init[k] == contents[k];
    }
  }

  /** The statistics line: totals, and a percentage only when there are files. */
  datatype Stats = Stats(total: nat, reviewed: nat, percentage: Option<real>)

  function ReviewStats(contents: seq<Option<Json.Value>>): (s: Stats)
    ensures s.total == |contents| && s.reviewed <= s.total
    ensures s.percentage.Some? <==> s.total > 0
    ensures s.percentage.Some? ==> 0.0 <= s.percentage.value <= 100.0
    ensures s.percentage.Some? ==>
              (s.percentage.value == 100.0 <==> forall k :: 0 <= k < |contents| ==> IsReviewed(contents[k]))
  {
    var total := |contents|;
    var reviewed := ReviewedCount(contents);
    if total > 0 then
      PercentOf(reviewed, total);
      ReviewedCountExtremes(contents);
      Stats(total, reviewed, Some(reviewed as real / total as real * 100.0))
    else Stats(0, reviewed, None)
  }

  /** `reviewed/total*100` for `0 <= reviewed <= total`, `total > 0`. */
  lemma PercentOf(reviewed: nat, total: nat)
    requires 0 < total && reviewed <= total
    ensures var pct := reviewed as real / total as real * 100.0;
            0.0 <= pct <= 100.0 && (pct == 100.0 <==> reviewed == total)
  {
    var q := reviewed as real / total as real;
    var t := total as real;
    assert q * t == reviewed as real;
    if reviewed < total && q >= 1.0 {
      assert false;
    }
  }

  /** Marking one file reviewed raises the count by one exactly when it was
      not reviewed before, and leaves it otherwise. */
  lemma {:induction false} ReviewingOneFile(contents: seq<Option<Json.Value>>, i: nat, now: Option<Json.Value>)
    requires i < |contents| && IsReviewed(now)
    ensures ReviewedCount(contents[i := now])
            == ReviewedCount(contents) + (if IsReviewed(contents[i]) then 0 else 1)
  {
    var n := |contents|;
    var after := contents[i := now];
    assert ReviewedCount(after) == ReviewedCount(after[..n - 1]) + (if IsReviewed(after[n - 1]) then 1 else 0);
    assert ReviewedCount(contents) == ReviewedCount(contents[..n - 1]) + (if IsReviewed(contents[n - 1]) then 1 else 0);
    if i == n - 1 {
      assert after[..n - 1] == contents[..n - 1];
    } else {
      ReviewingOneFile(contents[..n - 1], i, now);
      assert after[..n - 1] == contents[..n - 1][i := now];
      assert after[n - 1] == contents[n - 1];
    }
  }

  /* ---------------------------------------------------------------- */
  /* The form: which value each field starts from                      */
  /* ---------------------------------------------------------------- */

  /** The radio button: `full` also makes two automated tags editable. */
  datatype EditMode = Partial | Full

  /** The three record sections a field may read from. */
  datatype SectionName = Automated | Linguistic | Manual

  datatype Sections = Sections(automated: Record, linguistic: Record, manual: Record) {
    function Of(name: SectionName): Record {
      match name
      case Automated => automated
      case Linguistic => linguistic
      case Manual => manual
    }
  }

  /** The three sections as the form reads them; None when one of them is
      present but not an object, where the form raises. */
  function ReadSections(record: Record): (secs: Option<Sections>)
    ensures secs.Some? <==>
              Section(record, AutomatedKey).Some? && Section(record, LinguisticKey).Some?
              && Section(record, ManualKey).Some?
    ensures secs.Some? ==>
              secs.value == Sections(Section(record, AutomatedKey).value, Section(record, LinguisticKey).value,
                                     Section(record, ManualKey).value)
  {
    var a := Section(record, AutomatedKey);
    var l := Section(record, LinguisticKey);
    var m := Section(record, ManualKey);
    if a.Some? && l.Some? && m.Some? then Some(Sections(a.value, l.value, m.value)) else None
  }

  /** One `section.get(key, ...)` in a chain of fallbacks. */
  datatype Source = Source(section: SectionName, key: string)

  /** A combobox: its name, where its starting value comes from (first
      present source wins), the value used when none is present, and the
      values it offers. */
  datatype Field = Field(name: string, sources: seq<Source>, default: string, options: seq<string>)

  /** The nested `get`s with defaults: the value of the first source whose
      section holds the key, however falsy, else the default. */
  function Resolve(sources: seq<Source>, secs: Sections, default: Json.Value): (v: Json.Value)
    ensures (forall k :: 0 <= k < |sources| ==> sources[k].key !in secs.Of(sources[k].section)) ==> v == default
    ensures v == default
            || exists k :: 0 <= k < |sources| && sources[k].key in secs.Of(sources[k].section)
                           && v == secs.Of(sources[k].section)[sources[k].key]
  {
    if sources == [] then default
    else
      var here := secs.Of(sources[0].section);
      if sources[0].key in here then here[sources[0].key]
      else
        var v := Resolve(sources[1..], secs, default);
        assert forall k :: 1 <= k < |sources| ==> sources[1..][k - 1] == sources[k];
        v
  }

  /** A present source shadows every later one. */
  lemma {:induction false} ResolveFirstPresent(sources: seq<Source>, secs: Sections, default: Json.Value, k: nat)
    requires k < |sources| && sources[k].key in secs.Of(sources[k].section)
    requires forall j :: 0 <= j < k ==> sources[j].key !in secs.Of(sources[j].section)
    ensures Resolve(sources, secs, default) == secs.Of(sources[k].section)[sources[k].key]
  {
    if k > 0 {
      assert sources[1..][k - 1] == sources[k];
      ResolveFirstPresent(sources[1..], secs, default, k - 1);
    }
  }

  /** `add_field`'s guard: a value the combobox does not offer becomes the
      empty selection. */
  function Coerce(v: Json.Value, options: seq<string>): (s: string)
    ensures s == "" || s in options
    ensures s != "" ==> v == Json.Str(s)
    ensures v.Str? && v.s in options ==> s == v.s
  {
    if v.Str? && v.s in options then v.s else ""
  }

  function FieldValue(f: Field, secs: Sections): (s: string)
    ensures s == "" || s in f.options
  {
    Coerce(Resolve(f.sources, secs, Json.Str(f.default)), f.options)
  }

  predicate DistinctNames(fields: seq<Field>) {
    forall i, j :: 0 <= i < j < |fields| ==> fields[i].name != fields[j].name
  }

  /** The names of a table of fields. */
  function FieldNames(fields: seq<Field>): (names: set<string>)
    ensures forall k :: 0 <= k < |fields| ==> fields[k].name in names
  {
    if fields == [] then {}
    else
      var init := fields[..|fields| - 1];
      assert forall k :: 0 <= k < |init| ==> init[k] == fields[k];
      FieldNames(init) + {fields[|fields| - 1].name}
  }

  /** Every name in the table belongs to one of its fields. */
  lemma {:induction false} NamedField(fields: seq<Field>, name: string) returns (k: nat)
    requires name in FieldNames(fields)
    ensures k < |fields| && fields[k].name == name
  {
    var init := fields[..|fields| - 1];
    if name == fields[|fields| - 1].name {
      k := |fields| - 1;
    } else {
      k := NamedField(init, name);
      assert init[k] == fields[k];
    }
  }

  /** The field widgets by name; a later field of the same name replaces an
      earlier one, as in the widget dictionary. */
  function Form(fields: seq<Field>, secs: Sections): (form: map<string, string>)
    ensures form.Keys == FieldNames(fields)
  {
    if fields == [] then map[]
    else
      var init := fields[..|fields| - 1];
      var last := fields[|fields| - 1];
      var form := Form(init, secs);
      assert forall k :: 0 <= k < |init| ==> init[k] == fields[k];
      form[last.name := FieldValue(last, secs)]
  }

  const NoiseOptions: seq<string> := ["low_noise", "medium_noise", "high_noise"]
  const ClarityOptions: seq<string> := ["clear_speech", "muffled_speech", "distorted_speech"]
  const GenderOptions: seq<string> := ["male", "female", "child", "unknown"]
  const CodeSwitchOptions: seq<string> := ["no_code_switching", "code_switching"]
  const StyleOptions: seq<string> := ["read_speech", "spontaneous_speech", "conversational"]
  const DialectOptions: seq<string> :=
    ["central_thai", "northern_thai", "isan_thai", "southern_thai", "other_thai_dialect"]
  const VocabularyOptions: seq<string> :=
    ["general_vocab", "business_vocab", "medical_vocab", "technical_vocab", "mixed_vocab"]

  const NoiseField: Field :=
    Field("noise_level", [Source(Automated, "noise_level")], "unknown", NoiseOptions)
  const ClarityField: Field :=
    Field("speech_clarity", [Source(Automated, "speech_clarity")], "unknown", ClarityOptions)
  const GenderField: Field :=
    Field("speaker_gender", [Source(Manual, "speaker_gender"), Source(Automated, "speaker_gender")],
          "", GenderOptions)
  const CodeSwitchField: Field :=
    Field("code_switching",
          [Source(Manual, "code_switching"), Source(Linguistic, "code_switching"),
           Source(Automated, "code_switching")],
          "", CodeSwitchOptions)
  /** The speaking-style field as written: its fallback reads an automated
      `speaking_style` entry, a key the tagger never writes. */
  const StyleFieldAsWritten: Field :=
    Field("speaking_style", [Source(Manual, "speaking_style"), Source(Automated, "speaking_style")],
          "", StyleOptions)
  /** The speaking-style field falling back to the tagger's suggestion. */
  const StyleField: Field :=
    Field("speaking_style", [Source(Manual, "speaking_style"), Source(Automated, "speaking_style_suggested")],
          "", StyleOptions)
  const DialectField: Field :=
    Field("dialect", [Source(Manual, "dialect"), Source(Automated, "dialect")], "", DialectOptions)
  const VocabularyField: Field :=
    Field("vocabulary_type",
          [Source(Manual, "vocabulary_type"), Source(Linguistic, "vocabulary_type_suggested"),
           Source(Automated, "vocabulary_type")],
          "", VocabularyOptions)

  /** The fields in widget order for a mode and a speaking-style field. */
  function FieldTable(mode: EditMode, style: Field): (fields: seq<Field>)
    ensures |fields| == if mode == Full then 7 else 5
  {
    (if mode == Full then [NoiseField, ClarityField] else [])
    + [GenderField, CodeSwitchField, style, DialectField, VocabularyField]
  }

  function FieldsAsWritten(mode: EditMode): seq<Field> {
    FieldTable(mode, StyleFieldAsWritten)
  }

  function Fields(mode: EditMode): seq<Field> {
    FieldTable(mode, StyleField)
  }

  /** The starting values of the form for a table of fields; None when the
      header raises or a section the form reads is not an object. */
  function PrefillWith(record: Record, fields: seq<Field>): (form: Option<map<string, string>>)
    ensures form.Some? <==> HeaderShows(record) && ReadSections(record).Some?
    ensures form.Some? ==> form.value.Keys == FieldNames(fields)
    ensures form.Some? ==> Offered(form.value, fields)
    ensures form.Some? ==> form.value == Form(fields, ReadSections(record).value)
  {
    var secs := ReadSections(record);
    if !HeaderShows(record) || secs.None? then None
    else
      FormValuesOffered(fields, secs.value);
      Some(Form(fields, secs.value))
  }

  /** Every value is empty or offered by a field of that name. */
  predicate Offered(form: map<string, string>, fields: seq<Field>) {
    forall name :: name in form ==>
      (form[name] == "" || exists k :: 0 <= k < |fields| && fields[k].name == name && form[name] in fields[k].options)
  }

  /** Every value of a form is empty or offered by a field of that name. */
  lemma {:induction false} FormValuesOffered(fields: seq<Field>, secs: Sections)
    ensures Offered(Form(fields, secs), fields)
  {
    if fields != [] {
      var init := fields[..|fields| - 1];
      FormValuesOffered(init, secs);
      var form := Form(fields, secs);
      forall name | name in form
        ensures form[name] == "" ||
                (exists k :: 0 <= k < |fields| && fields[k].name == name && form[name] in fields[k].options)
      {
        if name != fields[|fields| - 1].name {
          assert name in Form(init, secs) && form[name] == Form(init, secs)[name];
          if form[name] != "" {
            var k :| 0 <= k < |init| && init[k].name == name && form[name] in init[k].options;
            assert fields[k] == init[k];
          }
        }
      }
    }
  }

  /** `display_annotation_fields`: the starting value of every combobox. */
  function Prefill(record: Record, mode: EditMode): (form: Option<map<string, string>>)
    ensures form.Some? <==> HeaderShows(record) && ReadSections(record).Some?
    ensures form.Some? ==> form.value.Keys == FieldNames(Fields(mode)) && Offered(form.value, Fields(mode))
  {
    PrefillWith(record, Fields(mode))
  }

  /** The same with the speaking-style field as written. */
  function PrefillAsWritten(record: Record, mode: EditMode): (form: Option<map<string, string>>)
    ensures form.Some? <==> HeaderShows(record) && ReadSections(record).Some?
    ensures form.Some? ==> form.value.Keys == FieldNames(FieldsAsWritten(mode)) && Offered(form.value, FieldsAsWritten(mode))
  {
    PrefillWith(record, FieldsAsWritten(mode))
  }

  lemma FieldNamesDistinct(mode: EditMode)
    ensures DistinctNames(Fields(mode)) && DistinctNames(FieldsAsWritten(mode))
  {
    TableNamesDistinct(mode, StyleField);
    TableNamesDistinct(mode, StyleFieldAsWritten);
  }

  /** Length, first, fourth and sixth character tell the field names apart. */
  function Signature(name: string): (int, char, char, char) {
    if |name| < 6 then (|name|, ' ', ' ', ' ') else (|name|, name[0], name[3], name[5])
  }

  /** The signatures of the seven field names, in full-mode order. */
  lemma NameSignatures() returns (sigs: seq<(int, char, char, char)>)
    ensures |sigs| == 7
    ensures Signature(NoiseField.name) == sigs[0] && Signature(ClarityField.name) == sigs[1]
    ensures Signature(GenderField.name) == sigs[2] && Signature(CodeSwitchField.name) == sigs[3]
    ensures Signature(StyleField.name) == sigs[4] && Signature(DialectField.name) == sigs[5]
    ensures Signature(VocabularyField.name) == sigs[6]
    ensures forall i, j :: 0 <= i < j < 7 ==> sigs[i] != sigs[j]
  {
    sigs := [(11, 'n', 's', '_'), (14, 's', 'e', 'h'), (14, 's', 'a', 'e'), (14, 'c', 'e', 's'),
             (14, 's', 'a', 'i'), (7, 'd', 'l', 'c'), (15, 'v', 'a', 'u')];
  }

  lemma TableNamesDistinct(mode: EditMode, style: Field)
    requires style.name == StyleField.name
    ensures DistinctNames(FieldTable(mode, style))
  {
    var fields := FieldTable(mode, style);
    var o := if mode == Full then 0 else 2;
    var names := [NoiseField.name, ClarityField.name, GenderField.name, CodeSwitchField.name,
                  StyleField.name, DialectField.name, VocabularyField.name];
    var sigs := NameSignatures();
    assert forall k :: 0 <= k < |fields| ==> fields[k].name == names[k + o];
    forall i, j | 0 <= i < j < |fields| ensures fields[i].name != fields[j].name {
      assert sigs[i + o] != sigs[j + o];
    }
  }

  /* ---------------------------------------------------------------- */
  /* Notes                                                             */
  /* ---------------------------------------------------------------- */

  /** The lines that are not blank, in order. */
  function NonBlank(lines: seq<string>): (kept: seq<string>)
    ensures |kept| <= |lines|
    ensures forall k :: 0 <= k < |kept| ==> !Blank(kept[k]) && kept[k] in lines
    ensures forall k :: 0 <= k < |lines| && !Blank(lines[k]) ==> lines[k] in kept
  {
    if lines == [] then []
    else
      var init := NonBlank(lines[..|lines| - 1]);
      var last := lines[|lines| - 1];
      assert forall x :: x in lines[..|lines| - 1] ==> x in lines;
      if Blank(last) then init else init + [last]
  }

  /** Filtering a concatenation filters each part: the kept lines stay in
      their original order. */
  lemma {:induction false} NonBlankAppend(a: seq<string>, b: seq<string>)
    ensures NonBlank(a + b) == NonBlank(a) + NonBlank(b)
  {
    if b != [] {
      var init := b[..|b| - 1];
      assert (a + b)[..|a + b| - 1] == a + init;
      assert (a + b)[|a + b| - 1] == b[|b| - 1];
      NonBlankAppend(a, init);
    } else {
      assert a + b == a;
    }
  }

  /** `collect_annotations` on the notes box: the non-blank lines of the
      stripped text. */
  function Notes(text: string): (notes: seq<string>)
    ensures forall k :: 0 <= k < |notes| ==> !Blank(notes[k]) && '\n' !in notes[k]
    ensures var lines := Split(Strip(text), '\n');
            forall k :: 0 <= k < |lines| && !Blank(lines[k]) ==> lines[k] in notes
  {
    var lines := Split(Strip(text), '\n');
    assert forall x :: x in lines ==> '\n' !in x;
    NonBlank(lines)
  }

  /** The shape every collected list of notes has: non-blank lines without
      line breaks, the first not starting and the last not ending with
      whitespace. */
  predicate CleanNotes(notes: seq<string>) {
    && (forall k :: 0 <= k < |notes| ==> !Blank(notes[k]) && '\n' !in notes[k])
    && TrimmedEnds(notes)
  }

  /** The first note does not start and the last does not end with
      whitespace. */
  predicate TrimmedEnds(notes: seq<string>) {
    notes != [] ==>
      && |notes[0]| > 0 && !IsSpace(notes[0][0])
      && var last := notes[|notes| - 1]; |last| > 0 && !IsSpace(last[|last| - 1])
  }

  /** A non-blank first line survives as the first kept line. */
  lemma {:induction false} NonBlankFirst(lines: seq<string>)
    requires lines != [] && !Blank(lines[0])
    ensures NonBlank(lines) != [] && NonBlank(lines)[0] == lines[0]
  {
    if |lines| > 1 {
      var init := lines[..|lines| - 1];
      assert init[0] == lines[0];
      NonBlankFirst(init);
    }
  }

  /** Lines that are all non-blank are all kept. */
  lemma {:induction false} NonBlankKeepsAll(lines: seq<string>)
    requires forall k :: 0 <= k < |lines| ==> !Blank(lines[k])
    ensures NonBlank(lines) == lines
  {
    if lines != [] {
      var init := lines[..|lines| - 1];
      NonBlankKeepsAll(init);
      assert init + [lines[|lines| - 1]] == lines;
    }
  }

  /** The first line of a text that starts with a non-space character
      starts with that character. */
  lemma FirstLine(s: string)
    requires s != [] && !IsSpace(s[0])
    ensures var first := Split(s, '\n')[0]; first != [] && first[0] == s[0]
  {
    var parts := Split(s, '\n');
    var first := parts[0];
    if |parts| == 1 {
      assert first == s;
    } else {
      assert s == first + ['\n'] + Join(parts[1..], ['\n']);
      assert s[|first|] == '\n';
    }
  }

  /** The last line of a text that ends with a non-space character ends
      with that character. */
  lemma LastLine(s: string)
    requires s != [] && !IsSpace(s[|s| - 1])
    ensures var parts := Split(s, '\n');
            var last := parts[|parts| - 1];
            last != [] && last[|last| - 1] == s[|s| - 1]
  {
    var parts := Split(s, '\n');
    var last := parts[|parts| - 1];
    if |parts| == 1 {
      assert last == s;
    } else {
      JoinSnoc(parts, ['\n']);
      var before := Join(parts[..|parts| - 1], ['\n']) + ['\n'];
      assert s == before + last;
      assert s[|before| - 1] == '\n';
    }
  }

  /** Whatever is typed into the notes box, the collected list is clean. */
  lemma NotesAreClean(text: string)
    ensures CleanNotes(Notes(text))
  {
    var s := Strip(text);
    if s == [] {
      assert Split(s, '\n') == [[]];
      assert NonBlank([[]]) == [];
    } else {
      TrimmedLinesClean(s);
    }
  }

  /** The kept lines of a text without surrounding whitespace start with
      its first character and end with its last. */
  lemma TrimmedLinesClean(s: string)
    requires s != [] && !IsSpace(s[0]) && !IsSpace(s[|s| - 1])
    ensures TrimmedEnds(NonBlank(Split(s, '\n')))
  {
    FirstNoteTrimmed(s);
    LastNoteTrimmed(s);
  }

  lemma FirstNoteTrimmed(s: string)
    requires s != [] && !IsSpace(s[0])
    ensures var kept := NonBlank(Split(s, '\n'));
            kept != [] && |kept[0]| > 0 && !IsSpace(kept[0][0])
  {
    var parts := Split(s, '\n');
    FirstLine(s);
    assert !Blank(parts[0]);
    NonBlankFirst(parts);
  }

  lemma LastNoteTrimmed(s: string)
    requires s != [] && !IsSpace(s[|s| - 1])
    ensures var kept := NonBlank(Split(s, '\n'));
            kept != [] && var last := kept[|kept| - 1]; |last| > 0 && !IsSpace(last[|last| - 1])
  {
    var parts := Split(s, '\n');
    LastLine(s);
    assert !Blank(parts[|parts| - 1]);
    NonBlankLast(parts);
  }

  /** A non-blank last line survives as the last kept line. */
  lemma NonBlankLast(lines: seq<string>)
    requires lines != [] && !Blank(lines[|lines| - 1])
    ensures NonBlank(lines) != [] && NonBlank(lines)[|NonBlank(lines)| - 1] == lines[|lines| - 1]
  {
  }

  /** A clean list written one note per line collects back to itself. */
  lemma NotesRoundTrip(notes: seq<string>)
    requires CleanNotes(notes)
    ensures Notes(Join(notes, "\n")) == notes
  {
    if notes == [] {
      assert Join(notes, "\n") == [];
      assert Split([], '\n') == [[]];
      assert NonBlank([[]]) == [];
    } else {
      var text := Join(notes, "\n");
      JoinTrimmed(notes);
      StripUntrimmed(text);
      SplitJoin(notes, '\n');
      NonBlankKeepsAll(notes);
    }
  }

  /** One note per line, a clean list has no surrounding whitespace. */
  lemma JoinTrimmed(notes: seq<string>)
    requires notes != [] && TrimmedEnds(notes)
    ensures var text := Join(notes, "\n");
            text != [] && !IsSpace(text[0]) && !IsSpace(text[|text| - 1])
  {
    var text := Join(notes, "\n");
    JoinStartsWithFirst(notes, "\n");
    JoinEndsWithLast(notes, "\n");
    var last := notes[|notes| - 1];
    assert text[0] == notes[0][0];
    assert text[|text| - 1] == last[|last| - 1];
  }

  /** Collecting the notes twice, through the text shown on reload, changes
      nothing. */
  lemma NotesIdempotent(text: string)
    ensures Notes(Join(Notes(text), "\n")) == Notes(text)
  {
    NotesAreClean(text);
    NotesRoundTrip(Notes(text));
  }

  /** The notes box's starting text: the stored notes one per line, nothing
      when they are missing or falsy. A string is joined character by
      character and an object by its keys, in the order `keyOrder` gives
      (the decoded dictionary's insertion order, which a map does not keep).
      A number, a boolean or a list holding a non-string makes the join
      raise (None). */
  function NotesText(record: Record, keyOrder: Record -> seq<string>): (text: Option<string>)
    ensures var v := Json.Get(record, NotesKey, Json.Arr([]));
            && (!Json.Truthy(v) ==> text == Some(""))
            && (v.Arr? && (forall k :: 0 <= k < |v.items| ==> v.items[k].Str?) ==>
                  text == Some(Join(Json.Strings(v), "\n")))
            && (v.Obj? && Json.Truthy(v) ==> text == Some(Join(keyOrder(v.fields), "\n")))
            && (text.None? <==>
                  Json.Truthy(v)
                  && (v.Num? || v.Bool? || (v.Arr? && exists k :: 0 <= k < |v.items| && !v.items[k].Str?)))
  {
    var v := Json.Get(record, NotesKey, Json.Arr([]));
    if !Json.Truthy(v) then Some("")
    else if v.Arr? && forall k :: 0 <= k < |v.items| ==> v.items[k].Str? then Some(Join(Json.Strings(v), "\n"))
    else if v.Str? then Some(Join(seq(|v.s|, k requires 0 <= k < |v.s| => [v.s[k]]), "\n"))
    else if v.Obj? then Some(Join(keyOrder(v.fields), "\n"))
    else None
  }

  /* ---------------------------------------------------------------- */
  /* Saving                                                            */
  /* ---------------------------------------------------------------- */

  /** `collect_annotations`: every combobox's text and the notes list. */
  function Collect(form: map<string, string>, notesBox: string): (annotations: Record)
    ensures annotations.Keys == form.Keys + {NotesKey}
    ensures annotations[NotesKey] == Json.StrArr(Notes(notesBox))
    ensures forall k :: k in form && k != NotesKey ==> annotations[k] == Json.Str(form[k])
  {
    (map k | k in form :: Json.Str(form[k]))[NotesKey := Json.StrArr(Notes(notesBox))]
  }

  /** Where `save_current` stores an annotation. */
  datatype Target = TopLevel | ToAutomated | ToManual

  function Route(key: string, mode: EditMode): (t: Target)
    ensures t == TopLevel <==> key == NotesKey
    ensures t == ToAutomated <==> mode == Full && (key == "noise_level" || key == "speech_clarity")
  {
    if key == NotesKey then TopLevel
    else if mode == Full && (key == "noise_level" || key == "speech_clarity") then ToAutomated
    else ToManual
  }

  /** The entry `key` of `record`, created as an empty object when missing. */
  function WithSection(record: Record, key: string): (r: Record)
    ensures r.Keys == record.Keys + {key}
    ensures forall k :: k in record ==> r[k] == record[k]
    ensures key !in record ==> r[key] == Json.Obj(map[])
    ensures r[key].Obj? <==> Section(record, key).Some?
    ensures r[key].Obj? ==> r[key].fields == Section(record, key).value
  {
    if key in record then record else record[key := Json.Obj(map[])]
  }

  /** The record with the three sections a save writes into. */
  function Filled(record: Record): (r: Record)
    ensures forall k :: k in r <==> k in record || k == AutomatedKey || k == ManualKey || k == StatusKey
    ensures forall k :: k in record ==> r[k] == record[k]
    ensures r[AutomatedKey] == WithSection(record, AutomatedKey)[AutomatedKey]
    ensures r[ManualKey] == WithSection(record, ManualKey)[ManualKey]
    ensures r[StatusKey] == WithSection(record, StatusKey)[StatusKey]
  {
    WithSection(WithSection(WithSection(record, AutomatedKey), ManualKey), StatusKey)
  }

  /** The annotations a save writes into one target. */
  function Updates(annotations: Record, mode: EditMode, target: Target): (u: Record)
    ensures u.Keys == set k | k in annotations && Route(k, mode) == target
    ensures forall k :: k in u ==> u[k] == annotations[k]
  {
    map k | k in annotations && Route(k, mode) == target :: annotations[k]
  }

  /** What a save does: nothing for an empty record, raise when a section it
      writes into is not an object, else the updated record. */
  datatype SaveOutcome = Skipped | Raised | Saved(record: Record)

  /** The entries the save writes into the review status. */
  function Reviewed(status: Record, annotator: string, now: string): (st: Record)
    ensures st.Keys == status.Keys + {"human_review_complete", "human_annotator", "review_date"}
    ensures st["human_review_complete"] == Json.Bool(true)
    ensures st["human_annotator"] == Json.Str(annotator) && st["review_date"] == Json.Str(now)
    ensures forall k :: k in status && k != "human_review_complete" && k != "human_annotator" && k != "review_date"
                        ==> st[k] == status[k]
  {
    status["human_review_complete" := Json.Bool(true)]["human_annotator" := Json.Str(annotator)]
      ["review_date" := Json.Str(now)]
  }

  /** `record[key][k] = value` for every update, the section being an object. */
  function Store(record: Record, key: string, updates: Record): (r: Record)
    requires key in record && (updates != map[] ==> record[key].Obj?)
    ensures r.Keys == record.Keys
    ensures forall k :: k in record && k != key ==> r[k] == record[k]
    ensures updates == map[] ==> r[key] == record[key]
    ensures updates != map[] ==> r[key] == Json.Obj(record[key].fields + updates)
  {
    if updates == map[] then record else record[key := Json.Obj(record[key].fields + updates)]
  }

  /** The updates of a save that does not raise, on the filled record. */
  function Apply(filled: Record, mode: EditMode, annotations: Record, annotator: string, now: string): (r: Record)
    requires AutomatedKey in filled && ManualKey in filled && StatusKey in filled
    requires filled[StatusKey].Obj?
    requires Updates(annotations, mode, ToAutomated) != map[] ==> filled[AutomatedKey].Obj?
    requires Updates(annotations, mode, ToManual) != map[] ==> filled[ManualKey].Obj?
    ensures forall k :: k in r <==> k in filled || (k == NotesKey && NotesKey in annotations)
    ensures forall k :: k in filled && k != AutomatedKey && k != ManualKey && k != StatusKey && k != NotesKey
                        ==> r[k] == filled[k]
    ensures NotesKey in annotations ==> r[NotesKey] == annotations[NotesKey]
    ensures NotesKey !in annotations && NotesKey in filled ==> r[NotesKey] == filled[NotesKey]
    ensures r[StatusKey] == Json.Obj(Reviewed(filled[StatusKey].fields, annotator, now))
    ensures var u := Updates(annotations, mode, ToAutomated);
            && (u != map[] ==> r[AutomatedKey] == Json.Obj(filled[AutomatedKey].fields + u))
            && (u == map[] ==> r[AutomatedKey] == filled[AutomatedKey])
    ensures var u := Updates(annotations, mode, ToManual);
            && (u != map[] ==> r[ManualKey] == Json.Obj(filled[ManualKey].fields + u))
            && (u == map[] ==> r[ManualKey] == filled[ManualKey])
  {
    Stored(filled, mode, annotations)[StatusKey := Json.Obj(Reviewed(filled[StatusKey].fields, annotator, now))]
  }

  /** The notes and both sections' updates stored, before the status is marked. */
  function Stored(filled: Record, mode: EditMode, annotations: Record): (r: Record)
    requires AutomatedKey in filled && ManualKey in filled
    requires Updates(annotations, mode, ToAutomated) != map[] ==> filled[AutomatedKey].Obj?
    requires Updates(annotations, mode, ToManual) != map[] ==> filled[ManualKey].Obj?
    ensures r.Keys == filled.Keys + (if NotesKey in annotations then {NotesKey} else {})
    ensures forall k :: k in filled && k != AutomatedKey && k != ManualKey && k != NotesKey ==> r[k] == filled[k]
    ensures NotesKey in annotations ==> r[NotesKey] == annotations[NotesKey]
    ensures NotesKey !in annotations && NotesKey in filled ==> r[NotesKey] == filled[NotesKey]
    ensures var u := Updates(annotations, mode, ToAutomated);
            && (u != map[] ==> r[AutomatedKey] == Json.Obj(filled[AutomatedKey].fields + u))
            && (u == map[] ==> r[AutomatedKey] == filled[AutomatedKey])
    ensures var u := Updates(annotations, mode, ToManual);
            && (u != map[] ==> r[ManualKey] == Json.Obj(filled[ManualKey].fields + u))
            && (u == map[] ==> r[ManualKey] == filled[ManualKey])
  {
    var withNotes := WithNotes(filled, annotations);
    Store(Store(withNotes, AutomatedKey, Updates(annotations, mode, ToAutomated)),
          ManualKey, Updates(annotations, mode, ToManual))
  }

  /** `record["notes"] = annotations["notes"]` when the notes were collected. */
  function WithNotes(record: Record, annotations: Record): (r: Record)
    ensures r.Keys == record.Keys + (if NotesKey in annotations then {NotesKey} else {})
    ensures forall k :: k in record && k != NotesKey ==> r[k] == record[k]
    ensures NotesKey in annotations ==> r[NotesKey] == annotations[NotesKey]
    ensures NotesKey !in annotations ==> r == record
  {
    if NotesKey in annotations then record[NotesKey := annotations[NotesKey]] else record
  }

  /** `save_current` up to the write: `annotator` stands for the login name
      and `now` for the ISO timestamp of the clock. A successful save adds
      the three sections, stores each annotation in its target, marks the
      status reviewed and leaves everything else as it was. */
  function Save(record: Record, mode: EditMode, annotations: Record, annotator: string, now: string): (out: SaveOutcome)
    ensures out.Skipped? <==> record == map[]
    ensures out.Raised? <==>
              record != map[]
              && (|| Section(record, StatusKey).None?
                  || (Section(record, AutomatedKey).None? && Updates(annotations, mode, ToAutomated) != map[])
                  || (Section(record, ManualKey).None? && Updates(annotations, mode, ToManual) != map[]))
    ensures out.Saved? ==>
              forall k :: k in out.record <==> k in record || k == AutomatedKey || k == ManualKey || k == StatusKey
                                               || (k == NotesKey && NotesKey in annotations)
    ensures out.Saved? ==>
              forall k :: k in record && k != AutomatedKey && k != ManualKey && k != StatusKey && k != NotesKey
                          ==> out.record[k] == record[k]
    ensures out.Saved? && NotesKey in annotations ==> out.record[NotesKey] == annotations[NotesKey]
    ensures out.Saved? && NotesKey !in annotations && NotesKey in record ==> out.record[NotesKey] == record[NotesKey]
    ensures out.Saved? ==>
              Section(record, StatusKey).Some?
              && out.record[StatusKey] == Json.Obj(Reviewed(Section(record, StatusKey).value, annotator, now))
    ensures out.Saved? ==>
              var u := Updates(annotations, mode, ToAutomated);
              && (u != map[] ==> out.record[AutomatedKey] == Json.Obj(Section(record, AutomatedKey).value + u))
              && (u == map[] ==> out.record[AutomatedKey] == WithSection(record, AutomatedKey)[AutomatedKey])
    ensures out.Saved? ==>
              var u := Updates(annotations, mode, ToManual);
              && (u != map[] ==> out.record[ManualKey] == Json.Obj(Section(record, ManualKey).value + u))
              && (u == map[] ==> out.record[ManualKey] == WithSection(record, ManualKey)[ManualKey])
    ensures out.Saved? && mode == Partial ==> out.record[AutomatedKey] == WithSection(record, AutomatedKey)[AutomatedKey]
  {
    if record == map[] then Skipped
    else
      var filled := Filled(record);
      var auto := Updates(annotations, mode, ToAutomated);
      var manual := Updates(annotations, mode, ToManual);
      assert mode == Partial ==> auto == map[];
      if !filled[StatusKey].Obj? || (auto != map[] && !filled[AutomatedKey].Obj?)
         || (manual != map[] && !filled[ManualKey].Obj?) then Raised
      else Saved(Apply(filled, mode, annotations, annotator, now))
  }

  /** After a save the file lists as reviewed, dated by the save when the
      timestamp formats. */
  lemma SaveMarksReviewed(record: Record, mode: EditMode, annotations: Record, annotator: string, now: string,
                          formatDate: string -> Option<string>)
    requires Save(record, mode, annotations, annotator, now).Saved?
    ensures var saved := Some(Json.Obj(Save(record, mode, annotations, annotator, now).record));
            && IsReviewed(saved)
            && ReviewDate(saved, formatDate) == (if now == "" then None else formatDate(now))
  {
    var out := Save(record, mode, annotations, annotator, now).record;
    MarkedReviewed(out, Section(record, StatusKey).value, annotator, now, formatDate);
  }

  /** A record whose status the save marked lists as reviewed on that date. */
  lemma MarkedReviewed(r: Record, status: Record, annotator: string, now: string,
                       formatDate: string -> Option<string>)
    requires StatusKey in r && r[StatusKey] == Json.Obj(Reviewed(status, annotator, now))
    ensures IsReviewed(Some(Json.Obj(r)))
    ensures ReviewDate(Some(Json.Obj(r)), formatDate) == (if now == "" then None else formatDate(now))
  {
    assert ReviewStatus(Some(Json.Obj(r))) == Some(Reviewed(status, annotator, now));
  }

  /** Each field starts from the very entry a save writes it to, and never
      offers the empty value. */
  predicate ReadsWhereSaved(f: Field, mode: EditMode) {
    && f.name != NotesKey && "" !in f.options && f.sources != []
    && f.sources[0] == Source(if Route(f.name, mode) == ToAutomated then Automated else Manual, f.name)
  }

  lemma FieldTableShape(mode: EditMode)
    ensures forall k :: 0 <= k < |Fields(mode)| ==> ReadsWhereSaved(Fields(mode)[k], mode)
    ensures forall k :: 0 <= k < |FieldsAsWritten(mode)| ==> ReadsWhereSaved(FieldsAsWritten(mode)[k], mode)
  {
    var fields := Fields(mode);
    ManualFieldsReadWhereSaved(mode);
    if mode == Full {
      AutomatedFieldsReadWhereSaved();
    }
  }

  /** The fields both modes show read first from the manual section. */
  lemma ManualFieldsReadWhereSaved(mode: EditMode)
    ensures ReadsWhereSaved(GenderField, mode) && ReadsWhereSaved(CodeSwitchField, mode)
    ensures ReadsWhereSaved(StyleField, mode) && ReadsWhereSaved(DialectField, mode)
    ensures ReadsWhereSaved(VocabularyField, mode) && ReadsWhereSaved(StyleFieldAsWritten, mode)
  {
    assert GenderField.name[4] == 'k' && CodeSwitchField.name[0] == 'c' && StyleField.name[4] == 'k';
    assert |DialectField.name| == 7 && |VocabularyField.name| == 15;
  }

  /** The two tags only full mode edits read first from the automated section. */
  lemma AutomatedFieldsReadWhereSaved()
    ensures ReadsWhereSaved(NoiseField, Full) && ReadsWhereSaved(ClarityField, Full)
  {
  }

  /** One field after a save of the collected form reads back its value. */
  lemma FieldReloads(record: Record, mode: EditMode, form: map<string, string>, notesBox: string,
                     annotator: string, now: string, f: Field)
    requires Save(record, mode, Collect(form, notesBox), annotator, now).Saved?
    requires ReadSections(Save(record, mode, Collect(form, notesBox), annotator, now).record).Some?
    requires ReadsWhereSaved(f, mode) && f.name in form
    requires form[f.name] == "" || form[f.name] in f.options
    ensures FieldValue(f, ReadSections(Save(record, mode, Collect(form, notesBox), annotator, now).record).value)
            == form[f.name]
  {
    CollectedRouted(record, mode, form, notesBox, annotator, now);
    FieldReadsBack(Save(record, mode, Collect(form, notesBox), annotator, now).record, mode, f, form[f.name]);
  }

  /** A field whose first source is where its value is stored reads that
      value back. */
  lemma FieldReadsBack(out: Record, mode: EditMode, f: Field, v: string)
    requires ReadSections(out).Some?
    requires ReadsWhereSaved(f, mode)
    requires RoutedTo(out, mode, f.name, Json.Str(v))
    requires v == "" || v in f.options
    ensures FieldValue(f, ReadSections(out).value) == v
  {
  }

  /** A saved annotation sits in the section its route names. */
  lemma SavedEntry(record: Record, mode: EditMode, annotations: Record, annotator: string, now: string,
                   name: string)
    requires Save(record, mode, annotations, annotator, now).Saved?
    requires name in annotations && name != NotesKey
    ensures var out := Save(record, mode, annotations, annotator, now).record;
            var key := if Route(name, mode) == ToAutomated then AutomatedKey else ManualKey;
            && key in out && out[key].Obj? && name in out[key].fields
            && out[key].fields[name] == annotations[name]
  {
    var u := Updates(annotations, mode, Route(name, mode));
    assert name in u;
  }

  /** A save of a form shown for a readable record succeeds, and leaves the
      sections the form reads readable. */
  lemma SaveOfShownFormSucceeds(record: Record, mode: EditMode, annotations: Record, annotator: string, now: string)
    requires record != map[]
    requires ReadSections(record).Some? && Section(record, StatusKey).Some?
    ensures var out := Save(record, mode, annotations, annotator, now);
            out.Saved? && ReadSections(out.record).Some?
  {
    SavedSectionsRead(record, mode, annotations, annotator, now);
  }

  /** A successful save keeps the sections the form reads readable. */
  lemma SavedSectionsRead(record: Record, mode: EditMode, annotations: Record, annotator: string, now: string)
    requires Save(record, mode, annotations, annotator, now).Saved?
    requires ReadSections(record).Some?
    ensures ReadSections(Save(record, mode, annotations, annotator, now).record).Some?
  {
    var r := Save(record, mode, annotations, annotator, now).record;
    KeysDistinct();
    if LinguisticKey in record {
      assert r[LinguisticKey] == record[LinguisticKey];
    } else {
      assert LinguisticKey !in r.Keys;
    }
    assert r[AutomatedKey].Obj? && r[ManualKey].Obj?;
  }

  /** A successful save keeps the header showing: it writes none of the
      entries the header reads, and it leaves the status an object. */
  lemma SavedHeaderShows(record: Record, mode: EditMode, annotations: Record, annotator: string, now: string)
    requires Save(record, mode, annotations, annotator, now).Saved?
    requires HeaderShows(record)
    ensures HeaderShows(Save(record, mode, annotations, annotator, now).record)
  {
    HeaderKept(record, Save(record, mode, annotations, annotator, now).record);
  }

  /** A record that keeps every entry other than the four a save writes,
      adds no other entry, and has an object as its status shows its
      header whenever the original did. */
  lemma HeaderKept(record: Record, out: Record)
    requires HeaderShows(record)
    requires forall k :: k in record ==> k in out
    requires forall k :: k in out && k !in record ==> k == AutomatedKey || k == ManualKey || k == StatusKey || k == NotesKey
    requires forall k :: k in record && k != AutomatedKey && k != ManualKey && k != StatusKey && k != NotesKey
                         ==> out[k] == record[k]
    requires StatusKey in out && out[StatusKey].Obj?
    ensures HeaderShows(out)
  {
  }

  /** A form fits a table of fields when the names are distinct, each field
      reads first from where a save routes its value, the form has exactly
      the table's names and every value is empty or offered. */
  predicate FitsTable(form: map<string, string>, fields: seq<Field>, mode: EditMode) {
    && DistinctNames(fields)
    && (forall k :: 0 <= k < |fields| ==> ReadsWhereSaved(fields[k], mode))
    && form.Keys == FieldNames(fields)
    && Offered(form, fields)
  }

  /** For any table the form fits, the form read back after the save is
      the form saved. */
  lemma FormReloadsWith(record: Record, mode: EditMode, fields: seq<Field>, form: map<string, string>,
                        notesBox: string, annotator: string, now: string)
    requires Save(record, mode, Collect(form, notesBox), annotator, now).Saved?
    requires HeaderShows(record)
    requires ReadSections(Save(record, mode, Collect(form, notesBox), annotator, now).record).Some?
    requires FitsTable(form, fields, mode)
    ensures PrefillWith(Save(record, mode, Collect(form, notesBox), annotator, now).record, fields) == Some(form)
  {
    SavedHeaderShows(record, mode, Collect(form, notesBox), annotator, now);
    CollectedRouted(record, mode, form, notesBox, annotator, now);
    PrefillReadsBack(Save(record, mode, Collect(form, notesBox), annotator, now).record, mode, fields, form);
  }

  /** Where a save routes a value under a name: the section object the
      route names holds it. */
  predicate RoutedTo(out: Record, mode: EditMode, name: string, v: Json.Value) {
    var key := if Route(name, mode) == ToAutomated then AutomatedKey else ManualKey;
    && key in out && out[key].Obj? && name in out[key].fields
    && out[key].fields[name] == v
  }

  /** Every value of a form other than the notes sits where its route
      stores it. */
  predicate RoutedAll(out: Record, mode: EditMode, form: map<string, string>) {
    forall name :: name in form && name != NotesKey ==> RoutedTo(out, mode, name, Json.Str(form[name]))
  }

  /** Every value of the form sits, after the save, in the section its
      route names. */
  lemma CollectedRouted(record: Record, mode: EditMode, form: map<string, string>, notesBox: string,
                        annotator: string, now: string)
    requires Save(record, mode, Collect(form, notesBox), annotator, now).Saved?
    ensures RoutedAll(Save(record, mode, Collect(form, notesBox), annotator, now).record, mode, form)
  {
    forall name | name in form && name != NotesKey
      ensures RoutedTo(Save(record, mode, Collect(form, notesBox), annotator, now).record, mode, name, Json.Str(form[name]))
    {
      SavedEntry(record, mode, Collect(form, notesBox), annotator, now, name);
    }
  }

  /** A record whose header shows and whose sections hold each value of a
      form that fits the table where its route stores it opens with that
      form. */
  lemma PrefillReadsBack(out: Record, mode: EditMode, fields: seq<Field>, form: map<string, string>)
    requires HeaderShows(out) && ReadSections(out).Some?
    requires FitsTable(form, fields, mode)
    requires RoutedAll(out, mode, form)
    ensures PrefillWith(out, fields) == Some(form)
  {
    FormReadsBack(out, mode, fields, form);
  }

  /** The sections of such a record give back the form. */
  lemma FormReadsBack(out: Record, mode: EditMode, fields: seq<Field>, form: map<string, string>)
    requires ReadSections(out).Some?
    requires FitsTable(form, fields, mode)
    requires RoutedAll(out, mode, form)
    ensures Form(fields, ReadSections(out).value) == form
  {
    FieldsReadBack(out, mode, fields, form);
    FormMatches(fields, ReadSections(out).value, form);
  }

  /** Each field of the table reads back its value in the form. */
  lemma FieldsReadBack(out: Record, mode: EditMode, fields: seq<Field>, form: map<string, string>)
    requires ReadSections(out).Some?
    requires FitsTable(form, fields, mode)
    requires RoutedAll(out, mode, form)
    ensures forall k :: 0 <= k < |fields| ==> FieldValue(fields[k], ReadSections(out).value) == form[fields[k].name]
  {
  }

  /** The form read back after the save is the form saved. */
  lemma FormReloads(record: Record, mode: EditMode, form: map<string, string>, notesBox: string,
                    annotator: string, now: string)
    requires Save(record, mode, Collect(form, notesBox), annotator, now).Saved?
    requires HeaderShows(record)
    requires ReadSections(Save(record, mode, Collect(form, notesBox), annotator, now).record).Some?
    requires form.Keys == FieldNames(Fields(mode))
    requires Offered(form, Fields(mode))
    ensures Prefill(Save(record, mode, Collect(form, notesBox), annotator, now).record, mode) == Some(form)
  {
    FieldTableShape(mode);
    FieldNamesDistinct(mode);
    FormReloadsWith(record, mode, Fields(mode), form, notesBox, annotator, now);
  }

  /** The same round trip holds for the program as written: its style field
      also reads the manual entry first. */
  lemma FormReloadsAsWritten(record: Record, mode: EditMode, form: map<string, string>, notesBox: string,
                             annotator: string, now: string)
    requires Save(record, mode, Collect(form, notesBox), annotator, now).Saved?
    requires HeaderShows(record)
    requires ReadSections(Save(record, mode, Collect(form, notesBox), annotator, now).record).Some?
    requires form.Keys == FieldNames(FieldsAsWritten(mode))
    requires Offered(form, FieldsAsWritten(mode))
    ensures PrefillAsWritten(Save(record, mode, Collect(form, notesBox), annotator, now).record, mode) == Some(form)
  {
    FieldTableShape(mode);
    FieldNamesDistinct(mode);
    FormReloadsWith(record, mode, FieldsAsWritten(mode), form, notesBox, annotator, now);
  }

  /** A form with the fields' names and values is the form they produce. */
  lemma FormMatches(fields: seq<Field>, secs: Sections, form: map<string, string>)
    requires DistinctNames(fields)
    requires form.Keys == FieldNames(fields)
    requires forall k :: 0 <= k < |fields| ==> FieldValue(fields[k], secs) == form[fields[k].name]
    ensures Form(fields, secs) == form
  {
    var built := Form(fields, secs);
    forall name | name in form ensures built[name] == form[name] {
      var k := NamedField(fields, name);
      FormAt(fields, secs, k);
    }
  }

  /** The notes read back after the save are the collected notes, one per
      line, and collecting them again gives the same list. */
  lemma NotesReload(record: Record, mode: EditMode, form: map<string, string>, notesBox: string,
                    annotator: string, now: string, keyOrder: Record -> seq<string>)
    requires Save(record, mode, Collect(form, notesBox), annotator, now).Saved?
    ensures var out := Save(record, mode, Collect(form, notesBox), annotator, now).record;
            NotesText(out, keyOrder) == Some(Join(Notes(notesBox), "\n"))
  {
    var notes := Notes(notesBox);
    Json.StrArrRoundTrip(notes);
  }

  /** Saving the form and opening the file again shows the same selections
      and the same notes: what the annotator saved is what they see. */
  lemma SaveThenReload(record: Record, mode: EditMode, form: map<string, string>, notesBox: string,
                       annotator: string, now: string, keyOrder: Record -> seq<string>)
    requires HeaderShows(record) && ReadSections(record).Some?
    requires form.Keys == FieldNames(Fields(mode))
    requires Offered(form, Fields(mode))
    ensures var out := Save(record, mode, Collect(form, notesBox), annotator, now);
            && out.Saved?
            && Prefill(out.record, mode) == Some(form)
            && NotesText(out.record, keyOrder) == Some(Join(Notes(notesBox), "\n"))
            && Notes(Join(Notes(notesBox), "\n")) == Notes(notesBox)
  {
    SaveOfShownFormSucceeds(record, mode, Collect(form, notesBox), annotator, now);
    FormReloads(record, mode, form, notesBox, annotator, now);
    NotesReload(record, mode, form, notesBox, annotator, now, keyOrder);
    NotesIdempotent(notesBox);
  }

  /* ---------------------------------------------------------------- */
  /* A record as the tagger writes it                                  */
  /* ---------------------------------------------------------------- */

  /** The sections the form reads from a freshly tagged record: the tags,
      the linguistic analysis, and no manual annotations yet. */
  lemma FreshSections(r: Metadata.Record)
    ensures ReadSections(Metadata.ToJson(r))
            == Some(Sections(Metadata.AutomatedTagsJson(r.automatedTags).fields,
                             Metadata.LinguisticAnalysisJson(r.linguisticAnalysis).fields, map[]))
  {
    Metadata.NoManualAnnotations(r);
  }

  /** The header of a freshly tagged record shows: every section it reads
      is an object and the duration is a number. */
  lemma FreshHeaderShows(r: Metadata.Record)
    ensures HeaderShows(Metadata.ToJson(r))
  {
    var m := Metadata.ToJson(r);
    Metadata.DescriptionKept(r);
    assert TextKey in m;
    assert Section(m, StatusKey).Some?;
    assert Section(m, FileInfoKey).Some?;
    assert Section(m, AudioKey) == Some(Metadata.AudioPropertiesJson(r.audioProperties).fields);
    assert Section(m, TranscriptionKey) == Some(map[]);
  }

  /** The form's entry for the field at `k`, when names are distinct. */
  lemma {:induction false} FormAt(fields: seq<Field>, secs: Sections, k: nat)
    requires k < |fields|
    requires forall j :: k < j < |fields| ==> fields[j].name != fields[k].name
    ensures fields[k].name in Form(fields, secs)
    ensures Form(fields, secs)[fields[k].name] == FieldValue(fields[k], secs)
  {
    var n := |fields|;
    var init := fields[..n - 1];
    var last := fields[n - 1];
    assert Form(fields, secs) == Form(init, secs)[last.name := FieldValue(last, secs)];
    if k < n - 1 {
      assert init[k] == fields[k];
      assert forall j :: k < j < |init| ==> init[j] == fields[j];
      FormAt(init, secs, k);
    }
  }

  /** As written, the speaking style starts empty whenever there is no
      manual entry and no automated `speaking_style` entry. */
  lemma StyleBlankAsWritten(secs: Sections, mode: EditMode)
    requires secs.manual == map[] && "speaking_style" !in secs.automated
    ensures var form := Form(FieldsAsWritten(mode), secs);
            "speaking_style" in form && form["speaking_style"] == ""
  {
    FieldNamesDistinct(mode);
    var fields := FieldsAsWritten(mode);
    var k := if mode == Full then 4 else 2;
    assert fields[k] == StyleFieldAsWritten;
    FormAt(fields, secs, k);
    assert Resolve(StyleFieldAsWritten.sources, secs, Json.Str("")) == Json.Str("");
  }

  /** As written, a freshly tagged record opens with an empty speaking
      style: the field looks for `speaking_style`, the tagger writes
      `speaking_style_suggested`. */
  lemma FreshStyleBlankAsWritten(r: Metadata.Record, mode: EditMode)
    ensures var form := PrefillAsWritten(Metadata.ToJson(r), mode);
            form.Some? && "speaking_style" in form.value && form.value["speaking_style"] == ""
  {
    FreshSections(r);
    FreshHeaderShows(r);
    StyleBlankAsWritten(ReadSections(Metadata.ToJson(r)).value, mode);
  }

  /** The suggestions a record's sections hold, as the form sees them. */
  datatype Suggestions = Suggestions(
    style: Labels.SpeakingStyle, vocabulary: Labels.Vocabulary, codeSwitching: Option<Labels.CodeSwitch>,
    noise: Labels.NoiseLevel, clarity: Labels.SpeechClarity)

  /** The sections of a record holding `s` and no manual entries. */
  predicate Suggesting(secs: Sections, s: Suggestions) {
    && secs.manual == map[]
    && "speaking_style_suggested" in secs.automated
    && secs.automated["speaking_style_suggested"] == Json.Str(s.style.Name())
    && "noise_level" in secs.automated && secs.automated["noise_level"] == Json.Str(s.noise.Name())
    && "speech_clarity" in secs.automated && secs.automated["speech_clarity"] == Json.Str(s.clarity.Name())
    && "speaker_gender" !in secs.automated && "dialect" !in secs.automated
    && "code_switching" in secs.linguistic
    && secs.linguistic["code_switching"] ==
         Json.Str(if s.codeSwitching.Some? then s.codeSwitching.value.Name() else "unknown")
    && "vocabulary_type_suggested" in secs.linguistic
    && secs.linguistic["vocabulary_type_suggested"] == Json.Str(s.vocabulary.Name())
  }

  lemma SuggestedStyle(secs: Sections, s: Suggestions)
    requires Suggesting(secs, s)
    ensures FieldValue(StyleField, secs) == s.style.Name()
  {
    assert s.style.Name() in StyleOptions;
    ResolveFirstPresent(StyleField.sources, secs, Json.Str(""), 1);
  }

  lemma SuggestedVocabulary(secs: Sections, s: Suggestions)
    requires Suggesting(secs, s)
    ensures FieldValue(VocabularyField, secs) == s.vocabulary.Name()
  {
    assert s.vocabulary.Name() in VocabularyOptions;
    ResolveFirstPresent(VocabularyField.sources, secs, Json.Str(""), 1);
  }

  lemma SuggestedCodeSwitch(secs: Sections, s: Suggestions)
    requires Suggesting(secs, s)
    ensures FieldValue(CodeSwitchField, secs) == (if s.codeSwitching.Some? then s.codeSwitching.value.Name() else "")
  {
    ResolveFirstPresent(CodeSwitchField.sources, secs, Json.Str(""), 1);
    if s.codeSwitching.Some? {
      assert s.codeSwitching.value.Name() in CodeSwitchOptions;
    } else {
      assert "unknown" !in CodeSwitchOptions;
    }
  }

  lemma SuggestedTags(secs: Sections, s: Suggestions)
    requires Suggesting(secs, s)
    ensures FieldValue(NoiseField, secs) == s.noise.Name()
    ensures FieldValue(ClarityField, secs) == s.clarity.Name()
    ensures FieldValue(GenderField, secs) == "" && FieldValue(DialectField, secs) == ""
  {
    assert s.noise.Name() in NoiseOptions;
    assert s.clarity.Name() in ClarityOptions;
  }

  /** Without manual entries, the form starts from the suggestions found in
      the automated and linguistic sections. */
  lemma SuggestionsPrefilled(secs: Sections, mode: EditMode, s: Suggestions)
    requires Suggesting(secs, s)
    ensures var form := Form(Fields(mode), secs);
            && "speaking_style" in form && form["speaking_style"] == s.style.Name()
            && "vocabulary_type" in form && form["vocabulary_type"] == s.vocabulary.Name()
            && "code_switching" in form
            && form["code_switching"] == (if s.codeSwitching.Some? then s.codeSwitching.value.Name() else "")
            && "speaker_gender" in form && form["speaker_gender"] == ""
            && "dialect" in form && form["dialect"] == ""
            && (mode == Full ==>
                  && "noise_level" in form && form["noise_level"] == s.noise.Name()
                  && "speech_clarity" in form && form["speech_clarity"] == s.clarity.Name())
  {
    var fields := Fields(mode);
    FieldNamesDistinct(mode);
    var o := if mode == Full then 2 else 0;
    assert fields[o] == GenderField && fields[o + 1] == CodeSwitchField && fields[o + 2] == StyleField
           && fields[o + 3] == DialectField && fields[o + 4] == VocabularyField;
    SuggestedShared(secs, fields, o, s);
    if mode == Full {
      TagsPrefilled(secs, s);
    }
  }

  /** In full mode the noise and clarity fields start at the tagger's tags. */
  lemma TagsPrefilled(secs: Sections, s: Suggestions)
    requires Suggesting(secs, s)
    ensures var form := Form(Fields(Full), secs);
            && "noise_level" in form && form["noise_level"] == s.noise.Name()
            && "speech_clarity" in form && form["speech_clarity"] == s.clarity.Name()
  {
    var fields := Fields(Full);
    FieldNamesDistinct(Full);
    SuggestedTags(secs, s);
    assert fields[0] == NoiseField && fields[1] == ClarityField;
    FormHas(fields, secs, 0, s.noise.Name());
    FormHas(fields, secs, 1, s.clarity.Name());
  }

  /** The five fields both modes show, found from offset `o`. */
  lemma SuggestedShared(secs: Sections, fields: seq<Field>, o: nat, s: Suggestions)
    requires Suggesting(secs, s) && DistinctNames(fields) && o + 5 <= |fields|
    requires fields[o] == GenderField && fields[o + 1] == CodeSwitchField && fields[o + 2] == StyleField
             && fields[o + 3] == DialectField && fields[o + 4] == VocabularyField
    ensures var form := Form(fields, secs);
            && "speaking_style" in form && form["speaking_style"] == s.style.Name()
            && "vocabulary_type" in form && form["vocabulary_type"] == s.vocabulary.Name()
            && "code_switching" in form
            && form["code_switching"] == (if s.codeSwitching.Some? then s.codeSwitching.value.Name() else "")
            && "speaker_gender" in form && form["speaker_gender"] == ""
            && "dialect" in form && form["dialect"] == ""
  {
    SuggestedTags(secs, s);
    FormHas(fields, secs, o, "");
    SuggestedCodeSwitch(secs, s);
    FormHas(fields, secs, o + 1, if s.codeSwitching.Some? then s.codeSwitching.value.Name() else "");
    SuggestedStyle(secs, s);
    FormHas(fields, secs, o + 2, s.style.Name());
    FormHas(fields, secs, o + 3, "");
    SuggestedVocabulary(secs, s);
    FormHas(fields, secs, o + 4, s.vocabulary.Name());
  }

  /** The form holds a field's own value under its name. */
  lemma FormHas(fields: seq<Field>, secs: Sections, k: nat, value: string)
    requires DistinctNames(fields) && k < |fields| && FieldValue(fields[k], secs) == value
    ensures fields[k].name in Form(fields, secs) && Form(fields, secs)[fields[k].name] == value
  {
    FormAt(fields, secs, k);
  }

  /** With the speaking style read from the tagger's suggestion, a freshly
      tagged record opens with every suggestion the tagger made: style,
      vocabulary, code-switching when detected, and in full mode the noise
      and clarity tags; gender and dialect start empty. */
  lemma FreshRecordPrefill(r: Metadata.Record, mode: EditMode)
    ensures var form := Prefill(Metadata.ToJson(r), mode);
            && form.Some?
            && "speaking_style" in form.value
            && form.value["speaking_style"] == r.automatedTags.speakingStyleSuggested.Name()
            && "vocabulary_type" in form.value
            && form.value["vocabulary_type"] == r.linguisticAnalysis.vocabularyTypeSuggested.Name()
            && "code_switching" in form.value
            && form.value["code_switching"] ==
                 (if r.linguisticAnalysis.codeSwitching.Some? then r.linguisticAnalysis.codeSwitching.value.Name() else "")
            && (mode == Full ==>
                  && "noise_level" in form.value && form.value["noise_level"] == r.automatedTags.noiseLevel.Name()
                  && "speech_clarity" in form.value
                  && form.value["speech_clarity"] == r.automatedTags.speechClarity.Name())
  {
    FreshSections(r);
    FreshHeaderShows(r);
    var secs := ReadSections(Metadata.ToJson(r)).value;
    var t := r.automatedTags;
    var l := r.linguisticAnalysis;
    var s := Suggestions(t.speakingStyleSuggested, l.vocabularyTypeSuggested, l.codeSwitching, t.noiseLevel, t.speechClarity);
    assert Suggesting(secs, s);
    SuggestionsPrefilled(secs, mode, s);
  }
}
