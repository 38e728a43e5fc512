/** `LanguageAnalyzer`: code-switching detection, keyword-based vocabulary
    domain, and the normalisation fallback. The Thai normaliser of PyThaiNLP
    is foreign and enters as a partial function (`None` when it raises). */
module Language {
  import opened Wrappers
  import opened PyStr
  import opened Labels

  /* ---------------------------------------------------------------- */
  /* Code-switching                                                    */
  /* ---------------------------------------------------------------- */

  /** A character of the Thai block U+0E00..U+0E7F. */
  predicate IsThai(c: char) {
    '\U{0E00}' <= c <= '\U{0E7F}'
  }

  /** `'a' <= c.lower() <= 'z'`. Python compares the lower-cased string, so
      U+0130 (lower case "i" + U+0307) and the Kelvin sign count as Latin. */
  predicate IsLatin(c: char) {
    'a' <= LowerChar(c)[0] <= 'z'
  }

  lemma ThaiIsNotLatin(c: char)
    requires IsThai(c)
    ensures !IsLatin(c)
  {
  }

  function CountThai(s: string): (n: nat)
    ensures n <= |s|
  {
    if s == [] then 0 else (if IsThai(s[0]) then 1 else 0) + CountThai(s[1..])
  }

  function CountLatin(s: string): (n: nat)
    ensures n <= |s|
  {
    if s == [] then 0 else (if IsLatin(s[0]) then 1 else 0) + CountLatin(s[1..])
  }

  /** Below this share of Latin letters, in percent, the Latin is noise. */
  const SwitchThresholdPct: real := 5.0

  /** `detect_code_switching`: code-switching when Latin letters make up at
      least 5% of the Thai and Latin letters, i.e. `20 * latin >= thai + latin`. */
  function DetectCodeSwitching(text: string): (r: CodeSwitch)
    ensures text == [] ==> r == NoCodeSwitching
    ensures r == CodeSwitching <==>
              var thai := CountThai(text);
              var latin := CountLatin(text);
              thai + latin > 0 && 20 * latin >= thai + latin
  {
    if text == [] then NoCodeSwitching
    else
      var thai := CountThai(text);
      var latin := CountLatin(text);
      var total := thai + latin;
      if total == 0 then NoCodeSwitching
      else
        var pct := (latin as real / total as real) * 100.0;
        PercentThreshold(latin, total);
        if pct < SwitchThresholdPct then NoCodeSwitching else CodeSwitching
  }

  /** The percentage test in integers. */
  lemma PercentThreshold(latin: nat, total: nat)
    requires total > 0
    ensures (latin as real / total as real) * 100.0 >= SwitchThresholdPct <==> 20 * latin >= total
  {
    var q := latin as real / total as real;
    assert q * total as real == latin as real;
    if q * 100.0 >= 5.0 {
      assert q * total as real * 100.0 >= 5.0 * total as real;
    } else {
      assert q * total as real * 100.0 < 5.0 * total as real;
    }
  }

  lemma {:induction false} AllThaiCounts(s: string)
    requires forall k :: 0 <= k < |s| ==> IsThai(s[k])
    ensures CountThai(s) == |s| && CountLatin(s) == 0
  {
    if s != [] {
      AllThaiCounts(s[1..]);
    }
  }

  lemma {:induction false} NoThaiCount(s: string)
    requires forall k :: 0 <= k < |s| ==> !IsThai(s[k])
    ensures CountThai(s) == 0
  {
    if s != [] {
      NoThaiCount(s[1..]);
    }
  }

  /** Text written in Thai letters only never switches code; text with a Latin
      letter and no Thai letter always does. */
  lemma PureTextsDecided(s: string)
    ensures (forall k :: 0 <= k < |s| ==> IsThai(s[k])) ==> DetectCodeSwitching(s) == NoCodeSwitching
    ensures (forall k :: 0 <= k < |s| ==> !IsThai(s[k])) && CountLatin(s) > 0
            ==> DetectCodeSwitching(s) == CodeSwitching
  {
    if forall k :: 0 <= k < |s| ==> IsThai(s[k]) {
      AllThaiCounts(s);
    }
    if forall k :: 0 <= k < |s| ==> !IsThai(s[k]) {
      NoThaiCount(s);
    }
  }

  /* ---------------------------------------------------------------- */
  /* Vocabulary domain                                                 */
  /* ---------------------------------------------------------------- */

  const BusinessKeywords: seq<string> := [
    "roi", "stakeholder", "revenue", "profit", "ผลกำไร", "รายได้",
    "ธุรกิจ", "การตลาด", "ลงทุน", "หุ้น", "บริษัท", "กำไร"]

  const MedicalKeywords: seq<string> := [
    "patient", "doctor", "hospital", "ผู้ป่วย", "แพทย์", "โรงพยาบาล",
    "อาการ", "การรักษา", "โรค", "ยา", "การวินิจฉัย", "myocardial"]

  const TechnicalKeywords: seq<string> := [
    "database", "server", "code", "algorithm", "deploy", "api",
    "โปรแกรม", "ระบบ", "เซิร์ฟเวอร์", "คอมพิวเตอร์", "software", "hardware"]

  /** The number of keywords of `kws` occurring in `text`, each counted once
      however often it occurs. */
  function CountFound(kws: seq<string>, text: string): (n: nat)
    ensures n <= |kws|
  {
    if kws == [] then 0
    else (if Contains(text, kws[0]) then 1 else 0) + CountFound(kws[1..], text)
  }

  /** The keywords of `kws` that occur in `text`. */
  ghost function FoundSet(kws: seq<string>, text: string): set<string> {
    set k | k in kws && Contains(text, k)
  }

  ghost predicate Distinct(kws: seq<string>) {
    forall i, j :: 0 <= i < j < |kws| ==> kws[i] != kws[j]
  }

  /** For a list without repetitions the count is the number of distinct
      keywords found. */
  lemma {:induction false} CountFoundIsCardinality(kws: seq<string>, text: string)
    requires Distinct(kws)
    ensures CountFound(kws, text) == |FoundSet(kws, text)|
  {
    if kws != [] {
      CountFoundIsCardinality(kws[1..], text);
      var rest := FoundSet(kws[1..], text);
      assert kws[0] !in kws[1..];
      assert kws[0] !in rest;
      if Contains(text, kws[0]) {
        assert FoundSet(kws, text) == {kws[0]} + rest;
      } else {
        assert FoundSet(kws, text) == rest;
      }
    }
  }

  /** None of the three keyword lists repeats a keyword, so each domain count
      is a number of distinct keywords found, at most 12. */
  lemma KeywordListsDistinct()
    ensures |BusinessKeywords| == 12 && Distinct(BusinessKeywords)
    ensures |MedicalKeywords| == 12 && Distinct(MedicalKeywords)
    ensures |TechnicalKeywords| == 12 && Distinct(TechnicalKeywords)
  {
  }

  /** The domain counts of `analyze_vocabulary_type`. */
  datatype DomainCounts = DomainCounts(business: nat, medical: nat, technical: nat) {
    function Max(): (m: nat)
      ensures m == business || m == medical || m == technical
      ensures business <= m && medical <= m && technical <= m
    {
      if business >= medical && business >= technical then business
      else if medical >= technical then medical
      else technical
    }

    /** How many domains have at least two keywords. */
    function DomainsPresent(): (n: nat)
      ensures n <= 3
    {
      (if business >= 2 then 1 else 0) + (if medical >= 2 then 1 else 0) + (if technical >= 2 then 1 else 0)
    }
  }

  function CountDomains(lowered: string): (c: DomainCounts)
    ensures c.business <= 12 && c.medical <= 12 && c.technical <= 12
  {
    DomainCounts(
      CountFound(BusinessKeywords, lowered),
      CountFound(MedicalKeywords, lowered),
      CountFound(TechnicalKeywords, lowered))
  }

  /** A single domain wins once some domain has three keywords, medical
      before technical before business among those at the maximum; otherwise
      two domains with two keywords each make the vocabulary mixed. */
  function DecideVocabulary(c: DomainCounts): (v: Vocabulary)
    ensures v == MedicalVocab <==> c.Max() >= 3 && c.medical == c.Max()
    ensures v == TechnicalVocab <==> c.Max() >= 3 && c.technical == c.Max() && c.medical < c.Max()
    ensures v == BusinessVocab <==>
              c.Max() >= 3 && c.business == c.Max() && c.medical < c.Max() && c.technical < c.Max()
    ensures v == MixedVocab <==> c.Max() < 3 && c.DomainsPresent() >= 2
    ensures v == GeneralVocab <==> c.Max() < 3 && c.DomainsPresent() < 2
  {
    var m := c.Max();
    if m >= 3 && c.medical == m then MedicalVocab
    else if m >= 3 && c.technical == m then TechnicalVocab
    else if m >= 3 && c.business == m then BusinessVocab
    else if c.DomainsPresent() >= 2 then MixedVocab
    else GeneralVocab
  }

  /** A winning domain always holds the maximum count. */
  lemma DomainWinnerIsMaximal(c: DomainCounts)
    ensures DecideVocabulary(c) == MedicalVocab ==> c.medical >= c.business && c.medical >= c.technical
    ensures DecideVocabulary(c) == TechnicalVocab ==> c.technical > c.medical && c.technical >= c.business
    ensures DecideVocabulary(c) == BusinessVocab ==> c.business > c.medical && c.business > c.technical
    ensures c.Max() >= 3 ==> DecideVocabulary(c) !in {MixedVocab, GeneralVocab}
  {
  }

  /** `analyze_vocabulary_type`. */
  function AnalyzeVocabularyType(text: string): (v: Vocabulary)
    ensures text == [] ==> v == GeneralVocab
    ensures v == DecideVocabulary(CountDomains(Lower(text)))
  {
    if text == [] then
      EmptyTextGuardRedundant();
      GeneralVocab
    else DecideVocabulary(CountDomains(Lower(text)))
  }

  lemma {:induction false} CountFoundEmpty(kws: seq<string>)
    requires forall k :: 0 <= k < |kws| ==> kws[k] != []
    ensures CountFound(kws, []) == 0
  {
    if kws != [] {
      assert !OccursAt([], kws[0], 0);
      CountFoundEmpty(kws[1..]);
    }
  }

  /** Upper and lower case spell the same keywords: the domain of a text
      does not change when it is lower-cased first. */
  lemma VocabularyCaseInsensitive(text: string)
    ensures AnalyzeVocabularyType(Lower(text)) == AnalyzeVocabularyType(text)
  {
    LowerIdempotent(text);
  }

  /** The early return for empty text agrees with the general rule: the
      empty text finds no keyword. */
  lemma EmptyTextGuardRedundant()
    ensures DecideVocabulary(CountDomains(Lower([]))) == GeneralVocab
  {
    assert Lower([]) == [];
    NoEmptyKeyword();
    CountFoundEmpty(BusinessKeywords);
    CountFoundEmpty(MedicalKeywords);
    CountFoundEmpty(TechnicalKeywords);
    assert CountDomains([]) == DomainCounts(0, 0, 0);
  }

  lemma NoEmptyKeyword()
    ensures forall k :: 0 <= k < |BusinessKeywords| ==> BusinessKeywords[k] != []
    ensures forall k :: 0 <= k < |MedicalKeywords| ==> MedicalKeywords[k] != []
    ensures forall k :: 0 <= k < |TechnicalKeywords| ==> TechnicalKeywords[k] != []
  {
  }

  /* ---------------------------------------------------------------- */
  /* Normalisation                                                     */
  /* ---------------------------------------------------------------- */

  /** `normalize_text`: the normaliser's answer when it is installed, the text
      is non-empty and the call succeeds; the text unchanged otherwise. */
  function NormalizeText(text: string, available: bool, normalizer: string -> Option<string>)
    : (r: string)
    ensures !available || text == [] || normalizer(text).None? ==> r == text
    ensures available && text != [] && normalizer(text).Some? ==> r == normalizer(text).value
  {
    if !available || text == [] then text
    else
      match normalizer(text)
      case None => text
      case Some(normalized) => normalized
  }

  /** Normalising changes the text exactly when the normaliser runs, answers,
      and answers something different. */
  lemma NormalizeTextChanges(text: string, available: bool, normalizer: string -> Option<string>)
    ensures NormalizeText(text, available, normalizer) != text <==>
              available && text != [] && normalizer(text).Some? && normalizer(text).value != text
  {
  }
}
