/** `ThaiSTTAutoTagger._get_normalization_notes`: the human-readable summary
    of what text normalisation changed, stored in the metadata record. */
module Normalization {
  import opened PyStr

  const NoChangesNote: string := "No changes made - " + "text is already in standard form"

  /** One kind of change a note reports. */
  datatype Change = LengthChanged(before: nat, after: nat) | Numbers | Whitespace | ZeroWidth | Minor {
    function Text(): (note: string)
      ensures |note| >= 2
      ensures note[0] == 'N' ==> this == Numbers && note[1] == 'u'
    {
      match this
      case LengthChanged(b, a) =>
        "Length changed: " + NatToString(b) + " → " + NatToString(a) + " characters"
      case Numbers => "Numbers may have been normalized"
      case Whitespace => "Whitespace standardized"
      case ZeroWidth => "Zero-width spaces removed"
      case Minor => "Minor character standardization applied"
    }
  }

  /** A decimal digit as `\d` matches it: ASCII and Thai digits. */
  predicate IsDecimalDigit(c: char) {
    IsAsciiDigit(c) || '\U{0E50}' <= c <= '\U{0E59}'
  }

  predicate HasDigit(s: string) {
    exists k :: 0 <= k < |s| && IsDecimalDigit(s[k])
  }

  /** Two spaces in a row, a newline or a tab. */
  predicate HasIrregularSpace(s: string) {
    Contains(s, "  ") || '\n' in s || '\t' in s
  }

  const ZeroWidthSpace: char := '\U{200B}'

  /** The changes reported for two different texts, in the order they are
      checked; `Minor` stands alone when nothing else applies. */
  function Changes(original: string, normalized: string): (cs: seq<Change>)
    ensures 1 <= |cs| <= 4
    ensures LengthChanged(|original|, |normalized|) in cs <==> |original| != |normalized|
    ensures Numbers in cs <==> HasDigit(original)
    ensures Whitespace in cs <==> HasIrregularSpace(original)
    ensures ZeroWidth in cs <==> ZeroWidthSpace in original
    ensures Minor in cs <==> cs == [Minor]
    ensures Minor in cs <==>
              |original| == |normalized| && !HasDigit(original)
              && !HasIrregularSpace(original) && ZeroWidthSpace !in original
    ensures |original| != |normalized| ==> cs[0] == LengthChanged(|original|, |normalized|)
  {
    var found :=
      (if |original| != |normalized| then [LengthChanged(|original|, |normalized|)] else [])
      + (if HasDigit(original) then [Numbers] else [])
      + (if HasIrregularSpace(original) then [Whitespace] else [])
      + (if ZeroWidthSpace in original then [ZeroWidth] else []);
    if found == [] then [Minor] else found
  }

  function Texts(cs: seq<Change>): (notes: seq<string>)
    ensures |notes| == |cs|
    ensures forall k :: 0 <= k < |cs| ==> notes[k] == cs[k].Text()
  {
    seq(|cs|, k requires 0 <= k < |cs| => cs[k].Text())
  }

  /** `_get_normalization_notes`. */
  function NormalizationNotes(original: string, normalized: string): (message: string)
    ensures original == normalized ==> message == NoChangesNote
    ensures original != normalized ==> message == Join(Texts(Changes(original, normalized)), "; ")
  {
    if original == normalized then NoChangesNote
    else Join(Texts(Changes(original, normalized)), "; ")
  }

  /** The fixed message appears exactly when normalisation changed nothing:
      every note for a change starts differently. */
  lemma NoChangesIff(original: string, normalized: string)
    ensures NormalizationNotes(original, normalized) == NoChangesNote <==> original == normalized
  {
    if original != normalized {
      NoteListDiffers(Changes(original, normalized));
    }
  }

  /** A joined list of change notes never reads as the fixed message: its
      first note does not start with "No". */
  lemma NoteListDiffers(cs: seq<Change>)
    requires cs != []
    ensures Join(Texts(cs), "; ") != NoChangesNote
  {
    var notes := Texts(cs);
    var message := Join(notes, "; ");
    var first := notes[0];
    JoinStartsWithFirst(notes, "; ");
    assert message[..|first|] == first;
    assert message[0] == first[0] && message[1] == first[1];
    assert NoChangesNote[0] == 'N' && NoChangesNote[1] == 'o';
  }
}
