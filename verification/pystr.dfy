/** The handful of Python `str` operations the tagger and the annotation
    tool rely on, over `string` = `seq<char>` where one `char` is one Unicode
    scalar value (so `|s|` is Python's `len(s)`). */
module PyStr {

  /* ---------------------------------------------------------------- */
  /* Whitespace and strip()                                            */
  /* ---------------------------------------------------------------- */

  /** Python's `str.isspace()` on one character: the control characters
      U+0009..U+000D and U+001C..U+001F, and the Unicode space separators
      and line/paragraph separators. */
  predicate IsSpace(c: char) {
    || ('\t' <= c <= '\r')
    || ('\U{1C}' <= c <= '\U{1F}')
    || c == ' ' || c == '\U{85}' || c == '\U{A0}' || c == '\U{1680}'
    || ('\U{2000}' <= c <= '\U{200A}')
    || c == '\U{2028}' || c == '\U{2029}' || c == '\U{202F}'
    || c == '\U{205F}' || c == '\U{3000}'
  }

  /** True when every character is whitespace; `s.strip()` is then empty. */
  predicate Blank(s: string) {
    forall k :: 0 <= k < |s| ==> IsSpace(s[k])
  }

  /** `s.lstrip()`: drops the leading whitespace. */
  function LStrip(s: string): (r: string)
    ensures |r| <= |s| && r == s[|s| - |r|..]
    ensures forall k :: 0 <= k < |s| - |r| ==> IsSpace(s[k])
    ensures r != [] ==> !IsSpace(r[0])
  {
    if s != [] && IsSpace(s[0]) then LStrip(s[1..]) else s
  }

  /** `s.rstrip()`: drops the trailing whitespace. */
  function RStrip(s: string): (r: string)
    ensures |r| <= |s| && r == s[..|r|]
    ensures forall k :: |r| <= k < |s| ==> IsSpace(s[k])
    ensures r != [] ==> !IsSpace(r[|r| - 1])
  {
    if s != [] && IsSpace(s[|s| - 1]) then RStrip(s[..|s| - 1]) else s
  }

  /** `s.strip()`. */
  function Strip(s: string): (r: string)
    ensures |r| <= |s|
    ensures r == [] <==> Blank(s)
    ensures r != [] ==> !IsSpace(r[0]) && !IsSpace(r[|r| - 1])
  {
    var l := LStrip(s);
    var r := RStrip(l);
    assert Blank(s) ==> l == [];
    r
  }

  /** A string that neither starts nor ends with whitespace is its own strip. */
  lemma StripUntrimmed(s: string)
    requires s != [] && !IsSpace(s[0]) && !IsSpace(s[|s| - 1])
    ensures Strip(s) == s
  {
  }

  /** Appending whitespace to a string that does not end in whitespace does not
      change its strip. */
  lemma {:induction false} StripTrailingSpace(s: string, c: char)
    requires s != [] && !IsSpace(s[0]) && !IsSpace(s[|s| - 1]) && IsSpace(c)
    ensures Strip(s + [c]) == s
  {
    assert LStrip(s + [c]) == s + [c];
    assert (s + [c])[..|s + [c]| - 1] == s;
    assert RStrip(s + [c]) == RStrip(s);
  }

  /* ---------------------------------------------------------------- */
  /* lower()                                                           */
  /* ---------------------------------------------------------------- */

  /** Python's `str.lower()` on one character, for the characters of ASCII
      and Latin-1 and for every character whose lower case is or begins with
      an ASCII letter: A-Z, the Latin-1 capitals U+00C0-U+00DE except the
      multiplication sign U+00D7, the Kelvin sign U+212A (to "k") and U+0130
      (to "i" + combining dot U+0307). Every other character is kept as it
      is; the Thai block has no case. */
  function LowerChar(c: char): (r: string)
    ensures |r| >= 1
  {
    if 'A' <= c <= 'Z' then [(c as int + 32) as char]
    else if '\U{00C0}' <= c <= '\U{00DE}' && c != '\U{00D7}' then [(c as int + 32) as char]
    else if c == '\U{212A}' then "k"
    else if c == '\U{0130}' then "i\U{0307}"
    else [c]
  }

  /** `s.lower()` as `LowerChar` of each character in turn: exact for text
      whose capitals are ASCII or Latin-1 (no final-sigma rule, no other
      scripts). */
  function Lower(s: string): (r: string)
    ensures |r| >= |s|
    ensures r == [] <==> s == []
  {
    if s == [] then [] else LowerChar(s[0]) + Lower(s[1..])
  }

  lemma {:induction false} LowerAppend(a: string, b: string)
    ensures Lower(a + b) == Lower(a) + Lower(b)
  {
    if a == [] {
      assert a + b == b;
    } else {
      assert (a + b)[1..] == a[1..] + b;
      LowerAppend(a[1..], b);
    }
  }

  /** Lower-casing twice is lower-casing once. */
  lemma {:induction false} LowerIdempotent(s: string)
    ensures Lower(Lower(s)) == Lower(s)
  {
    if s != [] {
      var c := s[0];
      LowerAppend(LowerChar(c), Lower(s[1..]));
      LowerIdempotent(s[1..]);
      if c == '\U{0130}' {
        assert LowerChar(c) == ['i'] + ['\U{0307}'];
        LowerAppend(['i'], ['\U{0307}']);
        assert Lower(['i']) == ['i'];
        assert Lower(['\U{0307}']) == ['\U{0307}'];
      } else {
        assert |LowerChar(c)| == 1;
        assert Lower(LowerChar(c)) == LowerChar(LowerChar(c)[0]) + Lower([]);
      }
    }
  }

  /* ---------------------------------------------------------------- */
  /* Substrings: `sub in s`                                            */
  /* ---------------------------------------------------------------- */

  /** `sub` occurs in `s` starting at index `i`. */
  predicate OccursAt(s: string, sub: string, i: int) {
    0 <= i && i + |sub| <= |s| && s[i..i + |sub|] == sub
  }

  /** Python's `sub in s`, scanning from the left. */
  function Contains(s: string, sub: string): (b: bool)
    ensures b <==> exists i :: OccursAt(s, sub, i)
  {
    if |sub| <= |s| && s[..|sub|] == sub then
      assert OccursAt(s, sub, 0);
      true
    else if s == [] then
      assert forall i :: !OccursAt(s, sub, i);
      false
    else
      var b := Contains(s[1..], sub);
      OccursShift(s, sub);
      assert b ==> exists i :: OccursAt(s, sub, i) by {
        if b {
          var i :| OccursAt(s[1..], sub, i);
          assert OccursAt(s, sub, i + 1);
        }
      }
      assert (exists i :: OccursAt(s, sub, i)) ==> b by {
        if exists i :: OccursAt(s, sub, i) {
          var i :| OccursAt(s, sub, i);
          assert i != 0;
          assert OccursAt(s[1..], sub, i - 1);
        }
      }
      b
  }

  /** An occurrence in the tail is an occurrence one place further right. */
  lemma OccursShift(s: string, sub: string)
    requires s != []
    ensures forall i :: 0 <= i ==> (OccursAt(s[1..], sub, i) <==> OccursAt(s, sub, i + 1))
  {
    forall i | 0 <= i ensures OccursAt(s[1..], sub, i) <==> OccursAt(s, sub, i + 1) {
      if 0 <= i && i + |sub| <= |s| - 1 {
        assert s[1..][i..i + |sub|] == s[i + 1..i + 1 + |sub|];
      }
    }
  }

  /** The text before the first occurrence of `sub`, or all of `s` when `sub`
      does not occur: Python's `s.split(sub)[0]` for a non-empty `sub`. */
  function BeforeFirst(s: string, sub: string): (r: string)
    requires sub != []
    ensures |r| <= |s| && r == s[..|r|]
    ensures Contains(s, sub) ==> OccursAt(s, sub, |r|)
    ensures !Contains(s, sub) ==> r == s
    ensures forall i :: 0 <= i < |r| ==> !OccursAt(s, sub, i)
  {
    if |sub| <= |s| && s[..|sub|] == sub then
      assert OccursAt(s, sub, 0);
      []
    else if s == [] then
      []
    else
      var rest := BeforeFirst(s[1..], sub);
      OccursShift(s, sub);
      assert !OccursAt(s, sub, 0);
      assert forall i :: 1 <= i < 1 + |rest| ==> !OccursAt(s, sub, i) by {
        forall i | 1 <= i < 1 + |rest| ensures !OccursAt(s, sub, i) {
          assert !OccursAt(s[1..], sub, i - 1);
        }
      }
      assert Contains(s, sub) ==> Contains(s[1..], sub) by {
        if Contains(s, sub) {
          var i :| OccursAt(s, sub, i);
          assert i != 0;
          assert OccursAt(s[1..], sub, i - 1);
        }
      }
      [s[0]] + rest
  }

  /* ---------------------------------------------------------------- */
  /* split() on one character and join()                               */
  /* ---------------------------------------------------------------- */

  /** `sep.join(parts)`. */
  function Join(parts: seq<string>, sep: string): (r: string)
  {
    if parts == [] then []
    else if |parts| == 1 then parts[0]
    else parts[0] + sep + Join(parts[1..], sep)
  }

  /** `s.split(sep)` for a one-character separator: the pieces between
      separators, always at least one. */
  function Split(s: string, sep: char): (parts: seq<string>)
    ensures |parts| >= 1
    ensures forall k :: 0 <= k < |parts| ==> sep !in parts[k]
    ensures Join(parts, [sep]) == s
  {
    if s == [] then [[]]
    else
      var rest := Split(s[1..], sep);
      if s[0] == sep then
        assert Join([[]] + rest, [sep]) == [sep] + Join(rest, [sep]);
        [[]] + rest
      else
        var parts := [[s[0]] + rest[0]] + rest[1..];
        assert parts[1..] == rest[1..];
        assert Join(parts, [sep]) == s by {
          if |rest| == 1 {
            assert Join(parts, [sep]) == [s[0]] + rest[0];
          } else {
            assert Join(rest, [sep]) == rest[0] + [sep] + Join(rest[1..], [sep]);
            assert Join(parts, [sep]) == [s[0]] + rest[0] + [sep] + Join(rest[1..], [sep]);
          }
        }
        parts
  }

  /** A piece without separators, followed by a separator, splits off as the
      first piece. */
  lemma {:induction false} SplitPrefix(p: string, sep: char, t: string)
    requires sep !in p
    ensures Split(p + [sep] + t, sep) == [p] + Split(t, sep)
  {
    if p == [] {
      assert p + [sep] + t == [sep] + t;
      assert ([sep] + t)[1..] == t;
    } else {
      assert (p + [sep] + t)[1..] == p[1..] + [sep] + t;
      SplitPrefix(p[1..], sep, t);
      var rest := Split(p[1..] + [sep] + t, sep);
      assert rest[0] == p[1..] && rest[1..] == Split(t, sep);
      assert [p[0]] + p[1..] == p;
    }
  }

  /** A string without separators splits into itself. */
  lemma {:induction false} SplitNoSeparator(p: string, sep: char)
    requires sep !in p
    ensures Split(p, sep) == [p]
  {
    if p != [] {
      SplitNoSeparator(p[1..], sep);
      assert [p[0]] + p[1..] == p;
    }
  }

  /** Splitting a join recovers the parts when no part holds the separator. */
  lemma {:induction false} SplitJoin(parts: seq<string>, sep: char)
    requires parts != []
    requires forall k :: 0 <= k < |parts| ==> sep !in parts[k]
    ensures Split(Join(parts, [sep]), sep) == parts
  {
    if |parts| == 1 {
      SplitNoSeparator(parts[0], sep);
    } else {
      SplitJoin(parts[1..], sep);
      SplitPrefix(parts[0], sep, Join(parts[1..], [sep]));
      assert [parts[0]] + parts[1..] == parts;
    }
  }

  /** The join starts with the first part. */
  lemma {:induction false} JoinStartsWithFirst(parts: seq<string>, sep: string)
    requires parts != []
    ensures |parts[0]| <= |Join(parts, sep)|
    ensures Join(parts, sep)[..|parts[0]|] == parts[0]
  {
  }

  /** The join ends with the last part. */
  lemma {:induction false} JoinEndsWithLast(parts: seq<string>, sep: string)
    requires parts != []
    ensures |parts[|parts| - 1]| <= |Join(parts, sep)|
    ensures Join(parts, sep)[|Join(parts, sep)| - |parts[|parts| - 1]|..] == parts[|parts| - 1]
  {
    if |parts| > 1 {
      JoinEndsWithLast(parts[1..], sep);
      var j := Join(parts[1..], sep);
      var last := parts[|parts| - 1];
      assert parts[1..][|parts[1..]| - 1] == last;
      var pre := parts[0] + sep;
      assert Join(parts, sep) == pre + j;
      assert (pre + j)[|pre + j| - |last|..] == j[|j| - |last|..];
    }
  }

  /** The join of two or more parts is the join of all but the last, a
      separator, and the last part. */
  lemma {:induction false} JoinSnoc(parts: seq<string>, sep: string)
    requires |parts| >= 2
    ensures Join(parts, sep) == Join(parts[..|parts| - 1], sep) + sep + parts[|parts| - 1]
  {
    var n := |parts|;
    if n == 2 {
      assert parts[..1] == [parts[0]];
    } else {
      JoinSnoc(parts[1..], sep);
      assert parts[1..][..n - 2] == parts[1..n - 1];
      assert parts[..n - 1][1..] == parts[1..n - 1];
    }
  }

  /* ---------------------------------------------------------------- */
  /* Decimal rendering of a natural number (f"{n}")                     */
  /* ---------------------------------------------------------------- */

  predicate IsAsciiDigit(c: char) {
    '0' <= c <= '9'
  }

  /** The value of a string of ASCII digits. */
  function DecimalValue(s: string): nat
    requires forall k :: 0 <= k < |s| ==> IsAsciiDigit(s[k])
  {
    if s == [] then 0
    else
      assert IsAsciiDigit(s[|s| - 1]);
      DecimalValue(s[..|s| - 1]) * 10 + (s[|s| - 1] as int - '0' as int)
  }

  /** Python's `str(n)` for a non-negative integer: its decimal digits, with
      no leading zero. */
  function NatToString(n: nat): (r: string)
    ensures |r| >= 1
    ensures forall k :: 0 <= k < |r| ==> IsAsciiDigit(r[k])
    ensures r[0] == '0' ==> n == 0
    ensures DecimalValue(r) == n
  {
    var d := [('0' as int + n % 10) as char];
    if n < 10 then
      assert DecimalValue(d) == DecimalValue([]) * 10 + n;
      d
    else
      var high := NatToString(n / 10);
      var r := high + d;
      assert r[..|r| - 1] == high;
      r
  }
}
