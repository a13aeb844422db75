/** The JavaScript string operations the pages rely on, over `seq<char>`:
    `String.prototype.trim`, `toLowerCase`, `includes`, `startsWith` and
    number-to-string conversion. */
module Text {

  /** The characters matched by `\s` in a JavaScript regular expression and
      removed by `trim()`: the ECMAScript WhiteSpace and LineTerminator sets. */
  predicate IsSpace(c: char) {
    c == ' ' || c == '\t' || c == '\n' || c == '\r' || c == '\U{000B}' || c == '\U{000C}'
    || c == '\U{00A0}' || c == '\U{1680}' || ('\U{2000}' <= c <= '\U{200A}')
    || c == '\U{2028}' || c == '\U{2029}' || c == '\U{202F}' || c == '\U{205F}'
    || c == '\U{3000}' || c == '\U{FEFF}'
  }

  predicate AllSpace(s: string) {
    forall i :: 0 <= i < |s| ==> IsSpace(s[i])
  }

  /** `sub` occurs in `s` starting at index `i`. */
  predicate OccursAt(s: string, sub: string, i: int) {
    0 <= i <= |s| && sub <= s[i..]
  }

  /** The index of the first character at or after `i` that is not white
      space, or `|s|`. */
  function SkipStart(s: string, i: nat): (j: nat)
    requires i <= |s|
    ensures i <= j <= |s|
    decreases |s| - i
  {
    if i < |s| && IsSpace(s[i]) then SkipStart(s, i + 1) else i
  }

  lemma {:induction false} SkipStartSpec(s: string, i: nat)
    requires i <= |s|
    ensures forall k :: i <= k < SkipStart(s, i) ==> IsSpace(s[k])
    ensures SkipStart(s, i) < |s| ==> !IsSpace(s[SkipStart(s, i)])
    decreases |s| - i
  {
    if i < |s| && IsSpace(s[i]) {
      SkipStartSpec(s, i + 1);
    }
  }

  /** The end of `s[lo..j]` once trailing white space is dropped. */
  function SkipEnd(s: string, lo: nat, j: nat): (e: nat)
    requires lo <= j <= |s|
    ensures lo <= e <= j
  {
    if lo < j && IsSpace(s[j - 1]) then SkipEnd(s, lo, j - 1) else j
  }

  lemma {:induction false} SkipEndSpec(s: string, lo: nat, j: nat)
    requires lo <= j <= |s|
    ensures forall k :: SkipEnd(s, lo, j) <= k < j ==> IsSpace(s[k])
    ensures lo < SkipEnd(s, lo, j) ==> !IsSpace(s[SkipEnd(s, lo, j) - 1])
  {
    if lo < j && IsSpace(s[j - 1]) {
      SkipEndSpec(s, lo, j - 1);
    }
  }

  /** `s.trim()`: white space dropped from both ends; what is left is a
      substring of `s` that neither starts nor ends with white space, and
      everything around it is white space. */
  function Trim(s: string): (r: string)
    ensures exists i :: OccursAt(s, r, i) && AllSpace(s[..i]) && AllSpace(s[i + |r|..])
    ensures r != [] ==> !IsSpace(r[0]) && !IsSpace(r[|r| - 1])
  {
    var a := SkipStart(s, 0);
    var b := SkipEnd(s, a, |s|);
    SkipStartSpec(s, 0);
    SkipEndSpec(s, a, |s|);
    assert OccursAt(s, s[a..b], a) && AllSpace(s[..a]) && AllSpace(s[a + |s[a..b]|..]);
    s[a..b]
  }

  /** `trim()` leaves nothing exactly when the string is all white space. */
  lemma TrimEmpty(s: string)
    ensures Trim(s) == [] <==> AllSpace(s)
  {
    var a := SkipStart(s, 0);
    var b := SkipEnd(s, a, |s|);
    SkipStartSpec(s, 0);
    SkipEndSpec(s, a, |s|);
    assert Trim(s) == s[a..b];
    if AllSpace(s) {
      assert a == |s|;
    }
  }

  /** `toLowerCase()` on one character, for Basic Latin, Latin-1, Latin
      Extended-A, the Greek and Coptic block and Greek Extended; other
      characters are unchanged. The word-final form of sigma depends on the
      neighbours, see `ToLower`. */
  function LowerChar(c: char): (d: char)
  {
    if c < '\U{0180}' then LowerLatin(c)
    else if '\U{0370}' <= c < '\U{0400}' then LowerGreek(c)
    else if '\U{1F00}' <= c < '\U{2000}' then LowerGreekExtended(c)
    else c
  }

  /** Basic Latin, Latin-1 and Latin Extended-A. İ (U+0130), whose lower
      case is two characters, is left as it is. */
  function LowerLatin(c: char): (d: char)
    requires c < '\U{0180}'
    ensures d < '\U{0180}'
  {
    var n := c as int;
    if 'A' <= c <= 'Z' then (n + 32) as char
    else if '\U{00C0}' <= c <= '\U{00DE}' && c != '\U{00D7}' then (n + 32) as char
    else if ('\U{0100}' <= c <= '\U{012F}' || '\U{0132}' <= c <= '\U{0137}' || '\U{014A}' <= c <= '\U{0177}')
            && n % 2 == 0 then (n + 1) as char
    else if ('\U{0139}' <= c <= '\U{0148}' || '\U{0179}' <= c <= '\U{017E}') && n % 2 == 1 then (n + 1) as char
    else if c == '\U{0178}' then '\U{00FF}'
    else c
  }

  /** The Greek and Coptic block: the modern capitals, with tonos and
      dialytika, and the archaic and Coptic-derived capitals. */
  function LowerGreek(c: char): (d: char)
    requires '\U{0370}' <= c < '\U{0400}'
    ensures '\U{0370}' <= d < '\U{0400}'
  {
    var n := c as int;
    if c == '\U{0370}' || c == '\U{0372}' || c == '\U{0376}' then (n + 1) as char
    else if c == '\U{037F}' then '\U{03F3}'
    else if c == '\U{0386}' then '\U{03AC}'
    else if '\U{0388}' <= c <= '\U{038A}' then (n + 37) as char
    else if c == '\U{038C}' then '\U{03CC}'
    else if c == '\U{038E}' || c == '\U{038F}' then (n + 63) as char
    else if '\U{0391}' <= c <= '\U{03AB}' && c != '\U{03A2}' then (n + 32) as char
    else if c == '\U{03CF}' then '\U{03D7}'
    else if '\U{03D8}' <= c <= '\U{03EE}' && n % 2 == 0 then (n + 1) as char
    else if c == '\U{03F4}' then '\U{03B8}'
    else if c == '\U{03F7}' || c == '\U{03FA}' then (n + 1) as char
    else if c == '\U{03F9}' then '\U{03F2}'
    else if '\U{03FD}' <= c <= '\U{03FF}' then (n - 130) as char
    else c
  }

  /** Greek Extended: the polytonic capitals and the capitals with
      prosgegrammeni. */
  function LowerGreekExtended(c: char): (d: char)
    requires '\U{1F00}' <= c < '\U{2000}'
    ensures '\U{1F00}' <= d < '\U{2000}'
  {
    var n := c as int;
    if ('\U{1F08}' <= c <= '\U{1F0F}') || ('\U{1F18}' <= c <= '\U{1F1D}') || ('\U{1F28}' <= c <= '\U{1F2F}')
       || ('\U{1F38}' <= c <= '\U{1F3F}') || ('\U{1F48}' <= c <= '\U{1F4D}')
       || c == '\U{1F59}' || c == '\U{1F5B}' || c == '\U{1F5D}' || c == '\U{1F5F}'
       || ('\U{1F68}' <= c <= '\U{1F6F}') || ('\U{1F88}' <= c <= '\U{1F8F}') || ('\U{1F98}' <= c <= '\U{1F9F}')
       || ('\U{1FA8}' <= c <= '\U{1FAF}') || ('\U{1FB8}' <= c <= '\U{1FB9}') || ('\U{1FD8}' <= c <= '\U{1FD9}')
       || ('\U{1FE8}' <= c <= '\U{1FE9}')
    then (n - 8) as char
    else if '\U{1FBA}' <= c <= '\U{1FBB}' then (n - 74) as char
    else if c == '\U{1FBC}' || c == '\U{1FCC}' || c == '\U{1FFC}' then (n - 9) as char
    else if '\U{1FC8}' <= c <= '\U{1FCB}' then (n - 86) as char
    else if '\U{1FDA}' <= c <= '\U{1FDB}' then (n - 100) as char
    else if '\U{1FEA}' <= c <= '\U{1FEB}' then (n - 112) as char
    else if c == '\U{1FEC}' then '\U{1FE5}'
    else if '\U{1FF8}' <= c <= '\U{1FF9}' then (n - 128) as char
    else if '\U{1FFA}' <= c <= '\U{1FFB}' then (n - 126) as char
    else c
  }

  /** A lowered character is lowered already. */
  lemma LowerCharIdempotent(c: char)
    ensures LowerChar(LowerChar(c)) == LowerChar(c)
  {
    if c < '\U{0180}' {
      LowerLatinIdempotent(c);
    } else if '\U{0370}' <= c < '\U{0400}' {
      LowerGreekIdempotent(c);
    } else if '\U{1F00}' <= c < '\U{2000}' {
      LowerGreekExtendedIdempotent(c);
    }
  }

  lemma LowerLatinIdempotent(c: char)
    requires c < '\U{0180}'
    ensures LowerLatin(LowerLatin(c)) == LowerLatin(c)
  {
  }

  lemma LowerGreekIdempotent(c: char)
    requires '\U{0370}' <= c < '\U{0400}'
    ensures LowerGreek(LowerGreek(c)) == LowerGreek(c)
  {
  }

  lemma LowerGreekExtendedIdempotent(c: char)
    requires '\U{1F00}' <= c < '\U{2000}'
    ensures LowerGreekExtended(LowerGreekExtended(c)) == LowerGreekExtended(c)
  {
  }

  /** Letters that have a case, in the blocks `LowerChar` covers: the
      upper-case, title-case and lower-case letters, with ª, º, the
      ypogegrammeni and the iota subscript, which count as lower case. */
  predicate IsCased(c: char) {
    ('A' <= c <= 'Z') || ('a' <= c <= 'z')
    || c == '\U{00AA}' || c == '\U{00B5}' || c == '\U{00BA}'
    || ('\U{00C0}' <= c <= '\U{00FF}' && c != '\U{00D7}' && c != '\U{00F7}')
    || ('\U{0100}' <= c <= '\U{017F}') || c == '\U{0345}'
    || ('\U{0370}' <= c <= '\U{0373}') || c == '\U{0376}' || c == '\U{0377}'
    || ('\U{037A}' <= c <= '\U{037D}') || c == '\U{037F}'
    || c == '\U{0386}' || ('\U{0388}' <= c <= '\U{038A}') || c == '\U{038C}'
    || ('\U{038E}' <= c <= '\U{03FF}' && c != '\U{03A2}' && c != '\U{03F6}')
    || IsCasedGreekExtended(c)
  }

  /** The assigned letters of Greek Extended. */
  predicate IsCasedGreekExtended(c: char) {
    ('\U{1F00}' <= c <= '\U{1F15}') || ('\U{1F18}' <= c <= '\U{1F1D}') || ('\U{1F20}' <= c <= '\U{1F45}')
    || ('\U{1F48}' <= c <= '\U{1F4D}') || ('\U{1F50}' <= c <= '\U{1F57}')
    || c == '\U{1F59}' || c == '\U{1F5B}' || c == '\U{1F5D}' || ('\U{1F5F}' <= c <= '\U{1F7D}')
    || ('\U{1F80}' <= c <= '\U{1FB4}') || ('\U{1FB6}' <= c <= '\U{1FBC}') || c == '\U{1FBE}'
    || ('\U{1FC2}' <= c <= '\U{1FC4}') || ('\U{1FC6}' <= c <= '\U{1FCC}') || ('\U{1FD0}' <= c <= '\U{1FD3}')
    || ('\U{1FD6}' <= c <= '\U{1FDB}') || ('\U{1FE0}' <= c <= '\U{1FEC}') || ('\U{1FF2}' <= c <= '\U{1FF4}')
    || ('\U{1FF6}' <= c <= '\U{1FFC}')
  }

  /** Characters the final-sigma rule looks through, in the same blocks and
      in General Punctuation: the apostrophes, the full stop, the colon, the
      middle dot and the Greek ano teleia, the spacing accents and breathing
      marks, the combining diacritics, the Greek numeral signs and the
      zero-width and directional format characters. */
  predicate IsCaseIgnorable(c: char) {
    c == '\'' || c == '.' || c == ':' || c == '^' || c == '`'
    || c == '\U{00A8}' || c == '\U{00AD}' || c == '\U{00AF}' || c == '\U{00B4}'
    || c == '\U{00B7}' || c == '\U{00B8}'
    || ('\U{0300}' <= c <= '\U{036F}')
    || c == '\U{0374}' || c == '\U{0375}' || c == '\U{037A}'
    || c == '\U{0384}' || c == '\U{0385}' || c == '\U{0387}'
    || c == '\U{1FBD}' || ('\U{1FBF}' <= c <= '\U{1FC1}') || ('\U{1FCD}' <= c <= '\U{1FCF}')
    || ('\U{1FDD}' <= c <= '\U{1FDF}') || ('\U{1FED}' <= c <= '\U{1FEF}') || ('\U{1FFD}' <= c <= '\U{1FFE}')
    || ('\U{200B}' <= c <= '\U{200F}') || c == '\U{2018}' || c == '\U{2019}' || c == '\U{2024}'
    || c == '\U{2027}' || ('\U{202A}' <= c <= '\U{202E}')
  }

  /** Some cased letter comes before index `i`, with only case-ignorable
      characters after it. */
  predicate CasedBefore(s: string, i: nat)
    requires i <= |s|
  {
    i > 0 && (IsCased(s[i - 1]) || (IsCaseIgnorable(s[i - 1]) && CasedBefore(s, i - 1)))
  }

  /** Some cased letter comes at or after index `j`, with only
      case-ignorable characters before it. */
  predicate CasedFrom(s: string, j: nat)
    requires j <= |s|
    decreases |s| - j
  {
    j < |s| && (IsCased(s[j]) || (IsCaseIgnorable(s[j]) && CasedFrom(s, j + 1)))
  }

  /** The Final_Sigma condition of Unicode's special casing: the character
      at `i` ends a word. */
  predicate FinalSigma(s: string, i: nat)
    requires i < |s|
  {
    CasedBefore(s, i) && !CasedFrom(s, i + 1)
  }

  const CapitalSigma: char := '\U{03A3}'
  const SmallSigma: char := '\U{03C3}'
  const FinalSmallSigma: char := '\U{03C2}'

  function LowerAt(s: string, i: nat): char
    requires i < |s|
  {
    if s[i] == CapitalSigma && FinalSigma(s, i) then FinalSmallSigma else LowerChar(s[i])
  }

  /** `s.toLowerCase()`: every character lowered on its own, except that a
      capital sigma ending a word becomes the final form ς; no capital is
      left. */
  function ToLower(s: string): (r: string)
    ensures |r| == |s|
    ensures forall i :: 0 <= i < |s| && s[i] != CapitalSigma ==> r[i] == LowerChar(s[i])
    ensures forall i :: 0 <= i < |s| && s[i] == CapitalSigma ==>
              (r[i] == FinalSmallSigma <==> FinalSigma(s, i)) && (r[i] == SmallSigma <==> !FinalSigma(s, i))
    ensures forall i :: 0 <= i < |s| ==> LowerChar(r[i]) == r[i]
  {
    LowerAtLowered(s);
    seq(|s|, i requires 0 <= i < |s| => LowerAt(s, i))
  }

  lemma LowerAtLowered(s: string)
    ensures forall i :: 0 <= i < |s| ==> LowerChar(LowerAt(s, i)) == LowerAt(s, i)
  {
    forall i | 0 <= i < |s|
      ensures LowerChar(LowerAt(s, i)) == LowerAt(s, i)
    {
      LowerCharIdempotent(s[i]);
    }
  }

  /** A word-final capital sigma is lowered to ς, any other to σ. */
  lemma FinalSigmaExamples()
    ensures ToLower("\U{039B}\U{039F}\U{0393}\U{039F}\U{03A3}") == "\U{03BB}\U{03BF}\U{03B3}\U{03BF}\U{03C2}"
    ensures ToLower("\U{03A3}\U{0391}\U{03A3}") == "\U{03C3}\U{03B1}\U{03C2}"
  {
    var w := "\U{039B}\U{039F}\U{0393}\U{039F}\U{03A3}";
    assert CasedBefore(w, 4) && !CasedFrom(w, 5);
    var v := "\U{03A3}\U{0391}\U{03A3}";
    assert !CasedBefore(v, 0);
    assert CasedBefore(v, 2) && !CasedFrom(v, 3);
  }

  /** Polytonic capitals are lowered too: "Ἀθῆναι" becomes "ἀθῆναι". */
  lemma GreekExtendedExample()
    ensures ToLower("\U{1F08}\U{03B8}\U{1FC6}\U{03BD}\U{03B1}\U{03B9}") == "\U{1F00}\U{03B8}\U{1FC6}\U{03BD}\U{03B1}\U{03B9}"
  {
    assert LowerChar('\U{1F08}') == '\U{1F00}';
    assert LowerChar('\U{1FC6}') == '\U{1FC6}';
  }

  /** So are Latin Extended-A capitals: "ŁÓDŹ" becomes "łódź". */
  lemma LatinExtendedExample()
    ensures ToLower("\U{0141}\U{00D3}D\U{0179}") == "\U{0142}\U{00F3}d\U{017A}"
  {
    assert LowerChar('\U{0141}') == '\U{0142}';
    assert LowerChar('\U{0179}') == '\U{017A}';
  }

  /** Lower-casing twice is lower-casing once. */
  lemma ToLowerIdempotent(s: string)
    ensures ToLower(ToLower(s)) == ToLower(s)
  {
    var t := ToLower(s);
    assert LowerChar(CapitalSigma) == SmallSigma;
    assert forall i :: 0 <= i < |t| ==> t[i] != CapitalSigma;
  }

  /** No white space character is cased or case-ignorable, so the
      final-sigma rule never looks across white space. */
  lemma SpaceIsNeutral(c: char)
    requires IsSpace(c)
    ensures !IsCased(c) && !IsCaseIgnorable(c) && LowerChar(c) == c
  {
  }

  lemma {:induction false} CasedBeforePrefix(x: string, y: string, i: nat)
    requires i <= |x|
    ensures CasedBefore(x + y, i) == CasedBefore(x, i)
  {
    if i > 0 {
      assert (x + y)[i - 1] == x[i - 1];
      CasedBeforePrefix(x, y, i - 1);
    }
  }

  lemma {:induction false} CasedFromSuffix(x: string, y: string, k: nat)
    requires k <= |y|
    ensures CasedFrom(x + y, |x| + k) == CasedFrom(y, k)
    decreases |y| - k
  {
    if k < |y| {
      assert (x + y)[|x| + k] == y[k];
      CasedFromSuffix(x, y, k + 1);
    }
  }

  /** Scanning forward inside `x` stops at the white space that ends `x` or
      starts `y`. */
  lemma {:induction false} CasedFromPrefix(x: string, y: string, j: nat)
    requires SpaceBetween(x, y)
    requires j < |x| || (j == |x| && y != [] && IsSpace(y[0]))
    ensures CasedFrom(x + y, j) == CasedFrom(x, j)
    decreases |x| - j
  {
    if j == |x| {
      SpaceIsNeutral(y[0]);
      assert (x + y)[j] == y[0];
    } else {
      assert (x + y)[j] == x[j];
      if j == |x| - 1 && !(y != [] && IsSpace(y[0])) {
        SpaceIsNeutral(x[j]);
      } else {
        CasedFromPrefix(x, y, j + 1);
      }
    }
  }

  /** Scanning backward inside `y` stops at the white space that ends `x` or
      starts `y`. */
  lemma {:induction false} CasedBeforeSuffix(x: string, y: string, k: nat)
    requires SpaceBetween(x, y)
    requires 0 < k <= |y| || (k == 0 && x != [] && IsSpace(x[|x| - 1]))
    ensures CasedBefore(x + y, |x| + k) == CasedBefore(y, k)
  {
    if k == 0 {
      SpaceIsNeutral(x[|x| - 1]);
      assert (x + y)[|x| - 1] == x[|x| - 1];
    } else {
      assert (x + y)[|x| + k - 1] == y[k - 1];
      if k == 1 && !(x != [] && IsSpace(x[|x| - 1])) {
        SpaceIsNeutral(y[0]);
      } else {
        CasedBeforeSuffix(x, y, k - 1);
      }
    }
  }

  /** White space ends `x` or starts `y`. */
  predicate SpaceBetween(x: string, y: string) {
    (x != [] && IsSpace(x[|x| - 1])) || (y != [] && IsSpace(y[0]))
  }

  lemma LowerAtPrefix(x: string, y: string, i: nat)
    requires SpaceBetween(x, y) && i < |x|
    ensures LowerAt(x + y, i) == LowerAt(x, i)
  {
    assert (x + y)[i] == x[i];
    if x[i] == CapitalSigma {
      CasedBeforePrefix(x, y, i);
      assert i + 1 < |x| || (y != [] && IsSpace(y[0]));
      CasedFromPrefix(x, y, i + 1);
    }
  }

  lemma LowerAtSuffix(x: string, y: string, k: nat)
    requires SpaceBetween(x, y) && k < |y|
    ensures LowerAt(x + y, |x| + k) == LowerAt(y, k)
  {
    assert (x + y)[|x| + k] == y[k];
    if y[k] == CapitalSigma {
      CasedFromSuffix(x, y, k + 1);
      assert 0 < k || (x != [] && IsSpace(x[|x| - 1]));
      CasedBeforeSuffix(x, y, k);
    }
  }

  /** Lower-casing works word by word: across white space the pieces are
      lowered apart. */
  lemma ToLowerAppend(x: string, y: string)
    requires SpaceBetween(x, y)
    ensures ToLower(x + y) == ToLower(x) + ToLower(y)
  {
    var s := x + y;
    forall i | 0 <= i < |x|
      ensures ToLower(s)[i] == ToLower(x)[i]
    {
      LowerAtPrefix(x, y, i);
    }
    forall k | 0 <= k < |y|
      ensures ToLower(s)[|x| + k] == ToLower(y)[k]
    {
      LowerAtSuffix(x, y, k);
    }
    assert ToLower(s) == ToLower(x) + ToLower(y);
  }

  /** `s.includes(sub)`: `sub` occurs in `s` at some position. */
  function Includes(s: string, sub: string): (b: bool)
    ensures b <==> exists i :: OccursAt(s, sub, i)
  {
    if sub <= s then
      assert OccursAt(s, sub, 0);
      true
    else if s == [] then
      assert forall i :: !OccursAt(s, sub, i) by {
        forall i | OccursAt(s, sub, i) ensures false {
        }
      }
      false
    else
      var b := Includes(s[1..], sub);
      if b then
        var i :| OccursAt(s[1..], sub, i);
        assert s[1..][i..] == s[i + 1..];
        assert OccursAt(s, sub, i + 1);
        true
      else
        forall i | OccursAt(s, sub, i) && i > 0 ensures OccursAt(s[1..], sub, i - 1) {
          assert s[1..][i - 1..] == s[i..];
        }
        assert forall i :: !OccursAt(s, sub, i);
        false
  }

  lemma EmptyIncluded(s: string)
    ensures Includes(s, "")
  {
    assert OccursAt(s, "", 0);
  }

  /** `s.startsWith(prefix)`. */
  predicate StartsWith(s: string, prefix: string) {
    prefix <= s
  }

  /** Two strings that differ at a position both have cannot both start
      `s`. */
  lemma PrefixesClash(s: string, a: string, b: string, k: nat)
    requires k < |a| && k < |b| && a[k] != b[k]
    ensures !(StartsWith(s, a) && StartsWith(s, b))
  {
    if StartsWith(s, a) {
      assert s[k] == a[k];
    }
  }

  function DigitChar(d: nat): char
    requires d < 10
  {
    "0123456789"[d]
  }

  function DigitValue(c: char): nat {
    if '0' <= c <= '9' then c as int - '0' as int else 0
  }

  /** Decimal rendering of a natural number, as a template literal prints it. */
  function NatToString(n: nat): (s: string)
    ensures s != []
    ensures forall i :: 0 <= i < |s| ==> '0' <= s[i] <= '9'
    decreases n
  {
    if n < 10 then [DigitChar(n)] else NatToString(n / 10) + [DigitChar(n % 10)]
  }

  /** The number a string of decimal digits denotes. */
  function DecimalValue(s: string): nat {
    if s == [] then 0 else 10 * DecimalValue(s[..|s| - 1]) + DigitValue(s[|s| - 1])
  }

  lemma {:induction false} NatToStringRoundTrip(n: nat)
    ensures DecimalValue(NatToString(n)) == n
    decreases n
  {
    if n >= 10 {
      NatToStringRoundTrip(n / 10);
      var s := NatToString(n);
      assert s[..|s| - 1] == NatToString(n / 10);
    }
  }

  /** Decimal rendering of an integer, with a leading '-' when negative. */
  function IntToString(n: int): (s: string)
    ensures s != []
    ensures (s[0] == '-') <==> n < 0
  {
    if n < 0 then "-" + NatToString(-n) else NatToString(n)
  }
}
