/** The text analyser: the text is lower-cased, the listed punctuation turns
    into spaces, the rest is cut into words at white space, and the words are
    counted in an object keyed by word, shown largest count first. */
module AnalyzeText {
  import opened Common
  import opened Text
  import opened Tally
  import opened Sorting

  /** The characters of `/[.,;:!?·""''"()[\]{}]/`. */
  predicate IsPunctuation(c: char) {
    c == '.' || c == ',' || c == ';' || c == ':' || c == '!' || c == '?' || c == '\U{00B7}'
    || c == '"' || c == '\'' || c == '(' || c == ')' || c == '[' || c == ']' || c == '{' || c == '}'
  }

  /** A character a word can hold: not white space, not punctuation, and
      already lower case. */
  predicate WordChar(c: char) {
    !IsSpace(c) && !IsPunctuation(c) && LowerChar(c) == c
  }

  /** `replace(/[...]/g, ' ')`: each listed punctuation mark becomes a
      space. */
  function Blank(lower: string): (s: string)
    ensures |s| == |lower|
    ensures forall i :: 0 <= i < |s| ==> s[i] == if IsPunctuation(lower[i]) then ' ' else lower[i]
  {
    seq(|lower|, i requires 0 <= i < |lower| => if IsPunctuation(lower[i]) then ' ' else lower[i])
  }

  /** Lower-casing keeps white space and punctuation as they are and makes
      no letter into either. */
  lemma LowerCharKeepsKind(c: char)
    ensures IsSpace(LowerChar(c)) <==> IsSpace(c)
    ensures IsPunctuation(LowerChar(c)) <==> IsPunctuation(c)
  {
  }

  /** `toLowerCase()` then `replace(/[...]/g, ' ')`: white space stays where
      it was, the listed punctuation becomes a space, and every other
      character is the lower-cased text. */
  function Normalise(text: string): (s: string)
    ensures |s| == |text|
    ensures forall i :: 0 <= i < |s| ==> IsSpace(s[i]) || WordChar(s[i])
    ensures forall i :: 0 <= i < |s| ==> (IsSpace(s[i]) <==> IsSpace(text[i]) || IsPunctuation(text[i]))
    ensures forall i :: 0 <= i < |s| && !IsSpace(s[i]) ==> s[i] == ToLower(text)[i]
  {
    var lower := ToLower(text);
    forall i | 0 <= i < |text|
      ensures IsSpace(lower[i]) <==> IsSpace(text[i])
      ensures IsPunctuation(lower[i]) <==> IsPunctuation(text[i])
    {
      LowerCharKeepsKind(text[i]);
    }
    Blank(lower)
  }

  /** The length of the run of non-space characters that starts `s`. */
  function WordLength(s: string): (n: nat)
    ensures n <= |s|
    ensures forall k :: 0 <= k < n ==> !IsSpace(s[k])
    ensures n < |s| ==> IsSpace(s[n])
  {
    if s == [] || IsSpace(s[0]) then 0 else 1 + WordLength(s[1..])
  }

  /** `split(/\s+/).filter(word => word.length > 0)`: the maximal runs of
      non-space characters, in order. */
  function Words(s: string): (ws: seq<string>)
    ensures forall i :: 0 <= i < |ws| ==> ws[i] != ""
    ensures forall i, k :: 0 <= i < |ws| && 0 <= k < |ws[i]| ==> ws[i][k] in s && !IsSpace(ws[i][k])
    decreases |s|
  {
    if s == [] then []
    else if IsSpace(s[0]) then
      var ws := Words(s[1..]);
      assert forall c :: c in s[1..] ==> c in s;
      ws
    else
      var n := WordLength(s);
      var ws := [s[..n]] + Words(s[n..]);
      assert forall c :: c in s[..n] ==> c in s;
      assert forall c :: c in s[n..] ==> c in s;
      ws
  }

  /** The words of the text. */
  function Tokenize(text: string): (ws: seq<string>)
    ensures forall i :: 0 <= i < |ws| ==> ws[i] != ""
    ensures forall i, k :: 0 <= i < |ws| && 0 <= k < |ws[i]| ==> WordChar(ws[i][k])
  {
    Words(Normalise(text))
  }

  lemma {:induction false} WordLengthAppend(a: string, t: string)
    requires t != [] && IsSpace(t[0])
    ensures WordLength(a + t) == WordLength(a)
    decreases |a|
  {
    if a == [] {
      assert a + t == t;
    } else {
      assert (a + t)[0] == a[0];
      if !IsSpace(a[0]) {
        assert (a + t)[1..] == a[1..] + t;
        WordLengthAppend(a[1..], t);
      }
    }
  }

  lemma {:induction false} WordsSkipSpace(sp: string, b: string)
    requires AllSpace(sp)
    ensures Words(sp + b) == Words(b)
    decreases |sp|
  {
    if sp == [] {
      assert sp + b == b;
    } else {
      assert (sp + b)[0] == sp[0];
      assert (sp + b)[1..] == sp[1..] + b;
      WordsSkipSpace(sp[1..], b);
    }
  }

  /** White space separates words: the words of two texts joined by white
      space are the words of the first, then the words of the second. */
  lemma {:induction false} WordsSplit(a: string, sp: string, b: string)
    requires sp != [] && AllSpace(sp)
    ensures Words(a + sp + b) == Words(a) + Words(b)
    decreases |a|
  {
    var s := a + sp + b;
    if a == [] {
      assert s == sp + b;
      WordsSkipSpace(sp, b);
    } else if IsSpace(a[0]) {
      assert s[0] == a[0];
      assert s[1..] == a[1..] + sp + b;
      WordsSplit(a[1..], sp, b);
    } else {
      assert s[0] == a[0];
      assert s == a + (sp + b);
      WordLengthAppend(a, sp + b);
      var n := WordLength(a);
      assert s[..n] == a[..n];
      assert s[n..] == a[n..] + sp + b;
      WordsSplit(a[n..], sp, b);
    }
  }

  /** A non-empty run without white space is one word. */
  lemma WordsOfWord(w: string)
    requires w != [] && forall k :: 0 <= k < |w| ==> !IsSpace(w[k])
    ensures Words(w) == [w]
  {
    WordLengthAll(w);
    assert w[..|w|] == w && w[|w|..] == [];
    assert Words(w) == [w] + Words([]);
  }

  lemma BlankAppend(x: string, y: string)
    ensures Blank(x + y) == Blank(x) + Blank(y)
  {
  }

  /** The tokenizer works word by word: the tokens of two texts joined by
      white space are the tokens of the first, then those of the second. */
  lemma TokenizeSplit(a: string, sp: string, b: string)
    requires sp != [] && AllSpace(sp)
    ensures Tokenize(a + sp + b) == Tokenize(a) + Tokenize(b)
  {
    assert a + sp + b == a + (sp + b);
    ToLowerAppend(a, sp + b);
    ToLowerAppend(sp, b);
    forall i | 0 <= i < |sp|
      ensures ToLower(sp)[i] == sp[i]
    {
      SpaceIsNeutral(sp[i]);
    }
    assert ToLower(sp) == sp;
    assert Blank(sp) == sp;
    BlankAppend(ToLower(a), sp + ToLower(b));
    BlankAppend(sp, ToLower(b));
    assert Normalise(a + sp + b) == Blank(ToLower(a)) + sp + Blank(ToLower(b));
    WordsSplit(Blank(ToLower(a)), sp, Blank(ToLower(b)));
  }

  lemma {:induction false} AllSpaceNoWords(s: string)
    requires AllSpace(s)
    ensures Words(s) == []
    decreases |s|
  {
    if s != [] {
      AllSpaceNoWords(s[1..]);
    }
  }

  /** Text that is only white space has no words. */
  lemma BlankTextHasNoWords(text: string)
    requires AllSpace(text)
    ensures Tokenize(text) == []
  {
    AllSpaceNoWords(Normalise(text));
  }

  lemma {:induction false} WordLengthAll(s: string)
    requires forall k :: 0 <= k < |s| ==> !IsSpace(s[k])
    ensures WordLength(s) == |s|
  {
    if s != [] {
      WordLengthAll(s[1..]);
    }
  }

  /** A word already in normal form is its own only word. */
  lemma SingleWord(w: string)
    requires w != [] && forall k :: 0 <= k < |w| ==> WordChar(w[k])
    ensures Tokenize(w) == [w]
  {
    var s := Normalise(w);
    assert LowerChar(CapitalSigma) == SmallSigma;
    assert forall k :: 0 <= k < |w| ==> s[k] == w[k];
    assert s == w;
    WordLengthAll(w);
    assert w[..|w|] == w && w[|w|..] == [];
    assert Words(w) == [w] + Words([]);
  }

  /** "ΛΟΓΟΣ" and "λογος". */
  const LogosCapital: string := "\U{039B}\U{039F}\U{0393}\U{039F}\U{03A3}"
  const Logos: string := "\U{03BB}\U{03BF}\U{03B3}\U{03BF}\U{03C2}"

  lemma LogosCapitalTokens()
    ensures Tokenize(LogosCapital) == [Logos]
  {
    FinalSigmaExamples();
    assert Normalise(LogosCapital) == Blank(Logos);
    assert Blank(Logos) == Logos;
    WordsOfWord(Logos);
  }

  lemma LogosIsWord()
    ensures Logos != [] && forall k :: 0 <= k < |Logos| ==> WordChar(Logos[k])
  {
  }

  /** A capital word and its lower-case spelling, word-final sigma
      included, are counted as one word. */
  lemma FinalSigmaCountedOnce()
    ensures Tokenize(LogosCapital + " " + Logos) == [Logos, Logos]
  {
    assert AllSpace(" ");
    TokenizeSplit(LogosCapital, " ", Logos);
    LogosCapitalTokens();
    LogosIsWord();
    SingleWord(Logos);
  }

  /** The counted words of `text`. */
  function Frequency(text: string): Tally<string> {
    TallyOf(Tokenize(text))
  }

  /** `sortedWords`: the entries, largest count first. */
  function SortedWords(wordCount: Tally<string>): (r: Tally<string>)
    ensures SortedDesc(r, EntryCount)
    ensures multiset(r) == multiset(wordCount)
    ensures NoDuplicates(Keys(wordCount)) ==> NoDuplicates(Keys(r))
  {
    var r := SortByKeyDesc(wordCount, EntryCount);
    assert NoDuplicates(Keys(wordCount)) ==> NoDuplicates(Keys(r)) by {
      if NoDuplicates(Keys(wordCount)) {
        PermutationKeepsDistinctKeys(wordCount, r);
      }
    }
    r
  }

  function EntryCount(e: (string, nat)): int {
    e.1
  }

  /** `{count} {count === 1 ? 'time' : 'times'}`: the count in decimal,
      then "time", in the plural for every count but 1. */
  function CountLabel(count: nat): (s: string)
    ensures IntToString(count) <= s && DecimalValue(IntToString(count)) == count
    ensures s[|IntToString(count)|..] == " time" || s[|IntToString(count)|..] == " times"
    ensures s[|s| - 1] == 's' <==> count != 1
    ensures count == 1 <==> s == "1 time"
  {
    NatToStringRoundTrip(count);
    IntToString(count) + (if count == 1 then " time" else " times")
  }

  /** `words.forEach(...)` into an empty object: each word's count goes up
      by one, in the order the words come. */
  method CountWords(words: seq<string>) returns (wordFrequency: Tally<string>)
    ensures wordFrequency == TallyOf(words)
  {
    wordFrequency := [];
    var i := 0;
    while i < |words|
      invariant 0 <= i <= |words|
      invariant wordFrequency == TallyOf(words[..i])
    {
      assert words[..i + 1][..i] == words[..i];
      wordFrequency := Bump(wordFrequency, words[i]);
      i := i + 1;
    }
    assert words[..i] == words;
  }

  class AnalyzeTextPage {
    var greekText: string
    var wordCount: Tally<string>
    var totalWords: nat
    var uniqueWords: nat

    constructor ()
      ensures greekText == "" && wordCount == [] && totalWords == 0 && uniqueWords == 0
    {
      greekText := "";
      wordCount := [];
      totalWords := 0;
      uniqueWords := 0;
    }

    /** The text area's `onChange`. */
    method SetText(text: string)
      modifies this
      ensures greekText == text
      ensures wordCount == old(wordCount) && totalWords == old(totalWords) && uniqueWords == old(uniqueWords)
    {
      greekText := text;
    }

    /** `analyzeText`: blank text clears the results; otherwise every word
        is counted, in the order the words first occur. */
    method Analyze()
      modifies this
      ensures greekText == old(greekText)
      ensures wordCount == Frequency(greekText)
      ensures totalWords == |Tokenize(greekText)|
      ensures uniqueWords == |wordCount|
    {
      if Trim(greekText) == "" {
        TrimEmpty(greekText);
        BlankTextHasNoWords(greekText);
        wordCount := [];
        totalWords := 0;
        uniqueWords := 0;
        return;
      }
      var words := Tokenize(greekText);
      var wordFrequency := CountWords(words);
      wordCount := wordFrequency;
      totalWords := |words|;
      uniqueWords := |wordFrequency|;
    }

    /** The Clear button. */
    method Clear()
      modifies this
      ensures greekText == "" && wordCount == [] && totalWords == 0 && uniqueWords == 0
    {
      greekText := "";
      wordCount := [];
      totalWords := 0;
      uniqueWords := 0;
    }
  }

  /** Each word's count is its number of occurrences and only words of the
      text are counted. */
  lemma FrequencyCounts(text: string, w: string)
    ensures Lookup(Frequency(text), w) == Count(Tokenize(text), w)
    ensures w in Keys(Frequency(text)) <==> w in Tokenize(text)
  {
    TallyOfLookup(Tokenize(text), w);
    TallyOfKeys(Tokenize(text));
  }

  /** The counts add up to the total; the number of distinct words is at
      most the total; every word is listed once, largest count first. */
  lemma FrequencyTotals(text: string)
    ensures SumCounts(Frequency(text)) == |Tokenize(text)|
    ensures |Frequency(text)| == |set w | w in Tokenize(text)| <= |Tokenize(text)|
    ensures NoDuplicates(Keys(SortedWords(Frequency(text))))
  {
    TallyOfSum(Tokenize(text));
    DistinctKeys(Tokenize(text));
    TallyOfKeys(Tokenize(text));
  }

  /** The value a key of a plain object literal holds: a number, or, for a
      name the object inherits from `Object.prototype`, the string that `+ 1`
      makes of the inherited value. */
  datatype CountValue = Number(n: nat) | Concatenated(s: string)

  /** `String(Object)`, the inherited `constructor` as text. */
  const ObjectSource: string := "function Object() { [native code] }"

  function Increment(v: CountValue): CountValue {
    match v
    case Number(n) => Number(n + 1)
    case Concatenated(s) => Concatenated(s + "1")
  }

  /** `wordFrequency[word] = (wordFrequency[word] || 0) + 1` on a plain
      object, for the lower-case words that can reach it: `__proto__` reads
      the prototype, and assigning a string to it is ignored; `constructor`
      reads the inherited `Object` function, so its first count is a
      string. */
  function ObjectBump(t: seq<(string, CountValue)>, k: string): seq<(string, CountValue)> {
    if k == "__proto__" then t else OwnBump(t, k)
  }

  function OwnBump(t: seq<(string, CountValue)>, k: string): seq<(string, CountValue)> {
    if t == [] then [(k, if k == "constructor" then Concatenated(ObjectSource + "1") else Number(1))]
    else if t[0].0 == k then [(k, Increment(t[0].1))] + t[1..]
    else [t[0]] + OwnBump(t[1..], k)
  }

  /** The frequency object as written. */
  function FrequencyAsWritten(words: seq<string>): seq<(string, CountValue)> {
    if words == [] then [] else ObjectBump(FrequencyAsWritten(words[..|words| - 1]), words[|words| - 1])
  }

  /** The corrected counts as object values: the same keys in the same
      order, each holding its count as a number. */
  function AsNumbers(t: Tally<string>): (r: seq<(string, CountValue)>)
    ensures |r| == |t|
    ensures forall i :: 0 <= i < |t| ==> r[i] == (t[i].0, Number(t[i].1))
  {
    if t == [] then [] else [(t[0].0, Number(t[0].1))] + AsNumbers(t[1..])
  }

  /** The two inherited names break the counts: "constructor" is counted as
      a string, and "__proto__" is a word of the text but no key. */
  lemma PrototypeNamesMiscounted()
    ensures FrequencyAsWritten(["constructor"]) == [("constructor", Concatenated(ObjectSource + "1"))]
    ensures Tokenize("__proto__") == ["__proto__"]
    ensures FrequencyAsWritten(["__proto__"]) == []
    ensures Frequency("__proto__") == [("__proto__", 1)]
  {
    assert ["constructor"][..0] == [];
    assert ["__proto__"][..0] == [];
    SingleWord("__proto__");
    assert ["__proto__"][..0] == [];
  }

  lemma {:induction false} OwnBumpAgrees(t: Tally<string>, k: string)
    requires k != "constructor"
    ensures OwnBump(AsNumbers(t), k) == AsNumbers(Bump(t, k))
  {
    if t != [] {
      assert AsNumbers(t)[1..] == AsNumbers(t[1..]);
      if t[0].0 != k {
        OwnBumpAgrees(t[1..], k);
        assert Bump(t, k) == [t[0]] + Bump(t[1..], k);
        assert AsNumbers(Bump(t, k)) == [(t[0].0, Number(t[0].1))] + AsNumbers(Bump(t[1..], k));
      } else {
        assert Bump(t, k) == [(k, t[0].1 + 1)] + t[1..];
        assert AsNumbers(Bump(t, k)) == [(k, Number(t[0].1 + 1))] + AsNumbers(t[1..]);
      }
    }
  }

  /** For every other word the object as written holds the corrected counts. */
  lemma {:induction false} AsWrittenAgreesElsewhere(words: seq<string>)
    requires forall i :: 0 <= i < |words| ==> words[i] != "constructor" && words[i] != "__proto__"
    ensures FrequencyAsWritten(words) == AsNumbers(TallyOf(words))
  {
    if words != [] {
      AsWrittenAgreesElsewhere(words[..|words| - 1]);
      OwnBumpAgrees(TallyOf(words[..|words| - 1]), words[|words| - 1]);
    }
  }
}
