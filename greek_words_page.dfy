/** The Greek words page: the vocabulary list narrowed by three search boxes,
    and the colour classes of its badges. */
module GreekWordsPage {
  import opened Text
  import opened Vocabulary

  /** The search effect's test: each field, lower-cased, contains the
      lower-cased search string for it. */
  predicate Matches(e: Entry, searchGreek: string, searchEnglish: string, searchTransliteration: string) {
    Includes(ToLower(e.greekWord), ToLower(searchGreek))
    && Includes(ToLower(e.englishWord), ToLower(searchEnglish))
    && Includes(ToLower(e.transliteration), ToLower(searchTransliteration))
  }

  /** `filteredVocabulary`: the entries that match, in their original order. */
  function Filtered(vocabulary: seq<Entry>, searchGreek: string, searchEnglish: string, searchTransliteration: string): (r: seq<Entry>)
    ensures forall e :: e in r <==> e in vocabulary && Matches(e, searchGreek, searchEnglish, searchTransliteration)
    ensures SubsequenceOf(r, vocabulary)
    ensures forall e :: multiset(r)[e] ==
              if Matches(e, searchGreek, searchEnglish, searchTransliteration) then multiset(vocabulary)[e] else 0
  {
    FilterEntries(vocabulary, e => Matches(e, searchGreek, searchEnglish, searchTransliteration))
  }

  /** With all three boxes empty the whole vocabulary is shown. */
  lemma EmptySearchShowsAll(vocabulary: seq<Entry>)
    ensures Filtered(vocabulary, "", "", "") == vocabulary
  {
    forall e | e in vocabulary ensures Matches(e, "", "", "") {
      EmptyIncluded(ToLower(e.greekWord));
      EmptyIncluded(ToLower(e.englishWord));
      EmptyIncluded(ToLower(e.transliteration));
    }
    FilterKeepAll(vocabulary, e => Matches(e, "", "", ""));
  }

  /** Searching is blind to letter case in the search string. */
  lemma SearchIgnoresCase(e: Entry, g: string, en: string, t: string)
    ensures Matches(e, ToLower(g), ToLower(en), ToLower(t)) <==> Matches(e, g, en, t)
  {
    ToLowerIdempotent(g);
    ToLowerIdempotent(en);
    ToLowerIdempotent(t);
  }

  /** "Showing filtered results" rather than "Showing all words". */
  predicate ShowingFiltered(searchGreek: string, searchEnglish: string, searchTransliteration: string) {
    searchGreek != "" || searchEnglish != "" || searchTransliteration != ""
  }

  /** When the page says it shows all words, it does. */
  lemma ShowingAllMeansAll(vocabulary: seq<Entry>, g: string, en: string, t: string)
    requires !ShowingFiltered(g, en, t)
    ensures Filtered(vocabulary, g, en, t) == vocabulary
  {
    EmptySearchShowsAll(vocabulary);
  }

  /** `getKnowledgeColor`: one class per knowledge level, gray otherwise. */
  function KnowledgeColor(level: string): (c: string)
    ensures level !in KnowledgeLevels ==> c == "bg-gray-100 text-gray-800"
  {
    if level == "Full know" then "bg-green-100 text-green-800"
    else if level == "Almost full or with errors" then "bg-yellow-100 text-yellow-800"
    else if level == "Moderate know" then "bg-blue-100 text-blue-800"
    else if level == "Recent touch" then "bg-red-100 text-red-800"
    else "bg-gray-100 text-gray-800"
  }

  /** The four levels get four different classes, none of them the default. */
  lemma KnowledgeColorsDistinct(a: string, b: string)
    requires a in KnowledgeLevels && b in KnowledgeLevels && a != b
    ensures KnowledgeColor(a) != KnowledgeColor(b)
    ensures KnowledgeColor(a) != "bg-gray-100 text-gray-800"
  {
  }

  /** `getWordTypeColor`: one class per word type; "other" shares the
      default gray. */
  function WordTypeColor(wordType: string): (c: string)
    ensures wordType !in WordTypes || wordType == "other" ==> c == "bg-gray-50 text-gray-700"
  {
    if wordType == "noun" then "bg-purple-50 text-purple-700"
    else if wordType == "verb" then "bg-green-50 text-green-700"
    else if wordType == "adjective" then "bg-blue-50 text-blue-700"
    else if wordType == "adverb" then "bg-orange-50 text-orange-700"
    else if wordType == "number" then "bg-pink-50 text-pink-700"
    else "bg-gray-50 text-gray-700"
  }

  /** The five named types other than "other" have their own classes. */
  lemma WordTypeColorsDistinct(a: string, b: string)
    requires a in WordTypes && b in WordTypes && a != b
    ensures WordTypeColor(a) != WordTypeColor(b)
  {
  }
}
