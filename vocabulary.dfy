/** The Greek vocabulary record shared by the vocabulary pages, the route and
    the helpers, and the values its two enumerated columns allow. */
module Vocabulary {

  /** A row of `greek_vocabulary`; `user_id` and the time stamps are not
      used by the modelled logic. */
  datatype Entry = Entry(
    id: int,
    englishWord: string,
    greekWord: string,
    transliteration: string,
    wordType: string,
    knowledgeLevel: string)

  const WordTypes: seq<string> := ["noun", "verb", "adjective", "adverb", "number", "other"]

  const KnowledgeLevels: seq<string> :=
    ["Full know", "Almost full or with errors", "Moderate know", "Recent touch"]

  const DefaultWordType: string := "noun"

  const DefaultKnowledgeLevel: string := "Moderate know"

  /** Keeps the entries satisfying `keep`, in order. */
  function FilterEntries(entries: seq<Entry>, keep: Entry -> bool): (r: seq<Entry>)
    ensures |r| <= |entries|
    ensures forall e :: e in r <==> e in entries && keep(e)
    ensures SubsequenceOf(r, entries)
    ensures forall e :: multiset(r)[e] == if keep(e) then multiset(entries)[e] else 0
  {
    if entries == [] then []
    else
      var rest := FilterEntries(entries[1..], keep);
      assert entries == [entries[0]] + entries[1..];
      assert multiset(entries) == multiset{entries[0]} + multiset(entries[1..]);
      if keep(entries[0]) then [entries[0]] + rest else rest
  }

  /** `a` is `b` with some elements removed, the rest in the same order. */
  predicate SubsequenceOf<T(==)>(a: seq<T>, b: seq<T>) {
    if a == [] then true
    else if b == [] then false
    else if a[0] == b[0] then SubsequenceOf(a[1..], b[1..])
    else SubsequenceOf(a, b[1..])
  }

  lemma {:induction false} SubsequenceOfSelf<T>(a: seq<T>)
    ensures SubsequenceOf(a, a)
  {
    if a != [] {
      SubsequenceOfSelf(a[1..]);
    }
  }

  /** A filter that keeps everything gives back the list itself. */
  lemma {:induction false} FilterKeepAll(entries: seq<Entry>, keep: Entry -> bool)
    requires forall e :: e in entries ==> keep(e)
    ensures FilterEntries(entries, keep) == entries
  {
    if entries != [] {
      FilterKeepAll(entries[1..], keep);
    }
  }
}
