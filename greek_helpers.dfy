/** `getUserVocabularyStats`: the number of words and, per word type and per
    knowledge level, how many entries have it. The vocabulary fetch is a
    parameter; `None` stands for the `null` it gives without a user or on a
    query error. */
module GreekHelpers {
  import opened Common
  import opened Tally
  import opened Vocabulary

  datatype Stats = Stats(totalWords: nat, byWordType: Tally<string>, byKnowledgeLevel: Tally<string>)

  function WordTypesOf(v: seq<Entry>): (ts: seq<string>)
    ensures |ts| == |v| && forall i :: 0 <= i < |v| ==> ts[i] == v[i].wordType
  {
    seq(|v|, i requires 0 <= i < |v| => v[i].wordType)
  }

  function KnowledgeLevelsOf(v: seq<Entry>): (ls: seq<string>)
    ensures |ls| == |v| && forall i :: 0 <= i < |v| ==> ls[i] == v[i].knowledgeLevel
  {
    seq(|v|, i requires 0 <= i < |v| => v[i].knowledgeLevel)
  }

  /** The statistics the helper returns for a fetched vocabulary. */
  function StatsOf(v: seq<Entry>): Stats {
    Stats(|v|, TallyOf(WordTypesOf(v)), TallyOf(KnowledgeLevelsOf(v)))
  }

  /** The `forEach` over the vocabulary, bumping both counters per entry. */
  method GetUserVocabularyStats(vocabulary: Option<seq<Entry>>) returns (r: Option<Stats>)
    ensures vocabulary.None? ==> r.None?
    ensures vocabulary.Some? ==> r == Some(StatsOf(vocabulary.value))
  {
    if vocabulary.None? {
      return None;
    }
    var v := vocabulary.value;
    var byWordType: Tally<string> := [];
    var byKnowledgeLevel: Tally<string> := [];
    var i := 0;
    while i < |v|
      invariant 0 <= i <= |v|
      invariant byWordType == TallyOf(WordTypesOf(v[..i]))
      invariant byKnowledgeLevel == TallyOf(KnowledgeLevelsOf(v[..i]))
    {
      assert WordTypesOf(v[..i + 1])[..i] == WordTypesOf(v[..i]);
      assert KnowledgeLevelsOf(v[..i + 1])[..i] == KnowledgeLevelsOf(v[..i]);
      byWordType := Bump(byWordType, v[i].wordType);
      byKnowledgeLevel := Bump(byKnowledgeLevel, v[i].knowledgeLevel);
      i := i + 1;
    }
    assert v[..i] == v;
    return Some(Stats(|v|, byWordType, byKnowledgeLevel));
  }

  /** Each count is the number of entries with that value, and only values
      that occur are keys. */
  lemma StatsCount(v: seq<Entry>, t: string, level: string)
    ensures Lookup(StatsOf(v).byWordType, t) == Count(WordTypesOf(v), t)
    ensures Lookup(StatsOf(v).byKnowledgeLevel, level) == Count(KnowledgeLevelsOf(v), level)
    ensures t in Keys(StatsOf(v).byWordType) <==> exists i :: 0 <= i < |v| && v[i].wordType == t
    ensures level in Keys(StatsOf(v).byKnowledgeLevel) <==> exists i :: 0 <= i < |v| && v[i].knowledgeLevel == level
  {
    TallyOfLookup(WordTypesOf(v), t);
    TallyOfLookup(KnowledgeLevelsOf(v), level);
    TallyOfKeys(WordTypesOf(v));
    TallyOfKeys(KnowledgeLevelsOf(v));
    assert t in WordTypesOf(v) <==> exists i :: 0 <= i < |v| && v[i].wordType == t;
    assert level in KnowledgeLevelsOf(v) <==> exists i :: 0 <= i < |v| && v[i].knowledgeLevel == level;
  }

  /** Both sets of counts add up to the number of words, and no key counts
      zero. */
  lemma StatsSums(v: seq<Entry>)
    ensures StatsOf(v).totalWords == |v|
    ensures SumCounts(StatsOf(v).byWordType) == StatsOf(v).totalWords
    ensures SumCounts(StatsOf(v).byKnowledgeLevel) == StatsOf(v).totalWords
    ensures AllPositive(StatsOf(v).byWordType) && AllPositive(StatsOf(v).byKnowledgeLevel)
  {
    TallyOfSum(WordTypesOf(v));
    TallyOfSum(KnowledgeLevelsOf(v));
  }

  /** An empty vocabulary gives zero words and no keys. */
  lemma EmptyVocabularyStats()
    ensures StatsOf([]) == Stats(0, [], [])
  {
    assert WordTypesOf([]) == [] && KnowledgeLevelsOf([]) == [];
  }
}
