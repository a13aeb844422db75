/** A JavaScript object used as a counter, `acc[k] = (acc[k] || 0) + 1`:
    keys keep their insertion order, a missing key reads as 0. Both the word
    frequency of the text analyser and the per-category vocabulary statistics
    are built this way. */
module Tally {
  import opened Common

  type Tally<K> = seq<(K, nat)>

  function Keys<K>(t: Tally<K>): (ks: seq<K>)
    ensures |ks| == |t|
    ensures forall i :: 0 <= i < |t| ==> ks[i] == t[i].0
  {
    if t == [] then [] else [t[0].0] + Keys(t[1..])
  }

  predicate NoDuplicates<K(==)>(ks: seq<K>) {
    forall i, j :: 0 <= i < j < |ks| ==> ks[i] != ks[j]
  }

  /** `acc[k] || 0`. */
  function Lookup<K(==)>(t: Tally<K>, k: K): (n: nat)
    ensures k !in Keys(t) ==> n == 0
  {
    if t == [] then 0 else if t[0].0 == k then t[0].1 else Lookup(t[1..], k)
  }

  /** `acc[k] = (acc[k] || 0) + 1`: an existing key keeps its place, a new one
      is appended with count 1. */
  function Bump<K(==)>(t: Tally<K>, k: K): (r: Tally<K>)
  {
    if t == [] then [(k, 1)]
    else if t[0].0 == k then [(k, t[0].1 + 1)] + t[1..]
    else [t[0]] + Bump(t[1..], k)
  }

  /** The object after `forEach` has bumped every element of `ks` in order. */
  function TallyOf<K(==)>(ks: seq<K>): Tally<K>
  {
    if ks == [] then [] else Bump(TallyOf(ks[..|ks| - 1]), ks[|ks| - 1])
  }

  function SumCounts<K>(t: Tally<K>): nat {
    if t == [] then 0 else t[0].1 + SumCounts(t[1..])
  }

  lemma {:induction false} BumpKeys<K>(t: Tally<K>, k: K)
    ensures Keys(Bump(t, k)) == if k in Keys(t) then Keys(t) else Keys(t) + [k]
  {
    if t != [] {
      assert Keys(t) == [t[0].0] + Keys(t[1..]);
      if t[0].0 != k {
        BumpKeys(t[1..], k);
        assert Bump(t, k) == [t[0]] + Bump(t[1..], k);
        assert Keys(Bump(t, k)) == [t[0].0] + Keys(Bump(t[1..], k));
      } else {
        assert Keys(Bump(t, k)) == [k] + Keys(t[1..]);
      }
    }
  }

  lemma {:induction false} BumpLookup<K>(t: Tally<K>, k: K, x: K)
    ensures Lookup(Bump(t, k), x) == Lookup(t, x) + (if x == k then 1 else 0)
  {
    if t != [] && t[0].0 != k {
      BumpLookup(t[1..], k, x);
      assert Bump(t, k) == [t[0]] + Bump(t[1..], k);
    } else if t != [] {
      assert Bump(t, k) == [(k, t[0].1 + 1)] + t[1..];
    }
  }

  lemma {:induction false} BumpSum<K>(t: Tally<K>, k: K)
    ensures SumCounts(Bump(t, k)) == SumCounts(t) + 1
    ensures AllPositive(t) ==> AllPositive(Bump(t, k))
    ensures |Bump(t, k)| == |t| || |Bump(t, k)| == |t| + 1
  {
    if t != [] && t[0].0 != k {
      BumpSum(t[1..], k);
      assert Bump(t, k) == [t[0]] + Bump(t[1..], k);
      assert Bump(t, k)[1..] == Bump(t[1..], k);
    } else if t != [] {
      assert Bump(t, k)[1..] == t[1..];
    }
  }

  lemma {:induction false} CountLast<K>(ks: seq<K>, x: K)
    requires ks != []
    ensures Count(ks, x) == Count(ks[..|ks| - 1], x) + (if ks[|ks| - 1] == x then 1 else 0)
  {
    assert ks == ks[..|ks| - 1] + [ks[|ks| - 1]];
    assert multiset(ks) == multiset(ks[..|ks| - 1]) + multiset{ks[|ks| - 1]};
  }

  /** Every key's count is its number of occurrences. */
  lemma {:induction false} TallyOfLookup<K>(ks: seq<K>, x: K)
    ensures Lookup(TallyOf(ks), x) == Count(ks, x)
  {
    if ks != [] {
      TallyOfLookup(ks[..|ks| - 1], x);
      BumpLookup(TallyOf(ks[..|ks| - 1]), ks[|ks| - 1], x);
      CountLast(ks, x);
    }
  }

  /** The keys are exactly the distinct elements, each listed once. */
  lemma {:induction false} TallyOfKeys<K>(ks: seq<K>)
    ensures forall x :: x in Keys(TallyOf(ks)) <==> x in ks
    ensures NoDuplicates(Keys(TallyOf(ks)))
  {
    if ks != [] {
      var init, last := ks[..|ks| - 1], ks[|ks| - 1];
      TallyOfKeys(init);
      var t := TallyOf(init);
      assert TallyOf(ks) == Bump(t, last);
      BumpKeys(t, last);
      assert ks == init + [last];
      AddKey(Keys(t), Keys(TallyOf(ks)), init, last);
    }
  }

  /** One more element: the key list grows by it unless it is already there. */
  lemma AddKey<K>(before: seq<K>, after: seq<K>, init: seq<K>, last: K)
    requires forall x :: x in before <==> x in init
    requires NoDuplicates(before)
    requires after == if last in before then before else before + [last]
    ensures forall x :: x in after <==> x in init + [last]
    ensures NoDuplicates(after)
  {
    if last !in before {
      AppendFresh(before, last);
    }
    forall x ensures x in after <==> x in init + [last] {
      assert x in init + [last] <==> x in init || x == last;
    }
  }

  lemma AppendFresh<K>(ks: seq<K>, k: K)
    requires NoDuplicates(ks) && k !in ks
    ensures NoDuplicates(ks + [k])
  {
  }

  /** The counts sum to the number of elements and none is zero. */
  lemma {:induction false} TallyOfSum<K>(ks: seq<K>)
    ensures SumCounts(TallyOf(ks)) == |ks|
    ensures AllPositive(TallyOf(ks))
  {
    if ks != [] {
      TallyOfSum(ks[..|ks| - 1]);
      BumpSum(TallyOf(ks[..|ks| - 1]), ks[|ks| - 1]);
    }
  }

  lemma {:induction false} NoDuplicatesCard<K>(ks: seq<K>)
    requires NoDuplicates(ks)
    ensures |set x | x in ks| == |ks|
  {
    if ks != [] {
      var rest := ks[1..];
      NoDuplicatesCard(rest);
      assert (set x | x in ks) == {ks[0]} + (set x | x in rest);
      assert ks[0] !in rest;
    }
  }

  /** The number of keys is the number of distinct elements, at most `|ks|`. */
  lemma DistinctKeys<K>(ks: seq<K>)
    ensures |TallyOf(ks)| == |set x | x in ks|
    ensures |TallyOf(ks)| <= |ks|
  {
    TallyOfKeys(ks);
    TallyOfSum(ks);
    var t := TallyOf(ks);
    NoDuplicatesCard(Keys(t));
    assert (set x | x in Keys(t)) == (set x | x in ks);
    SumAtLeastLength(t);
  }

  predicate AllPositive<K>(t: Tally<K>) {
    forall i :: 0 <= i < |t| ==> t[i].1 >= 1
  }

  lemma {:induction false} SumAtLeastLength<K>(t: Tally<K>)
    requires AllPositive(t)
    ensures |t| <= SumCounts(t)
  {
    if t != [] {
      SumAtLeastLength(t[1..]);
    }
  }

  lemma CountAtLeast<K>(s: seq<K>, i: nat, j: nat)
    requires i < j < |s|
    ensures multiset(s)[s[i]] >= 1 + (if s[j] == s[i] then 1 else 0)
  {
    assert s == s[..i] + [s[i]] + s[i + 1..j] + [s[j]] + s[j + 1..];
  }

  /** Reordering a tally keeps its keys distinct. */
  lemma PermutationKeepsDistinctKeys<K>(t: Tally<K>, r: Tally<K>)
    requires multiset(r) == multiset(t) && NoDuplicates(Keys(t))
    ensures NoDuplicates(Keys(r))
  {
    forall a, b | 0 <= a < |t| && 0 <= b < |t| && a != b
      ensures t[a] != t[b]
    {
      if a < b {
        assert Keys(t)[a] != Keys(t)[b];
      } else {
        assert Keys(t)[b] != Keys(t)[a];
      }
    }
    forall i, j | 0 <= i < j < |r| ensures r[i].0 != r[j].0 {
      assert r[i] in multiset(t) && r[j] in multiset(t);
      var a :| 0 <= a < |t| && t[a] == r[i];
      var b :| 0 <= b < |t| && t[b] == r[j];
      UniqueEntries(t, a);
      CountAtLeast(r, i, j);
      if a < b {
        assert Keys(t)[a] != Keys(t)[b];
      } else if b < a {
        assert Keys(t)[b] != Keys(t)[a];
      }
    }
  }

  /** With distinct keys every entry occurs once. */
  lemma {:induction false} UniqueEntries<K>(t: Tally<K>, a: nat)
    requires NoDuplicates(Keys(t)) && a < |t|
    ensures multiset(t)[t[a]] == 1
  {
    var rest := t[1..];
    assert t == [t[0]] + rest;
    assert multiset(t) == multiset{t[0]} + multiset(rest);
    if a == 0 {
      forall k | 0 <= k < |rest| ensures rest[k] != t[0] {
        assert Keys(t)[0] != Keys(t)[k + 1];
      }
      assert t[0] !in multiset(rest);
    } else {
      forall i, j | 0 <= i < j < |rest| ensures Keys(rest)[i] != Keys(rest)[j] {
        assert Keys(t)[i + 1] != Keys(t)[j + 1];
      }
      UniqueEntries(rest, a - 1);
      assert rest[a - 1] == t[a];
      assert Keys(t)[0] != Keys(t)[a];
    }
  }
}
