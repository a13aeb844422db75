/** The Solstra dialogue box's `processText`: the text is split with the
    regular expression `/(_[^_]+_)/g`, whose capture group keeps each
    underscore-delimited segment among the parts, and every part that starts
    and ends with an underscore is shown emphasised without them. */
module DialogueBox {

  predicate NoUnderscore(s: string) {
    forall i :: 0 <= i < |s| ==> s[i] != '_'
  }

  /** The first index `j >= i` with `s[j] == '_'`, or `|s|` when there is
      none. */
  function NextUnderscore(s: string, i: nat): (j: nat)
    requires i <= |s|
    ensures i <= j <= |s|
    ensures j < |s| ==> s[j] == '_'
    ensures NoUnderscore(s[i..j])
    decreases |s| - i
  {
    if i == |s| || s[i] == '_' then i
    else
      var j := NextUnderscore(s, i + 1);
      assert forall k :: 0 <= k < j - i ==> s[i..j][k] == s[i + k];
      j
  }

  /** Where a match of `_[^_]+_` tried at `q` ends: `[^_]+` takes every
      non-underscore after the opening one, so a match exists exactly when at
      least one of them is followed by an underscore. */
  function MatchEnd(s: string, q: nat): (e: nat)
    requires q < |s|
    ensures e == 0 || q + 3 <= e <= |s|
  {
    if s[q] != '_' then 0
    else
      var j := NextUnderscore(s, q + 1);
      if j < |s| && j > q + 1 then j + 1 else 0
  }

  /** `String.prototype.split` with the pattern, scanning from `q` with the
      current plain part starting at `p`. */
  function SplitFrom(s: string, p: nat, q: nat): (parts: seq<string>)
    requires p <= q <= |s|
    ensures |parts| % 2 == 1
    decreases |s| - q
  {
    if q == |s| then [s[p..]]
    else
      var e := MatchEnd(s, q);
      if e == 0 then SplitFrom(s, p, q + 1)
      else [s[p..q], s[q..e]] + SplitFrom(s, e, e)
  }

  /** `text.split(/(_[^_]+_)/g)`. */
  function Split(text: string): (parts: seq<string>)
    ensures |parts| % 2 == 1
  {
    SplitFrom(text, 0, 0)
  }

  function Concat(parts: seq<string>): string {
    if parts == [] then "" else parts[0] + Concat(parts[1..])
  }

  lemma {:induction false} ConcatAppend(a: seq<string>, b: seq<string>)
    ensures Concat(a + b) == Concat(a) + Concat(b)
  {
    if a != [] {
      assert (a + b)[1..] == a[1..] + b;
      ConcatAppend(a[1..], b);
    } else {
      assert a + b == b;
    }
  }

  lemma {:induction false} SplitFromRejoins(s: string, p: nat, q: nat)
    requires p <= q <= |s|
    ensures Concat(SplitFrom(s, p, q)) == s[p..]
    decreases |s| - q
  {
    if q < |s| {
      var e := MatchEnd(s, q);
      if e == 0 {
        SplitFromRejoins(s, p, q + 1);
      } else {
        var rest := SplitFrom(s, e, e);
        assert SplitFrom(s, p, q) == [s[p..q], s[q..e]] + rest;
        SplitFromRejoins(s, e, e);
        ConcatAppend([s[p..q], s[q..e]], rest);
        ConcatPair(s[p..q], s[q..e]);
        SlicesJoin(s, p, q, e);
      }
    }
  }

  lemma ConcatPair(a: string, b: string)
    ensures Concat([a, b]) == a + b
  {
    assert [a, b][1..] == [b];
    assert Concat([b]) == b + Concat([]);
  }

  lemma SlicesJoin(s: string, p: nat, q: nat, e: nat)
    requires p <= q <= e <= |s|
    ensures s[p..] == s[p..q] + s[q..e] + s[e..]
  {
  }

  /** Joining the parts gives back the text. */
  lemma SplitRejoins(text: string)
    ensures Concat(Split(text)) == text
  {
    SplitFromRejoins(text, 0, 0);
    assert text[0..] == text;
  }

  /** A captured segment: an underscore, one or more other characters, an
      underscore. */
  predicate Captured(part: string) {
    |part| >= 3 && part[0] == '_' && part[|part| - 1] == '_' && NoUnderscore(part[1..|part| - 1])
  }

  lemma {:induction false} SplitFromCaptures(s: string, p: nat, q: nat)
    requires p <= q <= |s|
    ensures forall i :: 0 <= i < |SplitFrom(s, p, q)| && i % 2 == 1 ==> Captured(SplitFrom(s, p, q)[i])
    decreases |s| - q
  {
    if q < |s| {
      var e := MatchEnd(s, q);
      if e == 0 {
        SplitFromCaptures(s, p, q + 1);
      } else {
        SplitFromCaptures(s, e, e);
        var m := s[q..e];
        var j := NextUnderscore(s, q + 1);
        assert m[1..|m| - 1] == s[q + 1..j];
        var rest := SplitFrom(s, e, e);
        forall i | 0 <= i < |SplitFrom(s, p, q)| && i % 2 == 1
          ensures Captured(SplitFrom(s, p, q)[i])
        {
          if i >= 2 {
            assert SplitFrom(s, p, q)[i] == rest[i - 2];
          }
        }
      }
    }
  }

  /** Every captured part, at the odd positions, is an underscore-delimited
      segment with a non-empty, underscore-free inside. */
  lemma SplitCaptures(text: string)
    ensures forall i :: 0 <= i < |Split(text)| && i % 2 == 1 ==> Captured(Split(text)[i])
  {
    SplitFromCaptures(text, 0, 0);
  }

  lemma {:induction false} SplitFromNoUnderscore(s: string, p: nat, q: nat)
    requires p <= q <= |s| && NoUnderscore(s)
    ensures SplitFrom(s, p, q) == [s[p..]]
    decreases |s| - q
  {
    if q < |s| {
      SplitFromNoUnderscore(s, p, q + 1);
    }
  }

  /** Text without an underscore is a single plain part. */
  lemma SplitNoUnderscore(text: string)
    requires NoUnderscore(text)
    ensures Split(text) == [text]
  {
    SplitFromNoUnderscore(text, 0, 0);
    assert text[0..] == text;
  }

  /** A rendered piece of dialogue. */
  datatype Piece = Plain(text: string) | Emphasis(content: string)

  /** `part.startsWith('_') && part.endsWith('_')`, then
      `part.slice(1, -1)`; for "_" the slice is empty. */
  function ProcessPart(part: string): (r: Piece)
    ensures r.Emphasis? <==> |part| > 0 && part[0] == '_' && part[|part| - 1] == '_'
    ensures r.Plain? ==> r.text == part
    ensures r.Emphasis? && |part| >= 2 ==> part == "_" + r.content + "_"
  {
    if |part| > 0 && part[0] == '_' && part[|part| - 1] == '_' then
      var content := if |part| >= 2 then part[1..|part| - 1] else "";
      assert |part| >= 2 ==> part == [part[0]] + part[1..|part| - 1] + [part[|part| - 1]];
      Emphasis(content)
    else Plain(part)
  }

  /** `processText`. */
  function ProcessText(text: string): (pieces: seq<Piece>)
    ensures |pieces| == |Split(text)|
    ensures forall i :: 0 <= i < |pieces| ==> pieces[i] == ProcessPart(Split(text)[i])
  {
    var parts := Split(text);
    seq(|parts|, i requires 0 <= i < |parts| => ProcessPart(parts[i]))
  }

  /** Each captured segment is emphasised, with its outer underscores removed
      and a non-empty, underscore-free content. */
  lemma CapturedEmphasised(text: string, i: int)
    requires 0 <= i < |Split(text)| && i % 2 == 1
    ensures ProcessText(text)[i].Emphasis?
    ensures |ProcessText(text)[i].content| > 0 && NoUnderscore(ProcessText(text)[i].content)
  {
    SplitCaptures(text);
  }

  /** A plain part that merely starts and ends with an underscore is
      emphasised as well, with empty content: "_" and "__" alone. */
  lemma LoneUnderscoresEmphasised()
    ensures ProcessText("_") == [Emphasis("")]
    ensures ProcessText("__") == [Emphasis("")]
  {
    assert MatchEnd("_", 0) == 0;
    assert MatchEnd("__", 0) == 0 && MatchEnd("__", 1) == 0;
  }
}
