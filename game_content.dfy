/** The Solstra line pickers. The line tables come from JSON files that are
    not part of this model, so they are parameters; `Math.random()` becomes a
    natural number `choice`, and `Math.floor(Math.random() * n)` becomes
    `choice % n`, which reaches every index in `[0, n)`. */
module GameContent {
  import opened Common

  /** `lines[Math.floor(Math.random() * lines.length)]`: an element of
      `lines`, or `undefined` when there is none. */
  function PickLine(lines: seq<string>, choice: nat): (r: Option<string>)
    ensures r.Some? <==> |lines| > 0
    ensures r.Some? ==> r.value in lines
    ensures |lines| > 0 ==> r == Some(lines[choice % |lines|])
  {
    if |lines| == 0 then None else Some(lines[choice % |lines|])
  }

  /** Every line can be drawn. */
  lemma EveryLineReachable(lines: seq<string>, i: nat)
    requires i < |lines|
    ensures PickLine(lines, i) == Some(lines[i])
  {
    assert i % |lines| == i;
  }

  /** `getRandomStandingLine`, `getRandomSolisStatusLine`. */
  function RandomStandingLine(standingLineEndings: seq<string>, choice: nat): (r: Option<string>)
    ensures r.Some? ==> r.value in standingLineEndings
    ensures r.None? <==> standingLineEndings == []
  {
    PickLine(standingLineEndings, choice)
  }

  /** A table keyed by character name; a name missing from it reads as no
      list. */
  function LinesFor(table: map<string, seq<string>>, name: string): seq<string> {
    if name in table then table[name] else []
  }

  /** `getRandomGreetingLine`: a greeting of the character, or a generic one
      when the character has none. */
  function RandomGreetingLine(greetingLines: map<string, seq<string>>, name: string, choice: nat): (r: string)
    ensures LinesFor(greetingLines, name) == [] ==> r == name + " greets you warmly."
    ensures LinesFor(greetingLines, name) != [] ==> r in greetingLines[name]
  {
    var lines := LinesFor(greetingLines, name);
    if |lines| == 0 then name + " greets you warmly." else PickLine(lines, choice).value
  }

  /** `getRandomHarvestLine`. */
  function RandomHarvestLine(harvestLines: map<string, seq<string>>, name: string, choice: nat): (r: string)
    ensures LinesFor(harvestLines, name) == [] ==> r == name + " offers you something from their harvest."
    ensures LinesFor(harvestLines, name) != [] ==> r in harvestLines[name]
  {
    var lines := LinesFor(harvestLines, name);
    if |lines| == 0 then name + " offers you something from their harvest." else PickLine(lines, choice).value
  }

  /** `getRandomHarvestItem`. */
  function RandomHarvestItem(harvestItems: map<string, seq<string>>, name: string, choice: nat): (r: string)
    ensures LinesFor(harvestItems, name) == [] ==> r == "Something nice"
    ensures LinesFor(harvestItems, name) != [] ==> r in harvestItems[name]
  {
    var items := LinesFor(harvestItems, name);
    if |items| == 0 then "Something nice" else PickLine(items, choice).value
  }

  /** `getSolisStatusLineByIndex`: `lines[index % lines.length]` with
      JavaScript's remainder. A negative index gives a negative position and
      so `undefined`, except when the remainder is zero; an empty table gives
      `undefined` too. */
  function StatusLineByIndex(lines: seq<string>, index: int): (r: Option<string>)
    ensures index >= 0 && |lines| > 0 ==> r == Some(lines[index % |lines|])
    ensures r.Some? ==> r.value in lines
    ensures |lines| == 0 ==> r.None?
  {
    if |lines| == 0 then None
    else
      var k := JsRem(index, |lines|);
      if k >= 0 then Some(lines[k]) else None
  }

  /** The status line repeats with the length of the table, so the hourly
      index can grow without bound. */
  lemma StatusLinePeriodic(lines: seq<string>, index: int)
    requires index >= 0
    ensures StatusLineByIndex(lines, index + |lines|) == StatusLineByIndex(lines, index)
  {
    if |lines| > 0 {
      var n := |lines|;
      ModUnique(index + n, n, index / n + 1, index % n);
    }
  }

  /** A negative index that is not a multiple of the length finds no line. */
  lemma NegativeIndexUndefined()
    ensures StatusLineByIndex(["a", "b", "c"], -1) == None
    ensures StatusLineByIndex(["a", "b", "c"], -3) == Some("a")
  {
  }
}
