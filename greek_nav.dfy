/** The tab bar of the Greek vocabulary pages. */
module GreekNav {
  import opened Text

  const Home: string := "/greek-word-counter"
  const AddWords: string := "/greek-word-counter/add-words"
  const HistoricalChart: string := "/greek-word-counter/historical-chart"
  const AnalyzeText: string := "/greek-word-counter/analyze-text"

  /** The tabs in display order. */
  const Tabs: seq<string> := [Home, AddWords, HistoricalChart, AnalyzeText]

  /** `isActive`: the home tab only on its own page, every other tab on its
      page and everything below it. */
  function IsActive(pathname: string, path: string): (b: bool)
    ensures path == Home ==> (b <==> pathname == Home)
    ensures path != Home ==> (b <==> StartsWith(pathname, path))
  {
    if path == Home then pathname == Home else StartsWith(pathname, path)
  }

  /** At most one tab is highlighted, whatever the pathname. */
  lemma AtMostOneActive(pathname: string, i: int, j: int)
    requires 0 <= i < j < |Tabs|
    ensures !(IsActive(pathname, Tabs[i]) && IsActive(pathname, Tabs[j]))
  {
    if i == 0 {
      if pathname == Home {
        assert |Tabs[j]| > |pathname|;
      }
    } else if i == 1 {
      PrefixesClash(pathname, AddWords, Tabs[j], if j == 2 then 20 else 21);
    } else {
      PrefixesClash(pathname, HistoricalChart, AnalyzeText, 20);
    }
  }

  /** On the add-words page, Add Words is highlighted and Greek Words is not. */
  lemma OnAddWords()
    ensures IsActive(AddWords, AddWords)
    ensures !IsActive(AddWords, Home)
  {
  }
}
