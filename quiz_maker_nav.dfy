/** The tab bar of the quiz maker. */
module QuizMakerNav {
  import opened Text

  const Home: string := "/quiz-maker"
  const Play: string := "/quiz-maker/play"
  const Generate: string := "/quiz-maker/generate"
  const DataBackup: string := "/quiz-maker/data-backup"

  /** The tabs in display order: Home / Play, Generate Quiz, Data Backup. */
  const Tabs: seq<string> := [Home, Generate, DataBackup]

  /** `isActive`: Home / Play on the home page and the play pages, every
      other tab on its page and everything below it. */
  function IsActive(pathname: string, path: string): (b: bool)
    ensures path == Home ==> (b <==> pathname == Home || StartsWith(pathname, Play))
    ensures path != Home ==> (b <==> StartsWith(pathname, path))
  {
    if path == Home then pathname == Home || StartsWith(pathname, Play)
    else StartsWith(pathname, path)
  }

  /** At most one tab is highlighted, whatever the pathname. */
  lemma AtMostOneActive(pathname: string, i: int, j: int)
    requires 0 <= i < j < |Tabs|
    ensures !(IsActive(pathname, Tabs[i]) && IsActive(pathname, Tabs[j]))
  {
    if i == 0 {
      if pathname == Home {
        assert |Tabs[j]| > |pathname|;
      }
      PrefixesClash(pathname, Play, Tabs[j], 12);
    } else {
      PrefixesClash(pathname, Generate, DataBackup, 12);
    }
  }

  lemma OnGenerate()
    ensures IsActive(Generate, Generate)
    ensures !IsActive(Generate, Home)
  {
    PrefixesClash(Generate, Play, Generate, 12);
  }

  /** On the backup page only Data Backup is highlighted. */
  lemma OnDataBackup()
    ensures IsActive(DataBackup, DataBackup)
    ensures !IsActive(DataBackup, Home) && !IsActive(DataBackup, Generate)
  {
    PrefixesClash(DataBackup, Play, DataBackup, 12);
    PrefixesClash(DataBackup, Generate, DataBackup, 12);
  }

  /** A play page keeps Home / Play highlighted. */
  lemma OnPlayPage(pathname: string)
    requires StartsWith(pathname, Play)
    ensures IsActive(pathname, Home)
  {
  }
}
