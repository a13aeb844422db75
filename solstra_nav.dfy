/** The tab bar of the Solstra game. */
module SolstraNav {
  import opened Text

  const Home: string := "/solstra"
  const Temple: string := "/solstra/temple"
  const Town: string := "/solstra/town"
  const House: string := "/solstra/house"

  /** The tabs in display order. There is no tab for the home page. */
  const Tabs: seq<string> := [Temple, Town, House]

  /** `isActive`. Its home branch (the home page or a temple page) is never
      reached, as no tab passes the home path. */
  function IsActive(pathname: string, path: string): (b: bool)
    ensures path == Home ==> (b <==> pathname == Home || StartsWith(pathname, Temple))
    ensures path != Home ==> (b <==> StartsWith(pathname, path))
  {
    if path == Home then pathname == Home || StartsWith(pathname, Temple)
    else StartsWith(pathname, path)
  }

  /** Each tab is highlighted exactly on its page and below it, so on the
      home page itself no tab is. */
  lemma TabsArePrefixRules(pathname: string)
    ensures Home !in Tabs
    ensures forall t :: t in Tabs ==> (IsActive(pathname, t) <==> StartsWith(pathname, t))
    ensures forall t :: t in Tabs ==> !IsActive(Home, t)
  {
  }

  /** At most one tab is highlighted, whatever the pathname. */
  lemma AtMostOneActive(pathname: string, i: int, j: int)
    requires 0 <= i < j < |Tabs|
    ensures !(IsActive(pathname, Tabs[i]) && IsActive(pathname, Tabs[j]))
  {
    if i == 0 {
      PrefixesClash(pathname, Temple, Tabs[j], 10);
    } else {
      PrefixesClash(pathname, Town, House, 9);
    }
  }

  /** On the town page only Town is highlighted. */
  lemma OnTown()
    ensures IsActive(Town, Town)
    ensures !IsActive(Town, Temple) && !IsActive(Town, House)
  {
    PrefixesClash(Town, Temple, Town, 10);
    PrefixesClash(Town, Town, House, 9);
  }
}
