/** The per-tab enrichment of `tabsData.map` (src/App.jsx:74-142): each raw
    tab is kept whole and given display fields derived from it, the window list
    and the clock. */
module Enrich {
  import opened TabTypes
  import opened Format

  /** `windows.find(w => w.id === id)`: the first window with that id. */
  function FindWindow(windows: seq<Window>, id: int): (r: Option<Window>)
    ensures r.None? <==> forall w :: w in windows ==> w.id != id
    ensures r.Some? ==> exists i :: 0 <= i < |windows| && windows[i] == r.value
                          && r.value.id == id && forall j :: 0 <= j < i ==> windows[j].id != id
  {
    if windows == [] then None
    else if windows[0].id == id then Some(windows[0])
    else
      var r := FindWindow(windows[1..], id);
      if r.Some? then
        ghost var i :| 0 <= i < |windows[1..]| && windows[1..][i] == r.value
                       && r.value.id == id && forall j :: 0 <= j < i ==> windows[1..][j].id != id;
        assert windows[i + 1] == r.value;
        r
      else r
  }

  /** `windowsData.find(...)?.type || 'normal'`. */
  function WindowTitleFor(windows: seq<Window>, windowId: int): (r: string)
    ensures r != ""
    ensures (forall w :: w in windows ==> w.id != windowId) ==> r == "normal"
    ensures r == "normal" || exists w :: w in windows && w.id == windowId && w.wtype == r
  {
    match FindWindow(windows, windowId)
    case Some(w) => if w.wtype != "" then w.wtype else "normal"
    case None => "normal"
  }

  /** The record the map callback builds for one tab. */
  function EnrichTab(tab: Tab, windows: seq<Window>, now: int, parseUrl: string -> UrlParse): (e: EnrichedTab)
    ensures e.tab == tab
    ensures e.idleTime.None? <==> IsFalsyNumber(tab.lastAccessed)
    ensures e.idleTime.Some? ==> e.idleTime.value == now - tab.lastAccessed.value
    ensures e.idleTimeFormatted == FormatTime(tab.lastAccessed, now)
    ensures e.idleTimeFormatted == "Unknown" <==> e.idleTime.None?
    ensures e.domain == GetDomain(tab.url, parseUrl)
    ensures e.domain != "" && e.windowTitle != ""
    ensures e.isLoading <==> tab.status == Some("loading")
    ensures e.isComplete <==> tab.status == Some("complete")
    ensures !(e.isLoading && e.isComplete)
    ensures e.hasAudio <==> tab.audible == Some(true)
    ensures e.isMuted <==> tab.mutedInfo.Some? && tab.mutedInfo.value.muted
    ensures e.isGrouped <==> tab.groupId.Some? && tab.groupId.value != 0 && tab.groupId.value != -1
    ensures (exists w :: w in windows && w.id == tab.windowId && w.wtype != "") || e.windowTitle == "normal"
  {
    FormatTimeUnknownIff(tab.lastAccessed, now);
    EnrichedTab(
      tab,
      if IsFalsyNumber(tab.lastAccessed) then None else Some(now - tab.lastAccessed.value),
      FormatTime(tab.lastAccessed, now),
      GetDomain(tab.url, parseUrl),
      tab.status == Some("loading"),
      tab.status == Some("complete"),
      tab.audible == Some(true),
      match tab.mutedInfo case Some(m) => m.muted case None => false,
      match tab.groupId case Some(g) => g != 0 && g != -1 case None => false,
      WindowTitleFor(windows, tab.windowId))
  }

  /** `tabsData.map(...)`: one enriched record per raw tab, at the same
      position, each carrying its raw tab unchanged. */
  function EnrichTabs(tabs: seq<Tab>, windows: seq<Window>, now: int, parseUrl: string -> UrlParse): (r: seq<EnrichedTab>)
    ensures |r| == |tabs|
    ensures forall i :: 0 <= i < |tabs| ==> r[i].tab == tabs[i]
  {
    seq(|tabs|, i requires 0 <= i < |tabs| => EnrichTab(tabs[i], windows, now, parseUrl))
  }

  /** Each record depends on its own tab only: enriching a concatenation is
      concatenating the enrichments. */
  lemma EnrichTabsConcat(a: seq<Tab>, b: seq<Tab>, windows: seq<Window>, now: int, parseUrl: string -> UrlParse)
    ensures EnrichTabs(a + b, windows, now, parseUrl) == EnrichTabs(a, windows, now, parseUrl) + EnrichTabs(b, windows, now, parseUrl)
  {
    var l, r := EnrichTabs(a + b, windows, now, parseUrl), EnrichTabs(a, windows, now, parseUrl) + EnrichTabs(b, windows, now, parseUrl);
    forall i | 0 <= i < |l| ensures l[i] == r[i] {
      if i < |a| {
        assert (a + b)[i] == a[i];
      } else {
        assert (a + b)[i] == b[i - |a|];
      }
    }
  }

  /** The window title of an enriched tab is the type of the first window
      whose id is the tab's window id, and "normal" when there is none or its
      type is empty. */
  lemma WindowTitleOfFirstMatch(tab: Tab, windows: seq<Window>, now: int, parseUrl: string -> UrlParse, i: nat)
    requires i < |windows| && windows[i].id == tab.windowId
    requires forall j :: 0 <= j < i ==> windows[j].id != tab.windowId
    ensures EnrichTab(tab, windows, now, parseUrl).windowTitle
            == if windows[i].wtype != "" then windows[i].wtype else "normal"
  {
    var r := FindWindow(windows, tab.windowId);
    var k :| 0 <= k < |windows| && windows[k] == r.value && r.value.id == tab.windowId
             && forall j :: 0 <= j < k ==> windows[j].id != tab.windowId;
    assert k == i;
  }
}
