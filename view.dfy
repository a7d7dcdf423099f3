/** The component's view state and the handlers that change it
    (src/App.jsx:6-12, 144-160, 276-304). */
module View {
  import opened TabTypes
  import opened Enrich

  /** `getWindowTitle(window)`: popup, then devtools, then incognito, then the
      focused flag decide the heading. */
  function GetWindowTitle(w: Window): (r: string)
    ensures r == "Popup Window" <==> w.wtype == "popup"
    ensures r == "DevTools Window" <==> w.wtype == "devtools"
    ensures r == "Incognito Window" <==> w.wtype != "popup" && w.wtype != "devtools" && w.incognito
    ensures r == "Main Window (Active)" <==>
              w.wtype != "popup" && w.wtype != "devtools" && !w.incognito && w.focused
    ensures r == "Window" <==>
              w.wtype != "popup" && w.wtype != "devtools" && !w.incognito && !w.focused
  {
    if w.wtype == "popup" then "Popup Window"
    else if w.wtype == "devtools" then "DevTools Window"
    else if w.incognito then "Incognito Window"
    else if w.focused then "Main Window (Active)"
    else "Window"
  }

  /** The window type outranks the incognito and focused flags. */
  lemma WindowTitleByType(w: Window)
    requires w.wtype == "popup" || w.wtype == "devtools"
    ensures GetWindowTitle(w) == GetWindowTitle(w.(incognito := !w.incognito))
    ensures GetWindowTitle(w) == GetWindowTitle(w.(focused := !w.focused))
  {
  }

  /** The collapsed set after `toggleWindowCollapse(windowId)`. */
  function Toggled(collapsed: set<int>, windowId: int): (r: set<int>)
    ensures windowId in r <==> windowId !in collapsed
    ensures forall x :: x != windowId ==> (x in r <==> x in collapsed)
  {
    if windowId in collapsed then collapsed - {windowId} else collapsed + {windowId}
  }

  /** Toggling the same window twice restores the set. */
  lemma ToggledTwice(collapsed: set<int>, windowId: int)
    ensures Toggled(Toggled(collapsed, windowId), windowId) == collapsed
  {
  }

  /** Toggles of different windows commute. */
  lemma ToggledCommute(collapsed: set<int>, a: int, b: int)
    ensures Toggled(Toggled(collapsed, a), b) == Toggled(Toggled(collapsed, b), a)
  {
  }

  /** `tabs.filter(tab => tab.id !== tabId)`. */
  function WithoutTab(tabs: seq<EnrichedTab>, tabId: int): (r: seq<EnrichedTab>)
    ensures forall t :: t in r <==> t in tabs && t.tab.id != tabId
    ensures |r| <= |tabs|
    ensures (forall t :: t in tabs ==> t.tab.id != tabId) ==> r == tabs
  {
    if tabs == [] then []
    else
      assert tabs == [tabs[0]] + tabs[1..];
      if tabs[0].tab.id != tabId then [tabs[0]] + WithoutTab(tabs[1..], tabId)
      else WithoutTab(tabs[1..], tabId)
  }

  /** The filter works piecewise, so the kept tabs keep their relative order. */
  lemma {:induction false} WithoutTabConcat(a: seq<EnrichedTab>, b: seq<EnrichedTab>, tabId: int)
    ensures WithoutTab(a + b, tabId) == WithoutTab(a, tabId) + WithoutTab(b, tabId)
  {
    if a == [] {
      assert a + b == b;
    } else {
      var ab := a + b;
      assert ab[0] == a[0] && ab[1..] == a[1..] + b;
      WithoutTabConcat(a[1..], b, tabId);
    }
  }

  /** Two kept tabs stay in the order they had. */
  lemma KeptInOrder(a: seq<EnrichedTab>, x: EnrichedTab, b: seq<EnrichedTab>, y: EnrichedTab, c: seq<EnrichedTab>, tabId: int)
    requires x.tab.id != tabId && y.tab.id != tabId
    ensures WithoutTab(a + [x] + b + [y] + c, tabId)
            == WithoutTab(a, tabId) + [x] + WithoutTab(b, tabId) + [y] + WithoutTab(c, tabId)
  {
    WithoutTabConcat(a + [x] + b + [y], c, tabId);
    WithoutTabConcat(a + [x] + b, [y], tabId);
    WithoutTabConcat(a + [x], b, tabId);
    WithoutTabConcat(a, [x], tabId);
    assert WithoutTab([x], tabId) == [x] + WithoutTab([], tabId);
    assert WithoutTab([y], tabId) == [y] + WithoutTab([], tabId);
  }

  /** Every other tab keeps its number of occurrences; none of the closed id
      remains. */
  lemma {:induction false} WithoutTabCounts(tabs: seq<EnrichedTab>, tabId: int, t: EnrichedTab)
    ensures multiset(WithoutTab(tabs, tabId))[t] == if t.tab.id == tabId then 0 else multiset(tabs)[t]
  {
    if tabs != [] {
      WithoutTabCounts(tabs[1..], tabId, t);
      assert tabs == [tabs[0]] + tabs[1..];
    }
  }

  /** Closing the same tab again changes nothing. */
  lemma WithoutTabIdempotent(tabs: seq<EnrichedTab>, tabId: int)
    ensures WithoutTab(WithoutTab(tabs, tabId), tabId) == WithoutTab(tabs, tabId)
  {
  }

  /** The outcome of the two host queries of collectTabData, which is not
      modelled: both lists, or the message of the error that aborted it. */
  datatype FetchOutcome = Fetched(windowsData: seq<Window>, tabsData: seq<Tab>) | FetchFailed(message: string)

  /** The component's state (the `useState` hooks of src/App.jsx:6-12). */
  class App {
    var tabs: seq<EnrichedTab>
    var windows: seq<Window>
    var isExtension: bool
    var loading: bool
    var error: Option<string>
    var groupByWindows: bool
    var collapsedWindows: set<int>

    constructor ()
      ensures tabs == [] && windows == [] && !isExtension && loading && error == None
      ensures groupByWindows && collapsedWindows == {}
    {
      tabs, windows := [], [];
      isExtension, loading, error := false, true, None;
      groupByWindows, collapsedWindows := true, {};
    }

    /** The state updates of collectTabData once its two queries have settled
        (src/App.jsx:144-160): the enriched tabs and the windows on success,
        empty lists and the error message on failure; loading ends either way. */
    method ApplyFetch(outcome: FetchOutcome, now: int, parseUrl: string -> UrlParse)
      modifies this
      ensures outcome.Fetched? ==>
                && tabs == EnrichTabs(outcome.tabsData, outcome.windowsData, now, parseUrl)
                && windows == outcome.windowsData
                && error == None
      ensures outcome.FetchFailed? ==>
                && tabs == [] && windows == []
                && error == Some(if outcome.message != "" then outcome.message else "Failed to load tab data")
      ensures !loading
      ensures isExtension == old(isExtension) && groupByWindows == old(groupByWindows)
      ensures collapsedWindows == old(collapsedWindows)
    {
      loading := true;
      error := None;
      match outcome {
        case Fetched(windowsData, tabsData) =>
          tabs := EnrichTabs(tabsData, windowsData, now, parseUrl);
          windows := windowsData;
        case FetchFailed(message) =>
          error := Some(if message != "" then message else "Failed to load tab data");
          tabs := [];
          windows := [];
      }
      loading := false;
    }

    /** `handleCloseTab(tabId)`: both branches drop the tab from the local
        list; the host close and the alert are not modelled. */
    method HandleCloseTab(tabId: int)
      modifies this
      ensures tabs == WithoutTab(old(tabs), tabId)
      ensures forall t :: t in tabs ==> t.tab.id != tabId
      ensures windows == old(windows) && collapsedWindows == old(collapsedWindows)
      ensures isExtension == old(isExtension) && loading == old(loading) && error == old(error)
      ensures groupByWindows == old(groupByWindows)
    {
      tabs := WithoutTab(tabs, tabId);
    }

    /** `toggleWindowCollapse(windowId)`: copy the set, then delete the id if
        present or add it if not. */
    method ToggleWindowCollapse(windowId: int)
      modifies this
      ensures collapsedWindows == Toggled(old(collapsedWindows), windowId)
      ensures windowId in collapsedWindows <==> windowId !in old(collapsedWindows)
      ensures tabs == old(tabs) && windows == old(windows)
      ensures isExtension == old(isExtension) && loading == old(loading) && error == old(error)
      ensures groupByWindows == old(groupByWindows)
    {
      var newSet := collapsedWindows;
      if windowId in newSet {
        newSet := newSet - {windowId};
      } else {
        newSet := newSet + {windowId};
      }
      collapsedWindows := newSet;
    }
  }
}
