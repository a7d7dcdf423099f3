/** Records that the tab monitor reads from the browser and derives for display
    (src/App.jsx). Optional fields of the host's records are `Option`s. */
module TabTypes {

  datatype Option<T> = None | Some(value: T)

  /** JavaScript truthiness of an optional number: absent and 0 are falsy. */
  predicate IsFalsyNumber(x: Option<int>)
    ensures !IsFalsyNumber(x) <==> x.Some? && x.value != 0
  {
    x == None || x == Some(0)
  }

  /** JavaScript truthiness of an optional string: absent and "" are falsy. */
  predicate IsFalsyString(x: Option<string>)
    ensures !IsFalsyString(x) <==> x.Some? && |x.value| > 0
  {
    x == None || x == Some("")
  }

  /** `tab.mutedInfo` of the host tab record. */
  datatype MutedInfo = MutedInfo(muted: bool)

  /** A raw tab as the host's tab query reports it; `lastAccessed` is in
      milliseconds since the epoch. */
  datatype Tab = Tab(
    id: int,
    windowId: int,
    index: int,
    title: string,
    url: Option<string>,
    favIconUrl: Option<string>,
    active: bool,
    pinned: bool,
    audible: Option<bool>,
    mutedInfo: Option<MutedInfo>,
    status: Option<string>,
    lastAccessed: Option<int>,
    groupId: Option<int>)

  /** A raw window; `wtype` is the host's `type` field ("normal", "popup",
      "devtools", ...). */
  datatype Window = Window(id: int, wtype: string, focused: bool, incognito: bool)

  /** A tab with the fields the enrichment adds: the spread `...tab` keeps the
      raw record whole in `tab`. `idleTime` is `None` where the source stores
      null. */
  datatype EnrichedTab = EnrichedTab(
    tab: Tab,
    idleTime: Option<int>,
    idleTimeFormatted: string,
    domain: string,
    isLoading: bool,
    isComplete: bool,
    hasAudio: bool,
    isMuted: bool,
    isGrouped: bool,
    windowTitle: string)

  /** One entry of the `windowGroups` dictionary built by groupTabsByWindows. */
  datatype WindowGroup = WindowGroup(window: Window, tabs: seq<EnrichedTab>)

  /** What `new URL(u)` yields: its `hostname`, or a thrown parse error. */
  datatype UrlParse = Hostname(hostname: string) | ParseFailure
}
