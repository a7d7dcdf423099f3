# Tab monitor: display data and view state

A Dafny model of the logic in the tab-monitor browser extension's single React
component (`src/App.jsx`). The model covers:

- the idle-time formatter and the domain labeller;
- the per-tab enrichment that turns the host's raw tab records into display records;
- the grouping of tabs by window, with the focused-first, then by-id ordering;
- the component state and the handlers that change it: applying a fetched
  snapshot, closing a tab locally, and toggling a window's collapsed state;
- the window heading classifier.

Three host-side inputs become parameters:

- the clock (`Date.now()`) is `now`;
- the URL parser (`new URL(u).hostname`) is `parseUrl: string -> UrlParse`;
- the result of the two host queries is a `FetchOutcome`.

Modules, all modelling `src/App.jsx`:

- `TabTypes`: the records (raw tab, window, enriched tab, window group).
- `Decimal`: how a template literal renders a non-negative integer.
- `Format`: `formatTime` and `getDomain`.
- `Enrich`: the `tabsData.map` callback and `windows.find`.
- `Grouping`: `groupTabsByWindows`. Its `forEach` loop is a `while` loop over a
  `map` and a key sequence. The comparator sort is a pure insertion sort with
  the source's comparator.
- `View`: `getWindowTitle`, the `Set` toggle, the list filter, and the class
  `App` whose fields are the component's `useState` values.

Two points where the displayed data differs from what one might expect:

- The mock record at src/App.jsx:245 says `2h ago`; the formatter gives
  `2h 0m ago` for two idle hours (`Format.FormatTimeExamples`).
- The per-tab error fallback labels the domain `Error`.

## Model

| member | source | states |
|---|---|---|
| `TabTypes.IsFalsyNumber` | src/App.jsx:78 | an optional number is truthy exactly when present and non-zero (NaN is not modelled) |
| `TabTypes.IsFalsyString` | src/App.jsx:92 | an optional string is truthy exactly when present and non-empty |
| `Decimal.NatToString` | src/App.jsx:85-87 | the `${n}` rendering of a count is a non-empty string of digits with no leading zero |
| `Decimal.ParseNatToString` | src/App.jsx:85-87 | reading the rendered digits back gives the number, so the idle string shows the counts exactly |
| `Decimal.NatToStringInjective` | src/App.jsx:85-87 | different counts render differently |
| `Format.FormatTime` | src/App.jsx:77-89 | a falsy timestamp (absent or 0) gives "Unknown"; the result is never empty |
| `Format.FormatTimeBands` | src/App.jsx:80-88 | by elapsed ms e: under 60000 (negative included) gives "Just now"; a minute to an hour gives "<e/60000>m ago"; an hour to a day gives "<e/3600000>h <minutes mod 60>m ago"; from a day on gives "<e/86400000>d <hours mod 24>h ago". The chained floors equal direct floor division |
| `Format.FormatTimeUnknownIff` | src/App.jsx:78-88 | "Unknown" comes out exactly when the timestamp is falsy |
| `Format.FormatTimeExamples` | src/App.jsx:78-88 | 300000 ms gives "5m ago"; 7200000 ms gives "2h 0m ago", not the "2h ago" of the mock record at line 245; no timestamp gives "Unknown" |
| `Format.GetDomain` | src/App.jsx:91-107 | a falsy url gives "Unknown"; the six internal prefixes map to their fixed labels before any parsing; otherwise a parse failure gives "Invalid URL", an empty hostname gives "Unknown", and any other hostname is returned; the label is never empty |
| `Format.GetDomainSkipsParser` | src/App.jsx:94-101 | for an internal-scheme URL the result does not depend on the parser and is one of the six fixed labels |
| `Format.InternalLabel` | src/App.jsx:94-99 | a fixed label exists exactly when the URL starts with one of the six internal prefixes, and it is one of the six labels |
| `Format.InternalPrefixesExclusive` | src/App.jsx:94-99 | no URL starts with two of the internal prefixes |
| `Format.GetDomainByPrefix` | src/App.jsx:94-99 | each internal prefix yields its own label under any parser, so the order in which the prefixes are tested changes no result |
| `Format.GetDomainExamples` | src/App.jsx:91-107 | "https://github.com/user/repo" gives its parsed host "github.com"; "chrome://settings" gives "Chrome"; a chrome-extension URL gives "Extension", not "Chrome"; no url gives "Unknown" |
| `Enrich.FindWindow` | src/App.jsx:125 | `find` returns the first window with the id, and nothing exactly when no window has it |
| `Enrich.WindowTitleFor` | src/App.jsx:125 | the title is never empty; it is "normal" when no window has the id, and otherwise "normal" or the type of a window with that id |
| `Enrich.EnrichTab` | src/App.jsx:109-126 | the raw tab is carried whole. The idle string is `formatTime` of lastAccessed and the domain is `getDomain` of the url. idleTime is null exactly when lastAccessed is falsy, and is otherwise now minus lastAccessed. The idle string is "Unknown" exactly when idleTime is null. isLoading and isComplete follow the status and are never both true. hasAudio, isMuted and isGrouped hold exactly under the source's conditions (isGrouped: groupId present, not 0, not -1). The domain and window title are never empty, and the title is "normal" unless a window with the tab's id has a non-empty type |
| `Enrich.EnrichTabs` | src/App.jsx:74-142 | the output has the input's length, and each position carries the raw tab of the same position unchanged |
| `Enrich.EnrichTabsConcat` | src/App.jsx:74 | each record depends only on its own tab: enriching a concatenation concatenates the enrichments |
| `Enrich.WindowTitleOfFirstMatch` | src/App.jsx:125 | windowTitle is the type of the first window whose id equals tab.windowId, or "normal" if that type is empty |
| `Grouping.Placeholder` | src/App.jsx:312-316 | the stand-in window has the missing id, type "normal", is unfocused and, having no incognito field, not incognito |
| `Grouping.WindowFor` | src/App.jsx:312-316 | the group window has the key as its id; it is the first listed window with that id, else the placeholder {id, "normal", unfocused} |
| `Grouping.TabsIn` | src/App.jsx:322 | a group's tab list holds exactly the tabs of that window id |
| `Grouping.WindowIds` | src/App.jsx:310-321 | the dictionary's keys in creation order: distinct, and exactly the window ids of the tabs |
| `Grouping.GroupsFor` | src/App.jsx:326 | `Object.values` in key order: one group per key, at the key's position, holding that key's window and tabs |
| `Grouping.Compare` | src/App.jsx:327-329 | negative exactly when `a` is focused and `b` is not, or both have the same focus and `a`'s id is smaller; zero exactly when focus and id agree |
| `Grouping.Insert` | src/App.jsx:326-330 | inserting adds exactly one copy of the group and nothing else |
| `Grouping.SortGroups` | src/App.jsx:326 | the sorted groups are a permutation of the unsorted ones |
| `Grouping.Grouped` | src/App.jsx:306-331 | the returned groups: one per distinct window id, ordered by the comparator, with distinct ids, a permutation of the dictionary's values |
| `Grouping.GroupTabsByWindows` | src/App.jsx:306-331 | the loop, which opens a group the first time an id is seen and then pushes the tab, followed by the sort, returns exactly `Grouped(tabs, windows)` |
| `Grouping.CompareTransitive` | src/App.jsx:326-330 | the comparator is a consistent (transitive) order, as `Array.prototype.sort` needs |
| `Grouping.CompareAntisymmetric` | src/App.jsx:326-330 | swapping the arguments negates the comparator |
| `Grouping.SortGroupsSorted` | src/App.jsx:326-330 | the sort's result is ordered by the comparator |
| `Grouping.SortedUnique` | src/App.jsx:326-330 | groups with distinct ids can be ordered by the comparator in only one way |
| `Grouping.GroupedOrdered` | src/App.jsx:326-330 | in the result every focused group precedes every unfocused group, and among groups of equal focus the window ids strictly ascend |
| `Grouping.GroupedContents` | src/App.jsx:310-323 | one group per distinct window id and none for a window without tabs. Every tab's window has a group, and group ids are distinct. Each group holds its window's tabs in input order, with its listed window or the placeholder |
| `Grouping.EachTabInExactlyOneGroup` | src/App.jsx:310-323 | every tab is in the group of its own window id and in no other group |
| `Grouping.GroupedSizes` | src/App.jsx:310-323 | the sizes of the groups add up to the number of tabs |
| `Grouping.GroupedIndependentOfOrder` | src/App.jsx:326 | any enumeration order of the dictionary's values sorts to the same result |
| `Grouping.GroupedPlaceholder` | src/App.jsx:312-316 | a group whose id is missing from the window list has the unfocused normal placeholder; otherwise its window is a listed one |
| `Grouping.GroupedWindowTitles` | src/App.jsx:125 | every enriched tab in a group has as windowTitle that group window's type, or "normal" if the type is empty |
| `View.GetWindowTitle` | src/App.jsx:299-304 | "Popup Window" iff popup, "DevTools Window" iff devtools, "Incognito Window" iff neither and incognito, "Main Window (Active)" iff none of those and focused, "Window" otherwise |
| `View.WindowTitleByType` | src/App.jsx:300-302 | a popup or devtools title does not depend on the incognito or focused flags |
| `View.Toggled` | src/App.jsx:289-295 | the toggled set contains the id iff the old set did not; every other id keeps its membership |
| `View.ToggledTwice` | src/App.jsx:287-297 | toggling the same id twice restores the set |
| `View.ToggledCommute` | src/App.jsx:287-297 | toggles of two ids commute |
| `View.WithoutTab` | src/App.jsx:279 | the filtered list holds exactly the tabs whose id differs; it is unchanged when no tab has the id |
| `View.WithoutTabConcat` | src/App.jsx:279 | filtering works piecewise over a concatenation |
| `View.KeptInOrder` | src/App.jsx:282 | two kept tabs keep their relative order, with the filtered stretches around them |
| `View.WithoutTabCounts` | src/App.jsx:279 | every tab with another id keeps its number of occurrences; no tab with the id remains |
| `View.WithoutTabIdempotent` | src/App.jsx:279 | closing the same id twice equals closing it once |
| `View.App.constructor` | src/App.jsx:6-12 | initial state: no tabs or windows, not an extension, loading, no error, grouping on, nothing collapsed |
| `View.App.ApplyFetch` | src/App.jsx:144-160 | on success the tabs become the enriched snapshot and the windows the fetched list, with no error. On failure both become empty and the error is the message, or "Failed to load tab data" when the message is empty. Loading ends either way |
| `View.App.HandleCloseTab` | src/App.jsx:276-284 | in both branches the tab list becomes the filter of the old list; nothing else changes |
| `View.App.ToggleWindowCollapse` | src/App.jsx:287-297 | the collapsed set becomes the toggle of the old set; nothing else changes |

## Left out

- Host queries of collectTabData (src/App.jsx:26-70: `chrome.windows.getAll`, `chrome.tabs.query`, `chrome.runtime.lastError`, the 10-second timeout races): host I/O and timers. Their result enters `App.ApplyFetch` as a `FetchOutcome`.
- The initialisation effect, including the mock-data branch (src/App.jsx:164-266), all JSX, `TabCard`, `alert` and `console` logging: presentation only.
- `handleGoToTab` and the host calls `chrome.tabs.update` and `chrome.tabs.remove` (src/App.jsx:268-278): host mutations. Only the local list filter is modelled.
- `handleRefresh` (src/App.jsx:334-338) only re-runs the host queries.
- `new URL(...)` is a foreign parser. It is the parameter `parseUrl`, which yields a hostname or a parse failure.
- `Date.now()` is the parameter `now`. The source reads the clock twice, at lines 79 and 112, and the two reads can differ by a millisecond. The model uses one value for both.
- The per-tab `catch` fallback (src/App.jsx:127-140) cannot fire in a total model. Its record would have domain "Error", idle string "Unknown", isComplete true, all other flags false, windowTitle "normal" and no idleTime field.
- `lastAccessed` is a floating-point millisecond count in the host, possibly fractional. It is an integer here, and NaN is not modelled.
- Enrich.EnrichTab: `isGrouped` is the truthiness of `tab.groupId && tab.groupId !== -1`. The JavaScript value itself may be `undefined` or `0` rather than `false`.
- Grouping.GroupTabsByWindows: `Object.values` enumerates array-index keys (integers from 0 to 2^32 - 2) in ascending order, then every other key, a negative id for instance, in insertion order. The model enumerates all keys in first-appearance order instead. `Grouping.GroupedIndependentOfOrder` shows that the sorted result is the same for every order.
- Grouping.SortGroups: the algorithm of the engine's `Array.prototype.sort` is not modelled, only a sort by the same comparator. `Grouping.SortedUnique` shows that the result is determined.
- JavaScript `%` truncates toward zero and Dafny's is Euclidean. They agree here because `hours % 24` and `minutes % 60` are only taken on positive values.
- The `tabs` array that a populated window record carries is not a field of `Window`, since no modelled code reads it.
- background.js (extension lifecycle listeners, `chrome.tabs.create`) and vite.config.js (build configuration and file copying) hold no application logic.
