/** `groupTabsByWindows` (src/App.jsx:306-331): tabs are gathered into one
    group per window id, a placeholder window standing in for one that is not
    in the window list, and the groups are sorted focused-first, then by id. */
module Grouping {
  import opened TabTypes
  import opened Enrich

  /** The window a missing id is given (src/App.jsx:312-316); it has no
      `incognito` field, which reads as false. */
  function Placeholder(id: int): (w: Window)
    ensures w.id == id && w.wtype == "normal" && !w.focused && !w.incognito
  {
    Window(id, "normal", false, false)
  }

  /** `windows.find(w => w.id === id) || placeholder`. */
  function WindowFor(windows: seq<Window>, id: int): (w: Window)
    ensures w.id == id
    ensures FindWindow(windows, id).Some? ==> w == FindWindow(windows, id).value && w in windows
    ensures FindWindow(windows, id).None? ==> w == Placeholder(id)
  {
    match FindWindow(windows, id)
    case Some(w) => w
    case None => Placeholder(id)
  }

  /** The tabs of window `k`, in input order. */
  function TabsIn(s: seq<EnrichedTab>, k: int): (r: seq<EnrichedTab>)
    ensures forall t :: t in r <==> t in s && t.tab.windowId == k
    ensures |r| <= |s|
  {
    if s == [] then []
    else
      var last := s[|s| - 1];
      TabsIn(s[..|s| - 1], k) + (if last.tab.windowId == k then [last] else [])
  }

  predicate DistinctInts(xs: seq<int>) {
    forall i, j :: 0 <= i < j < |xs| ==> xs[i] != xs[j]
  }

  /** The window ids of the tabs without repetition, in order of first
      appearance: the keys of `windowGroups` in the order they are created. */
  function WindowIds(s: seq<EnrichedTab>): (r: seq<int>)
    ensures DistinctInts(r)
    ensures forall k :: k in r <==> exists t :: t in s && t.tab.windowId == k
  {
    if s == [] then []
    else
      var p := WindowIds(s[..|s| - 1]);
      var last := s[|s| - 1];
      assert forall t :: t in s <==> t in s[..|s| - 1] || t == last;
      if last.tab.windowId in p then p else p + [last.tab.windowId]
  }

  /** The group the dictionary holds for key `k` once every tab is pushed. */
  function GroupOf(tabs: seq<EnrichedTab>, windows: seq<Window>, k: int): WindowGroup {
    WindowGroup(WindowFor(windows, k), TabsIn(tabs, k))
  }

  /** The groups for the keys `ids`, in that order: `Object.values`. */
  function GroupsFor(ids: seq<int>, tabs: seq<EnrichedTab>, windows: seq<Window>): (r: seq<WindowGroup>)
    ensures |r| == |ids|
    ensures forall j :: 0 <= j < |ids| ==> r[j] == GroupOf(tabs, windows, ids[j])
  {
    seq(|ids|, j requires 0 <= j < |ids| => GroupOf(tabs, windows, ids[j]))
  }

  /** The sort comparator of src/App.jsx:326-330: negative when `a` goes first. */
  function Compare(a: WindowGroup, b: WindowGroup): (c: int)
    ensures c < 0 <==> (a.window.focused && !b.window.focused)
                       || (a.window.focused == b.window.focused && a.window.id < b.window.id)
    ensures c == 0 <==> a.window.focused == b.window.focused && a.window.id == b.window.id
  {
    if a.window.focused && !b.window.focused then -1
    else if !a.window.focused && b.window.focused then 1
    else a.window.id - b.window.id
  }

  /** What `Array.prototype.sort` promises for a consistent comparator. */
  predicate Sorted(s: seq<WindowGroup>) {
    forall i, j :: 0 <= i < j < |s| ==> Compare(s[i], s[j]) <= 0
  }

  predicate DistinctIds(s: seq<WindowGroup>) {
    forall i, j :: 0 <= i < j < |s| ==> s[i].window.id != s[j].window.id
  }

  /** Inserts `g` before the first element it does not follow. */
  function Insert(g: WindowGroup, s: seq<WindowGroup>): (r: seq<WindowGroup>)
    ensures multiset(r) == multiset(s) + multiset{g}
    ensures forall x :: x in r <==> x == g || x in s
    ensures |r| == |s| + 1
  {
    if s == [] || Compare(g, s[0]) <= 0 then [g] + s
    else
      assert s == [s[0]] + s[1..];
      [s[0]] + Insert(g, s[1..])
  }

  /** The result of the comparator sort, here by insertion. */
  function SortGroups(s: seq<WindowGroup>): (r: seq<WindowGroup>)
    ensures multiset(r) == multiset(s)
    ensures forall x :: x in r <==> x in s
    ensures |r| == |s|
  {
    if s == [] then []
    else
      assert s == [s[0]] + s[1..];
      Insert(s[0], SortGroups(s[1..]))
  }

  /** The value groupTabsByWindows returns. */
  function Grouped(tabs: seq<EnrichedTab>, windows: seq<Window>): (r: seq<WindowGroup>)
    ensures |r| == |WindowIds(tabs)|
    ensures multiset(r) == multiset(GroupsFor(WindowIds(tabs), tabs, windows))
    ensures Sorted(r) && DistinctIds(r)
  {
    var u := GroupsFor(WindowIds(tabs), tabs, windows);
    GroupsForDistinct(tabs, windows);
    SortGroupsSorted(u);
    SortGroupsDistinct(u);
    SortGroups(u)
  }

  /** The source's loop: each tab opens its window's group if there is none
      yet, then is pushed onto it; the dictionary's values are then sorted. */
  method GroupTabsByWindows(tabs: seq<EnrichedTab>, windows: seq<Window>) returns (groups: seq<WindowGroup>)
    ensures groups == Grouped(tabs, windows)
  {
    var windowGroups: map<int, WindowGroup> := map[];
    var keys: seq<int> := [];
    var i := 0;
    while i < |tabs|
      invariant 0 <= i <= |tabs|
      invariant Gathered(windowGroups, keys, tabs[..i], windows)
    {
      var tab := tabs[i];
      var id := tab.tab.windowId;
      assert tabs[..i + 1] == tabs[..i] + [tab];
      GatherStep(windowGroups, keys, tabs[..i], tab, windows);
      if id !in windowGroups {
        windowGroups := windowGroups[id := WindowGroup(WindowFor(windows, id), [])];
        keys := keys + [id];
      }
      windowGroups := windowGroups[id := windowGroups[id].(tabs := windowGroups[id].tabs + [tab])];
      i := i + 1;
    }
    assert tabs[..|tabs|] == tabs;
    forall j | 0 <= j < |keys| ensures keys[j] in windowGroups {
      assert keys[j] in keys;
    }
    var values := seq(|keys|, j requires 0 <= j < |keys| => windowGroups[keys[j]]);
    assert values == GroupsFor(WindowIds(tabs), tabs, windows);
    groups := SortGroups(values);
  }

  /** The dictionary and its key order once the tabs `done` are gathered. */
  ghost predicate Gathered(windowGroups: map<int, WindowGroup>, keys: seq<int>, done: seq<EnrichedTab>, windows: seq<Window>) {
    && keys == WindowIds(done)
    && (forall k :: k in windowGroups <==> k in keys)
    && (forall k :: k in windowGroups ==> windowGroups[k] == GroupOf(done, windows, k))
  }

  /** One pass of the loop body keeps the dictionary gathered. */
  lemma GatherStep(windowGroups: map<int, WindowGroup>, keys: seq<int>, done: seq<EnrichedTab>, tab: EnrichedTab, windows: seq<Window>)
    requires Gathered(windowGroups, keys, done, windows)
    ensures var id := tab.tab.windowId;
            var created := if id in windowGroups then windowGroups
                          else windowGroups[id := WindowGroup(WindowFor(windows, id), [])];
            var keys' := if id in windowGroups then keys else keys + [id];
            var pushed := created[id := created[id].(tabs := created[id].tabs + [tab])];
            Gathered(pushed, keys', done + [tab], windows)
  {
    var id := tab.tab.windowId;
    var created := if id in windowGroups then windowGroups
                   else windowGroups[id := WindowGroup(WindowFor(windows, id), [])];
    var keys' := if id in windowGroups then keys else keys + [id];
    var pushed := created[id := created[id].(tabs := created[id].tabs + [tab])];
    WindowIdsPush(done, tab);
    assert keys' == WindowIds(done + [tab]);
    assert forall k :: k in pushed <==> k in keys';
    forall k | k in pushed ensures pushed[k] == GroupOf(done + [tab], windows, k) {
      TabsInPush(done, tab, k);
      if k == id && id !in windowGroups {
        TabsInAbsent(done, id);
      }
    }
  }

  lemma TabsInAbsent(s: seq<EnrichedTab>, k: int)
    requires k !in WindowIds(s)
    ensures TabsIn(s, k) == []
  {
  }

  lemma TabsInPush(p: seq<EnrichedTab>, t: EnrichedTab, k: int)
    ensures TabsIn(p + [t], k) == TabsIn(p, k) + (if t.tab.windowId == k then [t] else [])
  {
    assert (p + [t])[..|p|] == p;
  }

  lemma WindowIdsPush(p: seq<EnrichedTab>, t: EnrichedTab)
    ensures WindowIds(p + [t]) == if t.tab.windowId in WindowIds(p) then WindowIds(p) else WindowIds(p) + [t.tab.windowId]
  {
    assert (p + [t])[..|p|] == p;
  }

  // ---- The comparator is a total order on groups with distinct ids ----

  lemma CompareAntisymmetric(a: WindowGroup, b: WindowGroup)
    ensures Compare(b, a) == -Compare(a, b)
  {
  }

  lemma CompareTransitive(a: WindowGroup, b: WindowGroup, c: WindowGroup)
    requires Compare(a, b) <= 0 && Compare(b, c) <= 0
    ensures Compare(a, c) <= 0
  {
  }

  // ---- Sorting ----

  lemma {:induction false} InsertSorted(g: WindowGroup, s: seq<WindowGroup>)
    requires Sorted(s)
    ensures Sorted(Insert(g, s))
  {
    if s == [] || Compare(g, s[0]) <= 0 {
      var r := [g] + s;
      forall i, j | 0 <= i < j < |r| ensures Compare(r[i], r[j]) <= 0 {
        if i == 0 && j > 1 {
          CompareTransitive(g, s[0], s[j - 1]);
        }
      }
    } else {
      InsertSorted(g, s[1..]);
      var t := Insert(g, s[1..]);
      var r := [s[0]] + t;
      forall x | x in t ensures Compare(s[0], x) <= 0 {
        if x != g {
          var j :| 0 <= j < |s[1..]| && s[1..][j] == x;
          assert s[j + 1] == x;
        }
      }
      forall i, j | 0 <= i < j < |r| ensures Compare(r[i], r[j]) <= 0 {
        if i == 0 {
          assert r[j] == t[j - 1];
          assert r[j] in t;
        } else {
          assert r[i] == t[i - 1] && r[j] == t[j - 1];
        }
      }
    }
  }

  lemma {:induction false} SortGroupsSorted(s: seq<WindowGroup>)
    ensures Sorted(SortGroups(s))
  {
    if s != [] {
      SortGroupsSorted(s[1..]);
      InsertSorted(s[0], SortGroups(s[1..]));
    }
  }

  lemma {:induction false} InsertDistinct(g: WindowGroup, s: seq<WindowGroup>)
    requires DistinctIds(s)
    requires forall x :: x in s ==> x.window.id != g.window.id
    ensures DistinctIds(Insert(g, s))
  {
    if s != [] && Compare(g, s[0]) > 0 {
      var t := Insert(g, s[1..]);
      forall x | x in s[1..] ensures x.window.id != g.window.id { }
      assert DistinctIds(s[1..]) by {
        forall i, j | 0 <= i < j < |s[1..]| ensures s[1..][i].window.id != s[1..][j].window.id {
          assert s[1..][i] == s[i + 1] && s[1..][j] == s[j + 1];
        }
      }
      InsertDistinct(g, s[1..]);
      forall x | x in t ensures x.window.id != s[0].window.id {
        if x != g {
          var j :| 0 <= j < |s[1..]| && s[1..][j] == x;
          assert s[j + 1] == x;
        }
      }
      var r := [s[0]] + t;
      forall i, j | 0 <= i < j < |r| ensures r[i].window.id != r[j].window.id {
        if i == 0 {
          assert r[j] == t[j - 1];
          assert r[j] in t;
        } else {
          assert r[i] == t[i - 1] && r[j] == t[j - 1];
        }
      }
    } else {
      var r := [g] + s;
      forall i, j | 0 <= i < j < |r| ensures r[i].window.id != r[j].window.id {
        if i == 0 {
          assert r[j] == s[j - 1];
        } else {
          assert r[i] == s[i - 1] && r[j] == s[j - 1];
        }
      }
    }
  }

  lemma {:induction false} SortGroupsDistinct(s: seq<WindowGroup>)
    requires DistinctIds(s)
    ensures DistinctIds(SortGroups(s))
  {
    if s != [] {
      assert DistinctIds(s[1..]) by {
        forall i, j | 0 <= i < j < |s[1..]| ensures s[1..][i].window.id != s[1..][j].window.id {
          assert s[1..][i] == s[i + 1] && s[1..][j] == s[j + 1];
        }
      }
      SortGroupsDistinct(s[1..]);
      var t := SortGroups(s[1..]);
      forall x | x in t ensures x.window.id != s[0].window.id {
        var j :| 0 <= j < |s[1..]| && s[1..][j] == x;
        assert s[j + 1] == x;
      }
      InsertDistinct(s[0], t);
    }
  }

  /** A sequence of groups with distinct ids is sorted in only one way: the
      order of the dictionary's values before the sort does not matter. */
  lemma {:induction false} SortedUnique(a: seq<WindowGroup>, b: seq<WindowGroup>)
    requires Sorted(a) && Sorted(b) && DistinctIds(a) && DistinctIds(b)
    requires multiset(a) == multiset(b)
    ensures a == b
    decreases |a|
  {
    if a != [] {
      HeadsAgree(a, b);
      assert a == [a[0]] + a[1..] && b == [b[0]] + b[1..];
      assert multiset(a) == multiset{a[0]} + multiset(a[1..]);
      assert multiset(b) == multiset{b[0]} + multiset(b[1..]);
      assert multiset(a[1..]) == multiset(a) - multiset{a[0]};
      assert multiset(b[1..]) == multiset(b) - multiset{b[0]};
      TailSortedDistinct(a);
      TailSortedDistinct(b);
      SortedUnique(a[1..], b[1..]);
    }
  }

  lemma HeadsAgree(a: seq<WindowGroup>, b: seq<WindowGroup>)
    requires Sorted(a) && Sorted(b) && DistinctIds(b)
    requires multiset(a) == multiset(b) && a != []
    ensures b != [] && a[0] == b[0]
  {
    assert a[0] in multiset(b);
    var k :| 0 <= k < |b| && b[k] == a[0];
    assert b[0] in multiset(a);
    var m :| 0 <= m < |a| && a[m] == b[0];
    assert Compare(a[0], b[0]) <= 0 by {
      if m != 0 { assert Compare(a[0], a[m]) <= 0; }
    }
    assert Compare(b[0], a[0]) <= 0 by {
      if k != 0 { assert Compare(b[0], b[k]) <= 0; }
    }
    CompareAntisymmetric(a[0], b[0]);
    assert b[k].window.id == b[0].window.id;
  }

  lemma TailSortedDistinct(s: seq<WindowGroup>)
    requires s != [] && Sorted(s) && DistinctIds(s)
    ensures Sorted(s[1..]) && DistinctIds(s[1..])
  {
    forall i, j | 0 <= i < j < |s[1..]|
      ensures Compare(s[1..][i], s[1..][j]) <= 0 && s[1..][i].window.id != s[1..][j].window.id
    {
      assert s[1..][i] == s[i + 1] && s[1..][j] == s[j + 1];
    }
  }

  // ---- Sizes ----

  function SumSizes(s: seq<WindowGroup>): nat {
    if s == [] then 0 else |s[0].tabs| + SumSizes(s[1..])
  }

  lemma {:induction false} SumSizesAppend(a: seq<WindowGroup>, g: WindowGroup)
    ensures SumSizes(a + [g]) == SumSizes(a) + |g.tabs|
  {
    if a != [] {
      assert (a + [g])[1..] == a[1..] + [g];
      SumSizesAppend(a[1..], g);
    }
  }

  lemma {:induction false} SumSizesInsert(g: WindowGroup, s: seq<WindowGroup>)
    ensures SumSizes(Insert(g, s)) == |g.tabs| + SumSizes(s)
  {
    if s != [] && Compare(g, s[0]) > 0 {
      SumSizesInsert(g, s[1..]);
    }
  }

  lemma {:induction false} SumSizesSort(s: seq<WindowGroup>)
    ensures SumSizes(SortGroups(s)) == SumSizes(s)
  {
    if s != [] {
      SumSizesSort(s[1..]);
      SumSizesInsert(s[0], SortGroups(s[1..]));
    }
  }

  /** Appending a tab adds one to the sizes of the groups of distinct ids
      exactly when its window id is among them. */
  lemma {:induction false} SumSizesPush(ids: seq<int>, p: seq<EnrichedTab>, t: EnrichedTab, windows: seq<Window>)
    requires DistinctInts(ids)
    ensures SumSizes(GroupsFor(ids, p + [t], windows))
            == SumSizes(GroupsFor(ids, p, windows)) + (if t.tab.windowId in ids then 1 else 0)
  {
    if ids != [] {
      var q := p + [t];
      GroupsForCons(ids, q, windows);
      GroupsForCons(ids, p, windows);
      TabsInPush(p, t, ids[0]);
      DistinctTail(ids);
      SumSizesPush(ids[1..], p, t, windows);
    }
  }

  lemma GroupsForCons(ids: seq<int>, tabs: seq<EnrichedTab>, windows: seq<Window>)
    requires ids != []
    ensures GroupsFor(ids, tabs, windows) == [GroupOf(tabs, windows, ids[0])] + GroupsFor(ids[1..], tabs, windows)
  {
  }

  lemma DistinctTail(ids: seq<int>)
    requires ids != [] && DistinctInts(ids)
    ensures DistinctInts(ids[1..])
    ensures ids[0] !in ids[1..]
    ensures forall k :: k in ids <==> k == ids[0] || k in ids[1..]
  {
    forall i, j | 0 <= i < j < |ids[1..]| ensures ids[1..][i] != ids[1..][j] {
      assert ids[1..][i] == ids[i + 1] && ids[1..][j] == ids[j + 1];
    }
    assert ids == [ids[0]] + ids[1..];
  }

  lemma {:induction false} SumSizesGroupsFor(tabs: seq<EnrichedTab>, windows: seq<Window>)
    ensures SumSizes(GroupsFor(WindowIds(tabs), tabs, windows)) == |tabs|
  {
    if tabs != [] {
      var p, t := tabs[..|tabs| - 1], tabs[|tabs| - 1];
      assert tabs == p + [t];
      SumSizesGroupsFor(p, windows);
      WindowIdsPush(p, t);
      var ids := WindowIds(p);
      if t.tab.windowId in ids {
        SumSizesPush(ids, p, t, windows);
      } else {
        SumSizesNewWindow(p, t, windows);
      }
    }
  }

  lemma SumSizesNewWindow(p: seq<EnrichedTab>, t: EnrichedTab, windows: seq<Window>)
    requires t.tab.windowId !in WindowIds(p)
    ensures SumSizes(GroupsFor(WindowIds(p) + [t.tab.windowId], p + [t], windows))
            == SumSizes(GroupsFor(WindowIds(p), p, windows)) + 1
  {
    var ids := WindowIds(p);
    var k := t.tab.windowId;
    var ids' := ids + [k];
    assert DistinctInts(ids');
    SumSizesPush(ids', p, t, windows);
    assert GroupsFor(ids', p, windows) == GroupsFor(ids, p, windows) + [GroupOf(p, windows, k)];
    SumSizesAppend(GroupsFor(ids, p, windows), GroupOf(p, windows, k));
    TabsInAbsent(p, k);
  }

  // ---- Properties of the result ----

  lemma GroupsForDistinct(tabs: seq<EnrichedTab>, windows: seq<Window>)
    ensures DistinctIds(GroupsFor(WindowIds(tabs), tabs, windows))
  {
  }

  /** A sequence contains the same elements as any permutation of it. */
  lemma SameElements(a: seq<WindowGroup>, b: seq<WindowGroup>)
    requires multiset(a) == multiset(b)
    ensures forall x :: x in a <==> x in b
  {
    forall x ensures x in a <==> x in b {
      assert x in a <==> x in multiset(a);
      assert x in b <==> x in multiset(b);
    }
  }

  /** Order: a focused window's group comes before every unfocused one, and
      among groups of equal focus the window ids strictly ascend. */
  lemma GroupedOrdered(tabs: seq<EnrichedTab>, windows: seq<Window>)
    ensures var g := Grouped(tabs, windows);
            forall i, j :: 0 <= i < j < |g| ==>
              && Compare(g[i], g[j]) < 0
              && !(g[j].window.focused && !g[i].window.focused)
              && (g[i].window.focused == g[j].window.focused ==> g[i].window.id < g[j].window.id)
  {
    var u := GroupsFor(WindowIds(tabs), tabs, windows);
    GroupsForDistinct(tabs, windows);
    SortGroupsSorted(u);
    SortGroupsDistinct(u);
  }

  /** Contents: exactly one group per distinct window id of the tabs, none for
      a window without tabs; each holds its window (or the placeholder) and the
      tabs of that window in input order. */
  lemma GroupedContents(tabs: seq<EnrichedTab>, windows: seq<Window>)
    ensures var g := Grouped(tabs, windows);
            && DistinctIds(g)
            && (forall t :: t in tabs ==> exists j :: 0 <= j < |g| && g[j].window.id == t.tab.windowId)
            && (forall j :: 0 <= j < |g| ==> exists t :: t in tabs && t.tab.windowId == g[j].window.id)
            && (forall j :: 0 <= j < |g| ==> g[j].tabs == TabsIn(tabs, g[j].window.id))
            && (forall j :: 0 <= j < |g| ==> g[j].window == WindowFor(windows, g[j].window.id))
  {
    var ids := WindowIds(tabs);
    var u := GroupsFor(ids, tabs, windows);
    var g := Grouped(tabs, windows);
    GroupsForDistinct(tabs, windows);
    SortGroupsDistinct(u);
    SameElements(g, u);
    forall t | t in tabs ensures exists j :: 0 <= j < |g| && g[j].window.id == t.tab.windowId {
      var k := t.tab.windowId;
      assert k in ids;
      var m :| 0 <= m < |ids| && ids[m] == k;
      assert u[m] in g;
      var j :| 0 <= j < |g| && g[j] == u[m];
    }
    forall j | 0 <= j < |g|
      ensures g[j] == GroupOf(tabs, windows, g[j].window.id) && g[j].window.id in ids
    {
      assert g[j] in u;
      var m :| 0 <= m < |u| && u[m] == g[j];
    }
  }

  /** Every tab is in exactly one group: the group of its window. */
  lemma EachTabInExactlyOneGroup(tabs: seq<EnrichedTab>, windows: seq<Window>, i: nat)
    requires i < |tabs|
    ensures var g := Grouped(tabs, windows);
            && (exists j :: 0 <= j < |g| && g[j].window.id == tabs[i].tab.windowId && tabs[i] in g[j].tabs)
            && (forall j :: 0 <= j < |g| && tabs[i] in g[j].tabs ==> g[j].window.id == tabs[i].tab.windowId)
            && (forall j, j' :: 0 <= j < j' < |g| ==> !(tabs[i] in g[j].tabs && tabs[i] in g[j'].tabs))
  {
    var g := Grouped(tabs, windows);
    GroupedContents(tabs, windows);
    assert tabs[i] in tabs;
  }

  /** No tab is lost or duplicated: the group sizes add up to the tab count. */
  lemma GroupedSizes(tabs: seq<EnrichedTab>, windows: seq<Window>)
    ensures SumSizes(Grouped(tabs, windows)) == |tabs|
  {
    SumSizesSort(GroupsFor(WindowIds(tabs), tabs, windows));
    SumSizesGroupsFor(tabs, windows);
  }

  /** Any enumeration order of the dictionary's values sorts to the same
      result, so the JavaScript property order of integer keys is immaterial. */
  lemma GroupedIndependentOfOrder(tabs: seq<EnrichedTab>, windows: seq<Window>, values: seq<WindowGroup>)
    requires multiset(values) == multiset(GroupsFor(WindowIds(tabs), tabs, windows))
    ensures SortGroups(values) == Grouped(tabs, windows)
  {
    var u := GroupsFor(WindowIds(tabs), tabs, windows);
    GroupsForDistinct(tabs, windows);
    SortGroupsSorted(u);
    SortGroupsDistinct(u);
    SortGroupsSorted(values);
    PermutationDistinct(u, values);
    SortGroupsDistinct(values);
    SortedUnique(SortGroups(values), SortGroups(u));
  }

  lemma PermutationDistinct(a: seq<WindowGroup>, b: seq<WindowGroup>)
    requires DistinctIds(a) && multiset(a) == multiset(b)
    ensures DistinctIds(b)
  {
    forall i, j | 0 <= i < j < |b| ensures b[i].window.id != b[j].window.id {
      if b[i].window.id == b[j].window.id {
        assert b[i] in multiset(a) && b[j] in multiset(a);
        var p :| 0 <= p < |a| && a[p] == b[i];
        var q :| 0 <= q < |a| && a[q] == b[j];
        assert p == q;
        CountTwo(b, i, j);
        CountOne(a, p);
        assert false;
      }
    }
  }

  lemma CountTwo(b: seq<WindowGroup>, i: nat, j: nat)
    requires i < j < |b| && b[i] == b[j]
    ensures multiset(b)[b[i]] >= 2
  {
    assert b == b[..i] + [b[i]] + b[i + 1..j] + [b[j]] + b[j + 1..];
  }

  lemma CountOne(a: seq<WindowGroup>, p: nat)
    requires DistinctIds(a) && p < |a|
    ensures multiset(a)[a[p]] == 1
  {
    assert a == a[..p] + [a[p]] + a[p + 1..];
    assert a[p] !in a[..p];
    assert a[p] !in a[p + 1..];
  }

  /** A window id missing from the window list gets the placeholder, an
      unfocused "normal" window; present ones get the first matching window. */
  lemma GroupedPlaceholder(tabs: seq<EnrichedTab>, windows: seq<Window>, j: nat)
    requires j < |Grouped(tabs, windows)|
    ensures var w := Grouped(tabs, windows)[j].window;
            && ((forall v :: v in windows ==> v.id != w.id) ==> w == Window(w.id, "normal", false, false))
            && ((exists v :: v in windows && v.id == w.id) ==> w in windows)
  {
    GroupedContents(tabs, windows);
  }

  /** The window title given by the enrichment to every tab of a group is the
      group window's type, or "normal" when that type is empty. */
  lemma GroupedWindowTitles(raw: seq<Tab>, windows: seq<Window>, now: int, parseUrl: string -> UrlParse)
    ensures var tabs := EnrichTabs(raw, windows, now, parseUrl);
            var g := Grouped(tabs, windows);
            forall j, t :: 0 <= j < |g| && t in g[j].tabs ==>
              t.windowTitle == if g[j].window.wtype != "" then g[j].window.wtype else "normal"
  {
    var tabs := EnrichTabs(raw, windows, now, parseUrl);
    var g := Grouped(tabs, windows);
    GroupedContents(tabs, windows);
    forall j, t | 0 <= j < |g| && t in g[j].tabs
      ensures t.windowTitle == if g[j].window.wtype != "" then g[j].window.wtype else "normal"
    {
      assert t in tabs;
      var i :| 0 <= i < |tabs| && tabs[i] == t;
      assert t == EnrichTab(raw[i], windows, now, parseUrl);
      TitleOfWindowFor(raw[i], windows, now, parseUrl);
    }
  }

  lemma TitleOfWindowFor(tab: Tab, windows: seq<Window>, now: int, parseUrl: string -> UrlParse)
    ensures var w := WindowFor(windows, tab.windowId);
            EnrichTab(tab, windows, now, parseUrl).windowTitle == if w.wtype != "" then w.wtype else "normal"
  {
  }
}
