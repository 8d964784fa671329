/** The Spaces panel: width and column arithmetic shared with the media
    grid, the per-folder expansion memory, the shape of a workspace card's
    tab list, which tabs the clean-up and unload actions touch, the
    workspace icon's kind, and the inline rename. */
module Spaces {
  import opened Common

  // ---------------------------------------------------------------------
  // Layout arithmetic (all widths in whole pixels; the window-relative cap
  // is a parameter)

  /** Sidebar 90 + padding 40 + create button 38, and 240 + 16 per card. */
  function PanelWidth(count: nat, cap: int): (w: int)
    ensures w <= cap && w <= 168 + 256 * count
    ensures w == cap || w == 168 + 256 * count
  {
    var total := 90 + 40 + count * 240 + count * 16 + 38;
    if total < cap then total else cap
  }

  /** The panel never narrows as workspaces are added. */
  lemma PanelWidthMonotone(m: nat, n: nat, cap: int)
    requires m <= n
    ensures PanelWidth(m, cap) <= PanelWidth(n, cap)
    ensures cap >= 168 + 256 * n ==> PanelWidth(n, cap) - PanelWidth(m, cap) == 256 * (n - m)
  {
  }

  /** Columns of 210 plus a 16 gap that fit after sidebar 90, padding 36 and
      a 4 pixel scrollbar buffer: `max(1, floor((w - 112) / 226))`. */
  function MediaColumns(width: int): (c: int)
    ensures c >= 1
    ensures c > 1 ==> 226 * c <= width - 112 < 226 * (c + 1)
    ensures c == 1 ==> width - 112 < 452
  {
    var avail := width - 90 - 36 - 4;
    var fit := (avail + 16 + 2) / (210 + 16);
    if fit > 1 then fit else 1
  }

  /** Columns the media panel asks for, by item count. */
  function MediaColumnCount(count: nat): int
  {
    if count > 6 then 3 else if count > 2 then 2 else 1
  }

  /** The width that shows `MediaColumnCount(count)` columns, capped. */
  function MediaWidth(count: nat, cap: int): (w: int)
    ensures w <= cap && w <= 114 + 226 * MediaColumnCount(count)
    ensures w == cap || w == 114 + 226 * MediaColumnCount(count)
  {
    var cols := MediaColumnCount(count);
    var total := 90 + 36 + cols * 210 + (cols - 1) * 16 + 4;
    if total < cap then total else cap
  }

  /** Width and columns round-trip: the width chosen for a count shows
      exactly the intended columns when the cap does not cut it. */
  lemma MediaWidthColumnsRoundTrip(count: nat, cap: int)
    requires 114 + 226 * MediaColumnCount(count) <= cap
    ensures MediaWidth(count, cap) == 114 + 226 * MediaColumnCount(count)
    ensures MediaColumns(MediaWidth(count, cap)) == MediaColumnCount(count)
  {
    var c := MediaColumnCount(count);
    assert c == 1 || c == 2 || c == 3;
    assert (2 + 226 * c) / 226 == c;
  }

  /** Wider never means fewer columns. */
  lemma MediaColumnsMonotone(v: int, w: int)
    requires v <= w
    ensures MediaColumns(v) <= MediaColumns(w)
  {
    var a, b := (v - 112) / 226, (w - 112) / 226;
    assert 226 * a <= v - 112 && 226 * b <= w - 112 < 226 * (b + 1);
  }

  const DefaultWidth: int := 340

  /** The fallback width is the one-column media width, and it shows one
      column. */
  lemma DefaultWidthIsOneColumn(count: nat, cap: int)
    requires count <= 2 && cap >= DefaultWidth
    ensures MediaWidth(count, cap) == DefaultWidth
    ensures MediaColumns(DefaultWidth) == 1
  {
  }

  /** The static width memo of the spaces class. */
  class WidthMemo {
    /** `_lastWidth`, 0 while unset (falsy). */
    var lastWidth: int

    constructor ()
      ensures lastWidth == 0
    {
      lastWidth := 0;
    }

    /** `getLastWidth`. */
    function LastWidth(): int
      reads this
    {
      if lastWidth != 0 then lastWidth else DefaultWidth
    }

    /** `getData`: the panel width for the workspaces, remembered. */
    method GetData(workspaceCount: nat, cap: int) returns (width: int)
      modifies this
      ensures width == PanelWidth(workspaceCount, cap) && lastWidth == width
      ensures cap > 0 ==> LastWidth() == width
    {
      width := PanelWidth(workspaceCount, cap);
      lastWidth := width;
    }
  }

  // ---------------------------------------------------------------------
  // Tabs and tab-strip elements

  /** A tab: its label, its `zen-workspace-id` attribute, the attributes it
      carries, and whether its browser has media streams or peer
      connections. */
  datatype Tab = Tab(title: string, workspaceId: string, attrs: set<string>, hasStreams: bool)

  /** A child of a tab container: a tab, a tab group (a split view when it
      carries `split-view-group`, a folder otherwise) or anything else.
      A group's `children` are the items it lists. */
  datatype Element =
    | TabElement(tab: Tab)
    | GroupElement(attrs: set<string>, id: string, title: string, collapsedProp: bool, children: seq<Element>)
    | OtherElement(attrs: set<string>)

  function Attrs(e: Element): set<string>
  {
    match e
    case TabElement(t) => t.attrs
    case GroupElement(a, _, _, _, _) => a
    case OtherElement(a) => a
  }

  /** Neither a clone nor the empty placeholder tab. */
  predicate Visible(e: Element)
  {
    "cloned" !in Attrs(e) && "zen-empty-tab" !in Attrs(e)
  }

  predicate Listed(e: Element)
  {
    Visible(e) && !e.OtherElement?
  }

  predicate IsSplitView(e: Element)
  {
    e.GroupElement? && "split-view-group" in e.attrs
  }

  predicate IsFolder(e: Element)
  {
    e.GroupElement? && "split-view-group" !in e.attrs
  }

  /** A workspace's element: its pinned and normal containers, either of
      which may be missing. */
  datatype WorkspaceElement = WorkspaceElement(pinnedTabs: Option<seq<Element>>, tabs: Option<seq<Element>>)

  /** `collect`: the children that are visible tabs or groups, in order;
      nothing from a missing container. */
  function Collect(container: Option<seq<Element>>): (r: seq<Element>)
    ensures container.None? ==> r == []
    ensures container.Some? ==> IsSubsequence(r, container.value)
    ensures container.Some? ==> forall e :: e in r <==> e in container.value && Listed(e)
    ensures container.Some? ==> forall e :: multiset(r)[e] == if Listed(e) then multiset(container.value)[e] else 0
  {
    match container
    case None => []
    case Some(children) =>
      FilterFacts(children, Listed);
      Filter(children, Listed)
  }

  // ---------------------------------------------------------------------
  // Card list

  datatype CardRow = SeparatorRow | ItemRow(element: Element) | EmptyWorkspaceRow

  function ItemRows(items: seq<Element>): (r: seq<CardRow>)
    ensures |r| == |items|
    ensures forall i :: 0 <= i < |items| ==> r[i] == ItemRow(items[i])
  {
    seq(|items|, i requires 0 <= i < |items| => ItemRow(items[i]))
  }

  function SeparatorCount(rows: seq<CardRow>): nat
  {
    if rows == [] then 0 else SeparatorCount(rows[..|rows| - 1]) + (if rows[|rows| - 1] == SeparatorRow then 1 else 0)
  }

  lemma {:induction false} SeparatorCountAppend(a: seq<CardRow>, b: seq<CardRow>)
    ensures SeparatorCount(a + b) == SeparatorCount(a) + SeparatorCount(b)
  {
    if b != [] {
      assert (a + b)[..|a + b| - 1] == a + b[..|b| - 1];
      SeparatorCountAppend(a, b[..|b| - 1]);
    } else {
      assert a + b == a;
    }
  }

  lemma {:induction false} NoSeparatorInItems(items: seq<Element>)
    ensures SeparatorCount(ItemRows(items)) == 0
  {
    if items != [] {
      assert ItemRows(items)[..|items| - 1] == ItemRows(items[..|items| - 1]);
      NoSeparatorInItems(items[..|items| - 1]);
    }
  }

  /** The list part of `createWorkspaceCard`: listed items of the pinned
      container then of the normal one, one separator (with its clean-up
      button) right before the first unpinned item, and the empty notice
      when there is nothing. Without a workspace element the list is
      blank. The items themselves are then drawn by `RenderItem`. */
  method CardList(wsEl: Option<WorkspaceElement>) returns (rows: seq<CardRow>)
    ensures wsEl.None? ==> rows == []
    ensures wsEl.Some? ==>
      var pinned := Collect(wsEl.value.pinnedTabs);
      var normal := Collect(wsEl.value.tabs);
      && (pinned == [] && normal == [] ==> rows == [EmptyWorkspaceRow])
      && (normal != [] ==> rows == ItemRows(pinned) + [SeparatorRow] + ItemRows(normal))
      && (pinned != [] && normal == [] ==> rows == ItemRows(pinned))
  {
    rows := [];
    if wsEl.None? {
      return;
    }
    var pinned := Collect(wsEl.value.pinnedTabs);
    var normal := Collect(wsEl.value.tabs);
    var items := pinned + normal;
    assert items[..|pinned|] == pinned && items[|pinned|..] == normal;
    rows := CardRows(items, |pinned|);
    if |items| == 0 {
      rows := rows + [EmptyWorkspaceRow];
    }
  }

  /** The loop of `createWorkspaceCard` over the collected items: a
      separator goes in when the index reaches the pinned count. */
  method CardRows(items: seq<Element>, pinnedCount: nat) returns (rows: seq<CardRow>)
    requires pinnedCount <= |items|
    ensures pinnedCount < |items| ==>
      rows == ItemRows(items[..pinnedCount]) + [SeparatorRow] + ItemRows(items[pinnedCount..])
    ensures pinnedCount == |items| ==> rows == ItemRows(items)
  {
    rows := [];
    var separatorCreated := false;
    var i := 0;
    while i < |items|
      invariant 0 <= i <= |items|
      invariant separatorCreated <==> pinnedCount < i
      invariant !separatorCreated ==> rows == ItemRows(items[..i])
      invariant separatorCreated ==> rows == ItemRows(items[..pinnedCount]) + [SeparatorRow] + ItemRows(items[pinnedCount..i])
    {
      if i == pinnedCount && !separatorCreated {
        assert items[pinnedCount..i] == [];
        rows := rows + [SeparatorRow];
        separatorCreated := true;
      }
      ItemRowsSnoc(items, if separatorCreated then pinnedCount else 0, i);
      rows := rows + [ItemRow(items[i])];
      i := i + 1;
    }
    assert items[..|items|] == items;
  }

  lemma ItemRowsSnoc(items: seq<Element>, lo: nat, i: nat)
    requires lo <= i < |items|
    ensures ItemRows(items[lo..i + 1]) == ItemRows(items[lo..i]) + [ItemRow(items[i])]
    ensures lo == 0 ==> ItemRows(items[..i + 1]) == ItemRows(items[..i]) + [ItemRow(items[i])]
  {
    assert items[lo..i + 1] == items[lo..i] + [items[i]];
  }

  /** Exactly one separator when some item is unpinned, none otherwise; it
      sits right after the pinned items. */
  lemma CardSeparatorCount(pinned: seq<Element>, normal: seq<Element>)
    ensures SeparatorCount(ItemRows(pinned) + [SeparatorRow] + ItemRows(normal)) == 1
    ensures SeparatorCount(ItemRows(pinned)) == 0
    ensures (ItemRows(pinned) + [SeparatorRow] + ItemRows(normal))[|pinned|] == SeparatorRow
  {
    NoSeparatorInItems(pinned);
    NoSeparatorInItems(normal);
    SeparatorCountAppend(ItemRows(pinned), [SeparatorRow]);
    assert SeparatorCount([SeparatorRow]) == 1 by {
      assert [SeparatorRow][..0] == [];
    }
    SeparatorCountAppend(ItemRows(pinned) + [SeparatorRow], ItemRows(normal));
  }

  // ---------------------------------------------------------------------
  // Clean-up and unload

  /** A non-essential tab of the normal container. */
  predicate CloseCandidate(e: Element)
  {
    e.TabElement? && "zen-essential" !in e.tab.attrs
  }

  const ProtectingAttrs: set<string> := {"selected", "multiselected", "pictureinpicture", "soundplaying"}

  predicate Protected(t: Tab)
  {
    (exists a :: a in ProtectingAttrs && a in t.attrs) || t.hasStreams
  }

  function TabsOf(es: seq<Element>): (r: seq<Tab>)
    requires forall e :: e in es ==> e.TabElement?
    ensures |r| == |es| && forall i :: 0 <= i < |es| ==> r[i] == es[i].tab
  {
    seq(|es|, i requires 0 <= i < |es| => es[i].tab)
  }

  /** The tabs as tab-strip elements. */
  function AsElements(ts: seq<Tab>): (r: seq<Element>)
    ensures |r| == |ts| && forall i :: 0 <= i < |ts| ==> r[i] == TabElement(ts[i])
  {
    if ts == [] then [] else [TabElement(ts[0])] + AsElements(ts[1..])
  }

  lemma {:induction false} AsElementsCount(ts: seq<Tab>, t: Tab)
    ensures multiset(AsElements(ts))[TabElement(t)] == multiset(ts)[t]
  {
    if ts != [] {
      AsElementsCount(ts[1..], t);
      assert ts == [ts[0]] + ts[1..];
    }
  }

  /** Taking the tabs of tab elements and wrapping them again gives back
      the elements. */
  lemma TabsOfRoundTrip(es: seq<Element>)
    requires forall e :: e in es ==> e.TabElement?
    ensures AsElements(TabsOf(es)) == es
  {
    assert forall i :: 0 <= i < |es| ==> AsElements(TabsOf(es))[i] == es[i];
  }

  /** A tab is listed exactly when its element is. */
  lemma AsElementsHas(ts: seq<Tab>, t: Tab)
    ensures t in ts <==> TabElement(t) in AsElements(ts)
  {
    if TabElement(t) in AsElements(ts) {
      var i :| 0 <= i < |ts| && AsElements(ts)[i] == TabElement(t);
      assert ts[i] == t;
    }
  }

  /** Filtering children by a test only tabs pass, then taking their tabs:
      the passing tabs in child order, each as often as it is a child. */
  lemma TabsOfFilter(children: seq<Element>, p: Element -> bool)
    requires forall e :: p(e) ==> e.TabElement?
    ensures forall e :: e in Filter(children, p) ==> e.TabElement?
    ensures var r := TabsOf(Filter(children, p));
      && AsElements(r) == Filter(children, p)
      && IsSubsequence(AsElements(r), children)
      && (forall t :: multiset(r)[t] == if p(TabElement(t)) then multiset(children)[TabElement(t)] else 0)
      && (forall t :: t in r <==> TabElement(t) in children && p(TabElement(t)))
  {
    FilterFacts(children, p);
    var f := Filter(children, p);
    var r := TabsOf(f);
    TabsOfRoundTrip(f);
    forall t ensures multiset(r)[t] == if p(TabElement(t)) then multiset(children)[TabElement(t)] else 0 {
      AsElementsCount(r, t);
    }
    forall t ensures t in r <==> TabElement(t) in f {
      AsElementsHas(r, t);
    }
  }

  /** The children of a workspace's normal container, none when it or the
      workspace element is missing. */
  function NormalChildren(wsEl: Option<WorkspaceElement>): seq<Element>
  {
    if wsEl.Some? && wsEl.value.tabs.Some? then wsEl.value.tabs.value else []
  }

  /** The candidates are exactly the non-essential tabs among the normal
      container's children, in child order, each as often as it is a
      child. */
  function CloseCandidates(wsEl: Option<WorkspaceElement>): (r: seq<Tab>)
    ensures IsSubsequence(AsElements(r), NormalChildren(wsEl))
    ensures forall t :: t in r <==> TabElement(t) in NormalChildren(wsEl) && "zen-essential" !in t.attrs
    ensures forall t :: multiset(r)[t]
                        == if "zen-essential" !in t.attrs then multiset(NormalChildren(wsEl))[TabElement(t)] else 0
  {
    TabsOfFilter(NormalChildren(wsEl), CloseCandidate);
    TabsOf(Filter(NormalChildren(wsEl), CloseCandidate))
  }

  /** `closeWorkspaceUnpinnedTabs`: the tabs it removes ([]: it returns
      early). Unprotected candidates are closed; when every candidate is
      protected, all of them are. */
  function TabsToClose(wsEl: Option<WorkspaceElement>): seq<Tab>
  {
    var tabs := CloseCandidates(wsEl);
    if tabs == [] then []
    else
      var closable := Filter(tabs, (t: Tab) => !Protected(t));
      if closable == [] then tabs else closable
  }

  /** The removed set is a non-empty part of the candidates whenever there
      are candidates; it spares every protected tab unless none is
      unprotected, in which case it is all of them. */
  lemma TabsToCloseFacts(wsEl: Option<WorkspaceElement>)
    ensures var c := CloseCandidates(wsEl); var r := TabsToClose(wsEl);
      && (r == [] <==> c == [])
      && IsSubsequence(r, c)
      && ((exists t :: t in c && !Protected(t)) ==> forall t :: t in r <==> t in c && !Protected(t))
      && ((exists t :: t in c && !Protected(t)) ==>
            forall t :: multiset(r)[t] == if Protected(t) then 0 else multiset(c)[t])
      && ((forall t :: t in c ==> Protected(t)) ==> r == c)
  {
    var c := CloseCandidates(wsEl);
    var unprotected := (t: Tab) => !Protected(t);
    FilterFacts(c, unprotected);
    if forall t :: t in c ==> Protected(t) {
      FilterNone(c, unprotected);
    }
    assert IsSubsequence(c, c) by {
      assert c == Filter(c, (t: Tab) => true) by { FilterAll(c, (t: Tab) => true); }
      FilterFacts(c, (t: Tab) => true);
    }
  }

  predicate Unloadable(t: Tab, wsId: string)
  {
    t.workspaceId == wsId && "zen-empty-tab" !in t.attrs && "zen-essential" !in t.attrs && "pending" !in t.attrs
  }

  /** `unloadWorkspace`: the stored tabs it unloads ([] also when the host
      cannot unload). */
  function TabsToUnload(canUnload: bool, stored: seq<Tab>, wsId: string): (r: seq<Tab>)
    ensures !canUnload ==> r == []
  {
    if !canUnload then [] else Filter(stored, (t: Tab) => Unloadable(t, wsId))
  }

  /** The unload set is exactly the workspace's loaded, ordinary tabs, in
      stored order. */
  lemma TabsToUnloadFacts(stored: seq<Tab>, wsId: string)
    ensures var r := TabsToUnload(true, stored, wsId);
      && IsSubsequence(r, stored)
      && (forall t :: t in r <==> t in stored && Unloadable(t, wsId))
      && (forall t :: multiset(r)[t] == if Unloadable(t, wsId) then multiset(stored)[t] else 0)
  {
    FilterFacts(stored, (t: Tab) => Unloadable(t, wsId));
  }

  // ---------------------------------------------------------------------
  // Workspace icon

  datatype IconView = MaskImage(url: string) | TextIcon(text: string) | EmptyIcon

  const DataScheme: string := "data:"

  function IconKind(icon: string): (v: IconView)
    ensures v.MaskImage? ==> v.url == icon
    ensures v.TextIcon? ==> v.text == icon
  {
    if icon != "" && (Contains(icon, "/") || DataScheme <= icon) then MaskImage(icon)
    else if icon != "" && |Trim(icon)| > 0 then TextIcon(icon)
    else EmptyIcon
  }

  /** The icon names a picture: a `/` somewhere, or the data scheme. */
  predicate UrlLike(icon: string)
  {
    (exists i :: 0 <= i < |icon| && icon[i] == '/') || DataScheme <= icon
  }

  /** A URL-like icon is a mask image, any other icon with a non-space
      character is text, and the rest (the empty and the blank icons) show
      the empty icon. */
  lemma IconKindClasses(icon: string)
    ensures IconKind(icon).MaskImage? <==> UrlLike(icon)
    ensures IconKind(icon).TextIcon? <==> !UrlLike(icon) && !AllSpace(icon)
    ensures IconKind(icon) == EmptyIcon <==> !UrlLike(icon) && AllSpace(icon)
  {
    TrimEmptyIffAllSpace(icon);
    ContainsChar(icon, '/');
    assert "/" == ['/'];
  }

  // ---------------------------------------------------------------------
  // Folder expansion and item rendering

  /** `folder.id`, or `wsId:label` when the folder has none. */
  function FolderId(e: Element, wsId: string): string
    requires e.GroupElement?
  {
    if e.id != "" then e.id else wsId + ":" + e.title
  }

  predicate NativeCollapsed(e: Element)
    requires e.GroupElement?
  {
    "zen-folder-collapsed" in e.attrs || e.collapsedProp
  }

  /** The map after a header click: `!get(id)`, where a missing id reads as
      undefined and so turns into true. */
  function Toggled(m: map<string, bool>, id: string): (r: map<string, bool>)
    ensures id in r && r[id] == (id in m ==> !m[id])
    ensures forall k :: k != id ==> (k in r <==> k in m) && (k in m ==> r[k] == m[k])
  {
    m[id := if id in m then !m[id] else true]
  }

  /** Two clicks on a rendered folder restore its state. */
  lemma ToggleTwice(m: map<string, bool>, id: string)
    requires id in m
    ensures Toggled(Toggled(m, id), id) == m
  {
  }

  /** Folder ids a render can add, folders inside folders included. */
  function FolderIds(e: Element, wsId: string): set<string>
    decreases e, 1
  {
    if IsFolder(e) then {FolderId(e, wsId)} + FolderIdsList(e.children, wsId) else {}
  }

  function FolderIdsList(es: seq<Element>, wsId: string): set<string>
    decreases es, 0
  {
    if es == [] then {}
    else FolderIdsList(es[..|es| - 1], wsId) + (if Visible(es[|es| - 1]) then FolderIds(es[|es| - 1], wsId) else {})
  }

  /** What an item draws. */
  datatype Rendered =
    | TabView(tab: Tab)
    | SplitView(tabs: seq<Tab>)
    | FolderView(folderId: string, caption: string, expanded: bool, children: seq<Rendered>)

  /** A visible tab: what a split view lists. */
  predicate VisibleTab(e: Element)
  {
    Visible(e) && e.TabElement?
  }

  /** A split view's tabs: every visible tab child, in child order, each as
      often as it is a child. */
  function SplitTabs(children: seq<Element>): (r: seq<Tab>)
    ensures IsSubsequence(AsElements(r), children)
    ensures forall t :: t in r <==> TabElement(t) in children && Visible(TabElement(t))
    ensures forall t :: multiset(r)[t] == if Visible(TabElement(t)) then multiset(children)[TabElement(t)] else 0
  {
    TabsOfFilter(children, VisibleTab);
    TabsOf(Filter(children, VisibleTab))
  }

  /** Old entries are kept with their values. */
  predicate Keeps(before: map<string, bool>, after: map<string, bool>)
  {
    forall k :: k in before ==> k in after && after[k] == before[k]
  }

  /** New entries are ids from the given set. */
  predicate AddsOnly(before: map<string, bool>, after: map<string, bool>, ids: set<string>)
  {
    forall k :: k in after ==> k in before || k in ids
  }

  /** What drawing leaves behind: the drawn items and the expansion map. */
  datatype Drawing = Drawing(out: seq<Rendered>, expansion: map<string, bool>)

  /** The reference for `renderItemRecursive` from expansion map m: a
      folder takes its stored state, or on first sight the reverse of its
      native collapse (stored from then on), and draws its visible children
      in order below its header whether or not it is expanded. */
  function Draw(e: Element, wsId: string, m: map<string, bool>): Drawing
    decreases e, 1
  {
    match e
    case TabElement(t) => Drawing([TabView(t)], m)
    case OtherElement(_) => Drawing([], m)
    case GroupElement(attrs, _, title, _, children) =>
      if "split-view-group" in attrs then Drawing([SplitView(SplitTabs(children))], m)
      else
        var id := FolderId(e, wsId);
        var expanded := if id in m then m[id] else !NativeCollapsed(e);
        var inner := DrawList(children, wsId, if id in m then m else m[id := expanded]);
        Drawing([FolderView(id, if title != "" then title else "Folder", expanded, inner.out)], inner.expansion)
  }

  /** The visible items of es drawn one after another, the map threaded
      through. */
  function DrawList(es: seq<Element>, wsId: string, m: map<string, bool>): Drawing
    decreases es, 0
  {
    if es == [] then Drawing([], m)
    else
      var before := DrawList(es[..|es| - 1], wsId, m);
      if Visible(es[|es| - 1]) then
        var last := Draw(es[|es| - 1], wsId, before.expansion);
        Drawing(before.out + last.out, last.expansion)
      else before
  }

  /** Drawing never changes a stored state and only stores states of the
      folders it draws. */
  lemma {:induction false} DrawFrame(e: Element, wsId: string, m: map<string, bool>)
    ensures Keeps(m, Draw(e, wsId, m).expansion)
    ensures AddsOnly(m, Draw(e, wsId, m).expansion, FolderIds(e, wsId))
    decreases e, 1
  {
    if IsFolder(e) {
      var id := FolderId(e, wsId);
      var m1 := if id in m then m else m[id := !NativeCollapsed(e)];
      DrawListFrame(e.children, wsId, m1);
    }
  }

  lemma {:induction false} DrawListFrame(es: seq<Element>, wsId: string, m: map<string, bool>)
    ensures Keeps(m, DrawList(es, wsId, m).expansion)
    ensures AddsOnly(m, DrawList(es, wsId, m).expansion, FolderIdsList(es, wsId))
    decreases es, 0
  {
    if es != [] {
      var init := es[..|es| - 1];
      DrawListFrame(init, wsId, m);
      if Visible(es[|es| - 1]) {
        DrawFrame(es[|es| - 1], wsId, DrawList(init, wsId, m).expansion);
      }
    }
  }

  class SpacesPanel {
    /** `_folderExpansion`. */
    var folderExpansion: map<string, bool>

    constructor ()
      ensures folderExpansion == map[]
    {
      folderExpansion := map[];
    }

    /** A folder's state at render: the stored one, or on first sight the
        reverse of its native collapsed state, which is then stored. */
    method FolderState(folder: Element, wsId: string) returns (expanded: bool)
      requires folder.GroupElement?
      modifies this
      ensures var id := FolderId(folder, wsId);
        && (id in old(folderExpansion) ==> expanded == old(folderExpansion)[id] && folderExpansion == old(folderExpansion))
        && (id !in old(folderExpansion) ==> expanded == !NativeCollapsed(folder)
                                             && folderExpansion == old(folderExpansion)[id := expanded])
    {
      var id := FolderId(folder, wsId);
      if id in folderExpansion {
        expanded := folderExpansion[id];
      } else {
        expanded := !NativeCollapsed(folder);
        folderExpansion := folderExpansion[id := expanded];
      }
    }

    /** A click on a folder's header. */
    method ToggleFolder(id: string) returns (newlyExpanded: bool)
      modifies this
      ensures folderExpansion == Toggled(old(folderExpansion), id)
      ensures newlyExpanded == folderExpansion[id]
    {
      var current := if id in folderExpansion then folderExpansion[id] else false;
      newlyExpanded := !current;
      folderExpansion := folderExpansion[id := newlyExpanded];
    }

    /** `renderItemRecursive`: tabs draw themselves, split views their
        visible tabs, folders their header and visible children; anything
        else draws nothing. The drawing and the new map are Draw's. The
        expansion map only gains entries for folders in the item, and never
        changes a stored one. */
    method RenderItem(e: Element, wsId: string) returns (out: seq<Rendered>)
      modifies this
      decreases e
      ensures out == Draw(e, wsId, old(folderExpansion)).out
      ensures folderExpansion == Draw(e, wsId, old(folderExpansion)).expansion
      ensures Keeps(old(folderExpansion), folderExpansion)
      ensures AddsOnly(old(folderExpansion), folderExpansion, FolderIds(e, wsId))
      ensures e.TabElement? ==> out == [TabView(e.tab)]
      ensures e.OtherElement? ==> out == []
      ensures IsSplitView(e) ==> out == [SplitView(SplitTabs(e.children))]
      ensures IsFolder(e) ==>
        var id := FolderId(e, wsId);
        && |out| == 1 && out[0].FolderView? && out[0].folderId == id
        && out[0].caption == (if e.title != "" then e.title else "Folder")
        && out[0].expanded == (if id in old(folderExpansion) then old(folderExpansion)[id] else !NativeCollapsed(e))
        && id in folderExpansion && folderExpansion[id] == out[0].expanded
    {
      match e
      case TabElement(t) =>
        out := [TabView(t)];
      case OtherElement(_) =>
        out := [];
      case GroupElement(attrs, _, title, _, children) =>
        if "split-view-group" in attrs {
          out := [SplitView(SplitTabs(children))];
        } else {
          ghost var m := folderExpansion;
          var id := FolderId(e, wsId);
          var expanded := FolderState(e, wsId);
          ghost var start := folderExpansion;
          var kids: seq<Rendered> := [];
          var i := 0;
          while i < |children|
            invariant 0 <= i <= |children|
            invariant kids == DrawList(children[..i], wsId, start).out
            invariant folderExpansion == DrawList(children[..i], wsId, start).expansion
          {
            var child := children[i];
            assert children[..i + 1][..i] == children[..i];
            if Visible(child) {
              var drawn := RenderItem(child, wsId);
              kids := kids + drawn;
            }
            i := i + 1;
          }
          assert children[..i] == children;
          out := [FolderView(id, if title != "" then title else "Folder", expanded, kids)];
          DrawFrame(e, wsId, m);
          DrawListFrame(children, wsId, start);
        }
    }
  }

  // ---------------------------------------------------------------------
  // Inline rename

  class Workspace {
    var name: string
    /** How many times the host was asked to save it. */
    var saves: nat

    constructor (name: string)
      ensures this.name == name && saves == 0
    {
      this.name := name;
      saves := 0;
    }
  }

  /** The commit rule: a non-blank input that differs from the original. */
  predicate Commits(newName: string, originalName: string)
  {
    newName != "" && Trim(newName) != "" && newName != originalName
  }

  /** Restoring the original never commits; a commit stores a name with
      some non-space character. */
  lemma CommitRule(newName: string, originalName: string)
    ensures !Commits(originalName, originalName)
    ensures Commits(newName, originalName) ==> !AllSpace(newName) && !AllSpace(Trim(newName))
    ensures AllSpace(newName) ==> !Commits(newName, originalName)
  {
    TrimEmptyIffAllSpace(newName);
    if !AllSpace(newName) {
      TrimStartSpec(newName);
      if Trim(newName) != "" {
        var s := TrimStart(newName);
        TrimEndKeepsNonSpace(s);
        assert !IsSpace(Trim(newName)[0]);
      }
    }
  }

  /** One `startInlineRename` session on a workspace's name. */
  class InlineRename {
    const ws: Workspace
    const originalName: string
    var finished: bool
    /** The name span's text once the session ends. */
    var shownName: string
    /** The outside-click listener is registered. */
    var listening: bool

    constructor (ws: Workspace)
      ensures this.ws == ws && originalName == ws.name
      ensures !finished && listening && shownName == ws.name
    {
      this.ws := ws;
      originalName := ws.name;
      finished := false;
      shownName := ws.name;
      listening := true;
    }

    /** `finish`: the first call commits or restores, later calls do
        nothing. */
    method Finish(newName: string, canSave: bool)
      modifies this, ws
      ensures old(finished) ==> finished == old(finished) && shownName == old(shownName)
                                && listening == old(listening) && ws.name == old(ws.name) && ws.saves == old(ws.saves)
      ensures !old(finished) ==> finished && !listening
      ensures !old(finished) && Commits(newName, originalName) ==>
        ws.name == Trim(newName) && shownName == ws.name
        && ws.saves == old(ws.saves) + (if canSave then 1 else 0)
      ensures !old(finished) && !Commits(newName, originalName) ==>
        ws.name == old(ws.name) && ws.saves == old(ws.saves) && shownName == originalName
    {
      if finished {
        return;
      }
      finished := true;
      listening := false;
      if Commits(newName, originalName) {
        ws.name := Trim(newName);
        if canSave {
          ws.saves := ws.saves + 1;
        }
        shownName := ws.name;
      } else {
        shownName := originalName;
      }
    }

    /** Enter finishes with the input's value: a committing value is
        stored trimmed, saved and shown; any other restores the original. */
    method Enter(inputValue: string, canSave: bool)
      modifies this, ws
      ensures old(finished) ==> finished == old(finished) && shownName == old(shownName)
                                && listening == old(listening) && ws.name == old(ws.name) && ws.saves == old(ws.saves)
      ensures !old(finished) ==> finished && !listening
      ensures !old(finished) && Commits(inputValue, originalName) ==>
        ws.name == Trim(inputValue) && shownName == ws.name
        && ws.saves == old(ws.saves) + (if canSave then 1 else 0)
      ensures !old(finished) && !Commits(inputValue, originalName) ==>
        ws.name == old(ws.name) && ws.saves == old(ws.saves) && shownName == originalName
    {
      Finish(inputValue, canSave);
    }

    /** Escape restores the original name. */
    method Escape(canSave: bool)
      modifies this, ws
      ensures ws.name == old(ws.name) && ws.saves == old(ws.saves)
      ensures !old(finished) ==> finished && shownName == originalName
    {
      CommitRule(originalName, originalName);
      Finish(originalName, canSave);
    }

    /** A mouse-down: outside the name span it restores the original;
        inside it changes nothing. */
    method MouseDown(insideName: bool, canSave: bool)
      modifies this, ws
      ensures ws.name == old(ws.name) && ws.saves == old(ws.saves)
      ensures insideName ==> finished == old(finished) && shownName == old(shownName)
      ensures !insideName && !old(finished) ==> finished && shownName == originalName
    {
      if !insideName {
        CommitRule(originalName, originalName);
        Finish(originalName, canSave);
      }
    }
  }
}
