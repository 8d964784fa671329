/** The History panel: shaping the host's newest-first visit list, the
    search filter, batch rendering with day headers carried across batches,
    the one-record probe that decides whether a sync refetches, and the
    closed tab and window lists. Visit times are microseconds. */
module History {
  import opened Common

  // ---------------------------------------------------------------------
  // Records

  /** A visit node of the host's history query (an empty title is a
      missing one). */
  datatype RawNode = RawNode(uri: string, title: string, time: int)

  /** The panel's item: title falls back to the URI, and the two display
      strings are formatted from the visit's instant. */
  datatype HistoryItem = HistoryItem(uri: string, title: string, time: int, timeStr: string, dateStr: string)

  const MaxResults: nat := 500
  const BatchSize: nat := 30

  /** `new Date(time / 1000)`: microseconds to whole milliseconds, the
      fraction dropped toward zero. */
  function MsOf(time: int): (ms: int)
    ensures time >= 0 ==> 0 <= 1000 * ms <= time < 1000 * (ms + 1)
    ensures time < 0 ==> 1000 * (ms - 1) < time <= 1000 * ms <= 0
  {
    if time >= 0 then time / 1000 else -((-time) / 1000)
  }

  function ShapeNode(n: RawNode, loc: Locale): HistoryItem
  {
    HistoryItem(n.uri, if n.title != "" then n.title else n.uri, n.time,
                loc.timeLabel(MsOf(n.time)), loc.dateLabel(MsOf(n.time)))
  }

  function ShapeAll(nodes: seq<RawNode>, loc: Locale): (r: seq<HistoryItem>)
    ensures |r| == |nodes| && forall i :: 0 <= i < |nodes| ==> r[i] == ShapeNode(nodes[i], loc)
  {
    seq(|nodes|, i requires 0 <= i < |nodes| => ShapeNode(nodes[i], loc))
  }

  /** The first n records of a query capped at n results. */
  function Take<T>(s: seq<T>, n: nat): (r: seq<T>)
    ensures |r| == if |s| <= n then |s| else n
    ensures r <= s
  {
    if |s| <= n then s else s[..n]
  }

  /** A fetch keeps the newest 500 visits in order, each with its URI and
      time, and a title that is never empty unless the URI is. */
  lemma FetchShape(history: seq<RawNode>, loc: Locale)
    ensures var items := ShapeAll(Take(history, MaxResults), loc);
      && |items| <= MaxResults
      && |items| == (if |history| < MaxResults then |history| else MaxResults)
      && (forall i :: 0 <= i < |items| ==>
            && items[i].uri == history[i].uri && items[i].time == history[i].time
            && items[i].title == (if history[i].title != "" then history[i].title else history[i].uri)
            && (items[i].title == "" ==> items[i].uri == ""))
  {
    var t := Take(history, MaxResults);
    forall i | 0 <= i < |t| ensures t[i] == history[i] {
    }
  }

  // ---------------------------------------------------------------------
  // Search filter

  predicate MatchesItem(x: HistoryItem, term: string)
  {
    MatchesTerm(x.title, term) || MatchesTerm(x.uri, term)
  }

  function Filtered(items: seq<HistoryItem>, term: string): seq<HistoryItem>
  {
    if term != "" then Filter(items, (x: HistoryItem) => MatchesItem(x, term)) else items
  }

  /** The filter keeps, in order, exactly the items whose title or URI
      contains the term case-insensitively; no term keeps all. */
  lemma FilteredFacts(items: seq<HistoryItem>, term: string)
    ensures IsSubsequence(Filtered(items, term), items)
    ensures forall x :: x in Filtered(items, term) <==> x in items && (term == "" || MatchesItem(x, term))
    ensures forall x :: multiset(Filtered(items, term))[x]
                        == if term == "" || MatchesItem(x, term) then multiset(items)[x] else 0
    ensures term == "" ==> Filtered(items, term) == items
  {
    if term != "" {
      FilterFacts(items, (x: HistoryItem) => MatchesItem(x, term));
    } else {
      FilterAll(items, (x: HistoryItem) => true);
      FilterFacts(items, (x: HistoryItem) => true);
    }
  }

  // ---------------------------------------------------------------------
  // Labels and lines of one batch

  /** What a render sees: the search term, the current instant (ms) and
      the locale. */
  datatype Context = Context(term: string, now: int, loc: Locale)

  function Today(ctx: Context): int
  {
    ctx.loc.dayNumber(ctx.now)
  }

  function GroupLabel(x: HistoryItem, ctx: Context): string
  {
    if ctx.term != "" then "Search Results"
    else
      var day := ctx.loc.dayNumber(MsOf(x.time));
      if day == Today(ctx) then "Today"
      else if day == Today(ctx) - 1 then "Yesterday"
      else ctx.loc.fullDateLabel(MsOf(x.time))
  }

  function DisplayTime(x: HistoryItem, groupLabel: string, term: string): string
  {
    if term != "" || (groupLabel != "Today" && groupLabel != "Yesterday") then x.dateStr else x.timeStr
  }

  /** One item row: the item, the time text it shows, and the pop-in mark. */
  datatype Line = Line(item: HistoryItem, displayTime: string, popIn: bool)

  function LineFor(x: HistoryItem, ctx: Context, highlight: int): Line
  {
    Line(x, DisplayTime(x, GroupLabel(x, ctx), ctx.term), highlight != 0 && x.time > highlight)
  }

  /** Search shows one "Search Results" group with dates; otherwise today's
      and yesterday's visits show their time and older ones their date
      (the time rule tests the label text, so an older day whose locale
      label reads "Today" or "Yesterday" shows its time). */
  lemma LabelAndTimeRule(x: HistoryItem, ctx: Context, highlight: int)
    ensures ctx.term != "" ==> GroupLabel(x, ctx) == "Search Results" && LineFor(x, ctx, highlight).displayTime == x.dateStr
    ensures ctx.term == "" && ctx.loc.dayNumber(MsOf(x.time)) == Today(ctx) ==>
      GroupLabel(x, ctx) == "Today" && LineFor(x, ctx, highlight).displayTime == x.timeStr
    ensures ctx.term == "" && ctx.loc.dayNumber(MsOf(x.time)) == Today(ctx) - 1 ==>
      GroupLabel(x, ctx) == "Yesterday" && LineFor(x, ctx, highlight).displayTime == x.timeStr
    ensures ctx.term == "" && ctx.loc.dayNumber(MsOf(x.time)) !in {Today(ctx), Today(ctx) - 1} ==>
      GroupLabel(x, ctx) == ctx.loc.fullDateLabel(MsOf(x.time))
    ensures ctx.term == "" && ctx.loc.dayNumber(MsOf(x.time)) !in {Today(ctx), Today(ctx) - 1}
            && ctx.loc.fullDateLabel(MsOf(x.time)) !in {"Today", "Yesterday"} ==>
      LineFor(x, ctx, highlight).displayTime == x.dateStr
    ensures LineFor(x, ctx, highlight).popIn <==> highlight != 0 && x.time > highlight
  {
  }

  /** The rows for one item after the label `prev`: a header when the
      label changes, then the item. */
  function RowsFor(x: HistoryItem, prev: Option<string>, ctx: Context, highlight: int): seq<Row<Line>>
  {
    var groupLabel := GroupLabel(x, ctx);
    (if Some(groupLabel) != prev then [Header(groupLabel)] else []) + [Entry(LineFor(x, ctx, highlight))]
  }

  /** `_lastGroupLabel` after drawing `s` from `prev`. */
  function LastLabel(s: seq<HistoryItem>, prev: Option<string>, ctx: Context): Option<string>
  {
    if s == [] then prev else Some(GroupLabel(s[|s| - 1], ctx))
  }

  /** The rows one batch appends. */
  function EmitRows(s: seq<HistoryItem>, prev: Option<string>, ctx: Context, highlight: int): seq<Row<Line>>
  {
    if s == [] then []
    else
      var init := s[..|s| - 1];
      EmitRows(init, prev, ctx, highlight) + RowsFor(s[|s| - 1], LastLabel(init, prev, ctx), ctx, highlight)
  }

  function Lines(s: seq<HistoryItem>, ctx: Context, highlight: int): (r: seq<Line>)
    ensures |r| == |s| && forall i :: 0 <= i < |s| ==> r[i] == LineFor(s[i], ctx, highlight)
  {
    seq(|s|, i requires 0 <= i < |s| => LineFor(s[i], ctx, highlight))
  }

  function LineItems(ls: seq<Line>): (r: seq<HistoryItem>)
    ensures |r| == |ls| && forall i :: 0 <= i < |ls| ==> r[i] == ls[i].item
  {
    seq(|ls|, i requires 0 <= i < |ls| => ls[i].item)
  }

  lemma LineItemsAppend(a: seq<Line>, b: seq<Line>)
    ensures LineItems(a + b) == LineItems(a) + LineItems(b)
  {
  }

  lemma LinesItems(s: seq<HistoryItem>, ctx: Context, highlight: int)
    ensures LineItems(Lines(s, ctx, highlight)) == s
  {
  }

  /** One item's rows hold its line and, on a label change, its header. */
  lemma RowsForParts(x: HistoryItem, prev: Option<string>, ctx: Context, highlight: int)
    ensures Entries(RowsFor(x, prev, ctx, highlight)) == [LineFor(x, ctx, highlight)]
    ensures Headers(RowsFor(x, prev, ctx, highlight))
            == if Some(GroupLabel(x, ctx)) != prev then [GroupLabel(x, ctx)] else []
  {
    var line: Row<Line> := Entry(LineFor(x, ctx, highlight));
    assert Entries([line]) == [LineFor(x, ctx, highlight)] && Headers([line]) == [] by {
      assert [line][1..] == [];
    }
    if Some(GroupLabel(x, ctx)) != prev {
      var h: Row<Line> := Header(GroupLabel(x, ctx));
      assert RowsFor(x, prev, ctx, highlight) == [h, line];
      assert [h, line][1..] == [line];
    } else {
      assert RowsFor(x, prev, ctx, highlight) == [line];
    }
  }

  lemma LinesSnoc(s: seq<HistoryItem>, ctx: Context, highlight: int)
    requires s != []
    ensures Lines(s, ctx, highlight) == Lines(s[..|s| - 1], ctx, highlight) + [LineFor(s[|s| - 1], ctx, highlight)]
  {
  }

  /** A batch draws one line per item, in order. */
  lemma {:induction false} EmitEntries(s: seq<HistoryItem>, prev: Option<string>, ctx: Context, highlight: int)
    ensures Entries(EmitRows(s, prev, ctx, highlight)) == Lines(s, ctx, highlight)
  {
    if s != [] {
      var init, x := s[..|s| - 1], s[|s| - 1];
      EmitEntries(init, prev, ctx, highlight);
      EntriesAppend(EmitRows(init, prev, ctx, highlight), RowsFor(x, LastLabel(init, prev, ctx), ctx, highlight));
      RowsForParts(x, LastLabel(init, prev, ctx), ctx, highlight);
      LinesSnoc(s, ctx, highlight);
    }
  }

  /** Drawing in two batches gives the same rows as drawing at once: the
      header decision carries over the batch boundary. */
  lemma {:induction false} EmitConcat(a: seq<HistoryItem>, b: seq<HistoryItem>, prev: Option<string>, ctx: Context, highlight: int)
    ensures EmitRows(a + b, prev, ctx, highlight)
            == EmitRows(a, prev, ctx, highlight) + EmitRows(b, LastLabel(a, prev, ctx), ctx, highlight)
    ensures LastLabel(a + b, prev, ctx) == LastLabel(b, LastLabel(a, prev, ctx), ctx)
  {
    if b == [] {
      assert a + b == a;
    } else {
      var init, x := b[..|b| - 1], b[|b| - 1];
      assert (a + b)[..|a + b| - 1] == a + init;
      assert (a + b)[|a + b| - 1] == x;
      EmitConcat(a, init, prev, ctx, highlight);
    }
  }

  /** Headers name label changes only: no two adjacent headers are equal,
      the first differs from the label before the batch, and the last is
      the label the batch ends in. */
  lemma {:induction false} EmitHeaders(s: seq<HistoryItem>, prev: Option<string>, ctx: Context, highlight: int)
    ensures var hs := Headers(EmitRows(s, prev, ctx, highlight));
      && |hs| <= |s|
      && (forall i :: 0 < i < |hs| ==> hs[i - 1] != hs[i])
      && (hs != [] && prev.Some? ==> hs[0] != prev.value)
      && (hs == [] ==> LastLabel(s, prev, ctx) == prev)
      && (hs != [] ==> LastLabel(s, prev, ctx) == Some(hs[|hs| - 1]))
  {
    if s != [] {
      var init, x := s[..|s| - 1], s[|s| - 1];
      EmitHeaders(init, prev, ctx, highlight);
      var before := EmitRows(init, prev, ctx, highlight);
      var here := RowsFor(x, LastLabel(init, prev, ctx), ctx, highlight);
      assert EmitRows(s, prev, ctx, highlight) == before + here;
      HeadersAppend(before, here);
      RowsForParts(x, LastLabel(init, prev, ctx), ctx, highlight);
      var hi, g := Headers(before), GroupLabel(x, ctx);
      if Some(g) != LastLabel(init, prev, ctx) {
        var hs := hi + [g];
        assert Headers(EmitRows(s, prev, ctx, highlight)) == hs;
        forall i | 0 < i < |hs| ensures hs[i - 1] != hs[i] {
          if i < |hi| {
            assert hs[i - 1] == hi[i - 1] && hs[i] == hi[i];
          } else {
            assert hs[i - 1] == hi[|hi| - 1] && hs[i] == g;
          }
        }
      } else {
        assert Headers(EmitRows(s, prev, ctx, highlight)) == hi;
      }
    }
  }

  /** Under a search every item is in one group: a batch adds the single
      "Search Results" header exactly when it is non-empty and the group
      is not already open. */
  lemma {:induction false} SearchSingleHeader(s: seq<HistoryItem>, prev: Option<string>, ctx: Context, highlight: int)
    requires ctx.term != ""
    ensures Headers(EmitRows(s, prev, ctx, highlight))
            == if s == [] || prev == Some("Search Results") then [] else ["Search Results"]
  {
    if s != [] {
      var init, x := s[..|s| - 1], s[|s| - 1];
      SearchSingleHeader(init, prev, ctx, highlight);
      var here := RowsFor(x, LastLabel(init, prev, ctx), ctx, highlight);
      HeadersAppend(EmitRows(init, prev, ctx, highlight), here);
      RowsForParts(x, LastLabel(init, prev, ctx), ctx, highlight);
    }
  }

  // ---------------------------------------------------------------------
  // The batch cursor

  /** `filtered.slice(c, c + 30)`. */
  function Batch(f: seq<HistoryItem>, c: nat): (b: seq<HistoryItem>)
    ensures c >= |f| ==> b == []
    ensures c < |f| ==> |b| == (if c + BatchSize <= |f| then BatchSize else |f| - c)
  {
    if c >= |f| then [] else if c + BatchSize <= |f| then f[c..c + BatchSize] else f[c..]
  }

  /** Successive batches read the filtered list in order, never run past
      its end, and a batch at the end is empty. */
  lemma BatchPartition(f: seq<HistoryItem>, c: nat)
    requires c <= |f|
    ensures c + |Batch(f, c)| <= |f|
    ensures f[..c] + Batch(f, c) == f[..c + |Batch(f, c)|]
    ensures Batch(f, c) == [] <==> c == |f|
  {
  }

  /** The rows, the rendered count and the last group label of the list. */
  datatype ListState = ListState(rows: seq<Row<Line>>, renderedCount: nat, lastLabel: Option<string>)

  function NavRows(rows: seq<Row<Line>>): seq<Row<Line>>
  {
    Filter(rows, (r: Row<Line>) => r.Nav?)
  }

  /** The list without its first bottom spacer. */
  function RemoveFirstSpacer(rows: seq<Row<Line>>): seq<Row<Line>>
  {
    if rows == [] then []
    else if rows[0].Spacer? then rows[1..]
    else [rows[0]] + RemoveFirstSpacer(rows[1..])
  }

  function EmptyTitle(term: string): string
  {
    if term != "" then "No results found" else "No history found"
  }

  const EmptyMessage: string := "Your browsing history is empty."

  /** `renderBatch(reset)` on an attached container. */
  function BatchResult(s: ListState, reset: bool, items: seq<HistoryItem>, isLoading: bool, ctx: Context, highlight: int): ListState
  {
    var base := if reset then ListState(NavRows(s.rows), 0, None) else s;
    var f := Filtered(items, ctx.term);
    if |f| == 0 && !isLoading then
      (if reset then ListState(base.rows + [EmptyState(EmptyTitle(ctx.term), EmptyMessage)], 0, None) else s)
    else
      var batch := Batch(f, base.renderedCount);
      if batch == [] then base
      else ListState(RemoveFirstSpacer(base.rows) + EmitRows(batch, base.lastLabel, ctx, highlight) + [Spacer],
                     base.renderedCount + |batch|, LastLabel(batch, base.lastLabel, ctx))
  }

  /** The list shows exactly the first `renderedCount` filtered items, and
      the remembered groupLabel is the last one drawn. */
  predicate Cursor(s: ListState, items: seq<HistoryItem>, ctx: Context)
  {
    var f := Filtered(items, ctx.term);
    && s.renderedCount <= |f|
    && LineItems(Entries(s.rows)) == f[..s.renderedCount]
    && s.lastLabel == LastLabel(f[..s.renderedCount], None, ctx)
  }

  lemma {:induction false} NavRowsHaveNoEntries(rows: seq<Row<Line>>)
    ensures Entries(NavRows(rows)) == []
  {
    if rows != [] {
      NavRowsHaveNoEntries(rows[1..]);
      var p := (r: Row<Line>) => r.Nav?;
      assert NavRows(rows) == (if p(rows[0]) then [rows[0]] else []) + NavRows(rows[1..]);
      EntriesAppend(if p(rows[0]) then [rows[0]] else [], NavRows(rows[1..]));
    }
  }

  lemma {:induction false} RemoveFirstSpacerEntries(rows: seq<Row<Line>>)
    ensures Entries(RemoveFirstSpacer(rows)) == Entries(rows)
  {
    if rows != [] && !rows[0].Spacer? {
      RemoveFirstSpacerEntries(rows[1..]);
      EntriesAppend([rows[0]], RemoveFirstSpacer(rows[1..]));
    }
  }

  /** The entries after a render: the kept ones, then the batch's lines. */
  lemma BatchResultEntries(s: ListState, reset: bool, items: seq<HistoryItem>, isLoading: bool, ctx: Context, highlight: int)
    ensures var base := if reset then ListState(NavRows(s.rows), 0, None) else s;
      var r := BatchResult(s, reset, items, isLoading, ctx, highlight);
      var f := Filtered(items, ctx.term);
      && (reset ==> Entries(base.rows) == [])
      && ((|f| == 0 && !isLoading) ==> Entries(r.rows) == Entries(base.rows))
      && (!(|f| == 0 && !isLoading) ==>
            Entries(r.rows) == Entries(base.rows) + Lines(Batch(f, base.renderedCount), ctx, highlight))
  {
    var base := if reset then ListState(NavRows(s.rows), 0, None) else s;
    var f := Filtered(items, ctx.term);
    if reset {
      NavRowsHaveNoEntries(s.rows);
      EntriesAppend(base.rows, [EmptyState(EmptyTitle(ctx.term), EmptyMessage)]);
    }
    var batch := Batch(f, base.renderedCount);
    EmitEntries(batch, base.lastLabel, ctx, highlight);
    if batch == [] {
      assert Lines(batch, ctx, highlight) == [];
    } else {
      var emitted := EmitRows(batch, base.lastLabel, ctx, highlight);
      RemoveFirstSpacerEntries(base.rows);
      EntriesAppend(RemoveFirstSpacer(base.rows), emitted);
      EntriesAppend(RemoveFirstSpacer(base.rows) + emitted, [Spacer]);
    }
  }

  /** A reset render establishes the cursor and a further render keeps
      it: successive batches partition the filtered list in order. */
  lemma BatchKeepsCursor(s: ListState, reset: bool, items: seq<HistoryItem>, isLoading: bool, ctx: Context, highlight: int)
    requires reset || Cursor(s, items, ctx)
    ensures Cursor(BatchResult(s, reset, items, isLoading, ctx, highlight), items, ctx)
  {
    var base := if reset then ListState(NavRows(s.rows), 0, None) else s;
    var f := Filtered(items, ctx.term);
    BatchResultEntries(s, reset, items, isLoading, ctx, highlight);
    assert f[..0] == [];
    assert Cursor(base, items, ctx);
    var r := BatchResult(s, reset, items, isLoading, ctx, highlight);
    if !(|f| == 0 && !isLoading) {
      var c := base.renderedCount;
      var batch := Batch(f, c);
      if batch != [] {
        BatchPartition(f, c);
        LinesItems(batch, ctx, highlight);
        LineItemsAppend(Entries(base.rows), Lines(batch, ctx, highlight));
        EmitConcat(f[..c], batch, None, ctx, highlight);
      }
    } else if reset {
      EntriesAppend(NavRows(s.rows), [EmptyState(EmptyTitle(ctx.term), EmptyMessage)]);
      NavRowsHaveNoEntries(s.rows);
    }
  }

  /** After the list is exhausted a further render changes nothing, and
      otherwise it advances by the batch size or to the end. */
  lemma BatchAdvance(s: ListState, items: seq<HistoryItem>, isLoading: bool, ctx: Context, highlight: int)
    requires Cursor(s, items, ctx)
    ensures var f := Filtered(items, ctx.term); var r := BatchResult(s, false, items, isLoading, ctx, highlight);
      && (s.renderedCount == |f| ==> r == s)
      && r.renderedCount == (if s.renderedCount + BatchSize <= |f| then s.renderedCount + BatchSize else |f|)
  {
  }

  lemma {:induction false} RemoveFirstSpacerNoSpacer(rows: seq<Row<Line>>)
    requires forall i :: 0 <= i < |rows| ==> rows[i].Nav?
    ensures RemoveFirstSpacer(rows) == rows
  {
    if rows != [] {
      RemoveFirstSpacerNoSpacer(rows[1..]);
    }
  }

  /** A reset render keeps exactly the static navigation rows, in front. */
  lemma ResetKeepsNav(s: ListState, items: seq<HistoryItem>, isLoading: bool, ctx: Context, highlight: int)
    ensures NavRows(s.rows) <= BatchResult(s, true, items, isLoading, ctx, highlight).rows
  {
    var base := NavRows(s.rows);
    FilterFacts(s.rows, (r: Row<Line>) => r.Nav?);
    RemoveFirstSpacerNoSpacer(base);
  }

  /** After a reset render pop-in marks exactly the visits newer than a
      non-zero highlight. */
  lemma ResetPopIn(s: ListState, items: seq<HistoryItem>, isLoading: bool, ctx: Context, highlight: int)
    ensures forall l :: l in Entries(BatchResult(s, true, items, isLoading, ctx, highlight).rows) ==>
      (l.popIn <==> highlight != 0 && l.item.time > highlight)
  {
    var f := Filtered(items, ctx.term);
    var batch := Batch(f, 0);
    var r := BatchResult(s, true, items, isLoading, ctx, highlight);
    BatchResultEntries(s, true, items, isLoading, ctx, highlight);
    forall l | l in Entries(r.rows)
      ensures l.popIn <==> highlight != 0 && l.item.time > highlight
    {
      if !(|f| == 0 && !isLoading) {
        var i :| 0 <= i < |batch| && Lines(batch, ctx, highlight)[i] == l;
      }
    }
  }

  /** An empty filtered list with nothing loading shows one empty state on
      a reset render and is left alone otherwise. */
  lemma EmptyListRender(s: ListState, reset: bool, items: seq<HistoryItem>, ctx: Context, highlight: int)
    requires Filtered(items, ctx.term) == []
    ensures reset ==> BatchResult(s, reset, items, false, ctx, highlight).rows
                      == NavRows(s.rows) + [EmptyState(EmptyTitle(ctx.term), EmptyMessage)]
    ensures !reset ==> BatchResult(s, reset, items, false, ctx, highlight) == s
  {
  }

  // ---------------------------------------------------------------------
  // Sync decision

  function HeadTime(items: seq<HistoryItem>): Option<int>
  {
    if |items| > 0 then Some(items[0].time) else None
  }

  /** The one-record probe of the newest visit. */
  function ProbeTime(history: seq<RawNode>): Option<int>
  {
    var probe := Take(history, 1);
    if |probe| > 0 then Some(probe[0].time) else None
  }

  function NeedsUpdate(latest: Option<int>, head: Option<int>): bool
  {
    match (latest, head)
    case (None, None) => false
    case (Some(_), None) => true
    case (None, Some(_)) => true
    case (Some(a), Some(b)) => a != b
  }

  /** The three cases of the decision amount to one comparison: a refetch
      happens exactly when the probe's newest time and the cached head's
      time (each possibly absent) differ. */
  lemma NeedsUpdateIff(latest: Option<int>, head: Option<int>)
    ensures NeedsUpdate(latest, head) <==> latest != head
  {
  }

  /** Right after a fetch of the same history a sync finds nothing new. */
  lemma NoUpdateAfterFetch(history: seq<RawNode>, loc: Locale)
    ensures !NeedsUpdate(ProbeTime(history), HeadTime(ShapeAll(Take(history, MaxResults), loc)))
  {
  }

  /** The highlight a sync renders with: the cached head's time, or 0. */
  function HighlightFor(items: seq<HistoryItem>): int
  {
    if |items| > 0 then items[0].time else 0
  }

  // ---------------------------------------------------------------------
  // Closed tabs and windows

  datatype TabEntry = TabEntry(title: string, url: string)
  /** A closed tab: its title, its history entries and the 1-based index
      of the current one. */
  datatype ClosedTab = ClosedTab(title: string, entries: seq<TabEntry>, index: int)
  datatype ClosedWindow = ClosedWindow(title: string, tabCount: nat)

  datatype ClosedLine = ClosedLine(title: string, subtitle: string)

  predicate CurrentEntryExists(t: ClosedTab)
  {
    1 <= t.index <= |t.entries|
  }

  function ClosedTabLine(t: ClosedTab): (l: ClosedLine)
    requires CurrentEntryExists(t)
    ensures t.title != "" ==> l.title == t.title
    ensures t.title == "" ==> l.title == t.entries[t.index - 1].title
    ensures l.subtitle == t.entries[t.index - 1].url
  {
    var current := t.entries[t.index - 1];
    ClosedLine(if t.title != "" then t.title else current.title, current.url)
  }

  /** `renderClosedTabs`: nothing without a session store; the empty notice
      for no closed tabs; nothing either when some tab's current entry is
      missing (the lookup throws after the list was cleared). */
  function ClosedTabsView(store: Option<seq<ClosedTab>>): (r: seq<Row<ClosedLine>>)
    ensures store.None? ==> r == []
    ensures store == Some([]) ==> r == [EmptyState("No closed tabs", "")]
    ensures store.Some? && store.value != [] && (forall t :: t in store.value ==> CurrentEntryExists(t)) ==>
      |r| == |store.value| + 2 && r[0] == Header("Recently Closed Tabs") && r[|r| - 1] == Spacer
      && forall i :: 0 <= i < |store.value| ==> r[i + 1] == Entry(ClosedTabLine(store.value[i]))
    ensures store.Some? && (exists t :: t in store.value && !CurrentEntryExists(t)) ==> r == []
  {
    match store
    case None => []
    case Some(tabs) =>
      if tabs == [] then [EmptyState("No closed tabs", "")]
      else if exists t :: t in tabs && !CurrentEntryExists(t) then []
      else [Header("Recently Closed Tabs")]
           + seq(|tabs|, i requires 0 <= i < |tabs| => Entry(ClosedTabLine(tabs[i])))
           + [Spacer]
  }

  function WindowTitle(w: ClosedWindow): (title: string)
    ensures title != ""
    ensures w.title != "" ==> title == w.title
    ensures w.title == "" ==> title == "Window with " + NatToString(w.tabCount) + " tabs"
  {
    if w.title != "" then w.title else "Window with " + NatToString(w.tabCount) + " tabs"
  }

  /** `renderClosedWindows`. */
  function ClosedWindowsView(store: Option<seq<ClosedWindow>>): (r: seq<Row<ClosedLine>>)
    ensures store.None? ==> r == []
    ensures store == Some([]) ==> r == [EmptyState("No closed windows", "")]
    ensures store.Some? && store.value != [] ==>
      |r| == |store.value| + 2 && r[0] == Header("Recently Closed Windows") && r[|r| - 1] == Spacer
      && forall i :: 0 <= i < |store.value| ==>
           r[i + 1] == Entry(ClosedLine(WindowTitle(store.value[i]), NatToString(store.value[i].tabCount) + " tabs"))
  {
    match store
    case None => []
    case Some(ws) =>
      if ws == [] then [EmptyState("No closed windows", "")]
      else [Header("Recently Closed Windows")]
           + seq(|ws|, i requires 0 <= i < |ws| => Entry(ClosedLine(WindowTitle(ws[i]), NatToString(ws[i].tabCount) + " tabs")))
           + [Spacer]
  }

  // ---------------------------------------------------------------------
  // The panel

  const NavItems: seq<Row<Line>> := [Nav("Recently closed tabs"), Nav("Recently closed windows"), Nav("Clear history...")]

  const PreparingRow: Row<Line> := EmptyState("Preparing history...", "Gathering your browsing history.")

  /** The list without its first empty state (the loading notice). */
  function RemoveFirstEmptyState(rows: seq<Row<Line>>): seq<Row<Line>>
  {
    if rows == [] then []
    else if rows[0].EmptyState? then rows[1..]
    else [rows[0]] + RemoveFirstEmptyState(rows[1..])
  }

  /** The rows of one batch, emitted in a loop that carries the label. */
  method EmitBatch(batch: seq<HistoryItem>, prev: Option<string>, ctx: Context, highlight: int)
    returns (fragment: seq<Row<Line>>, last: Option<string>)
    ensures fragment == EmitRows(batch, prev, ctx, highlight)
    ensures last == LastLabel(batch, prev, ctx)
  {
    fragment := [];
    last := prev;
    var j := 0;
    while j < |batch|
      invariant 0 <= j <= |batch|
      invariant fragment == EmitRows(batch[..j], prev, ctx, highlight)
      invariant last == LastLabel(batch[..j], prev, ctx)
    {
      var item := batch[j];
      var groupLabel := GroupLabel(item, ctx);
      if Some(groupLabel) != last {
        fragment := fragment + [Header(groupLabel)];
        last := Some(groupLabel);
      }
      fragment := fragment + [Entry(Line(item, DisplayTime(item, groupLabel, ctx.term), highlight != 0 && item.time > highlight))];
      assert batch[..j + 1][..j] == batch[..j];
      j := j + 1;
    }
    assert batch[..j] == batch;
  }

  class HistoryPanel {
    var attached: bool
    var rows: seq<Row<Line>>
    var items: seq<HistoryItem>
    var searchTerm: string
    var isLoading: bool
    var renderedCount: nat
    var lastGroupLabel: Option<string>
    /** `_highlightNewerThan`, 0 when unset. */
    var highlightNewerThan: int
    var initialized: bool

    constructor ()
      ensures !attached && rows == [] && items == [] && searchTerm == "" && !isLoading
      ensures renderedCount == 0 && lastGroupLabel == None && highlightNewerThan == 0 && !initialized
    {
      attached, rows, items, searchTerm, isLoading := false, [], [], "", false;
      renderedCount, lastGroupLabel, highlightNewerThan, initialized := 0, None, 0, false;
    }

    function List(): ListState
      reads this
    {
      ListState(rows, renderedCount, lastGroupLabel)
    }

    /** `fetchHistory`, one synchronous step: the query runs without an
        `await`, so the loading flag it sets is cleared again before any
        other handler runs. The items become the newest 500 visits shaped
        (kept when the query threw, None). */
    method FetchHistory(history: Option<seq<RawNode>>, loc: Locale)
      modifies this
      ensures !isLoading
      ensures items == if history.Some? then ShapeAll(Take(history.value, MaxResults), loc) else old(items)
      ensures List() == old(List()) && searchTerm == old(searchTerm)
      ensures attached == old(attached) && highlightNewerThan == old(highlightNewerThan) && initialized == old(initialized)
    {
      isLoading := true;
      if history.Some? {
        var nodes := Take(history.value, MaxResults);
        var fetched: seq<HistoryItem> := [];
        var i := 0;
        while i < |nodes|
          invariant 0 <= i <= |nodes|
          invariant fetched == ShapeAll(nodes[..i], loc)
        {
          fetched := fetched + [ShapeNode(nodes[i], loc)];
          i := i + 1;
        }
        assert nodes[..i] == nodes;
        items := fetched;
      }
      isLoading := false;
    }

    /** The effective `init`: fetch, then mark the panel initialized; it has
        no in-flight guard. */
    method Init(history: Option<seq<RawNode>>, loc: Locale)
      modifies this
      ensures initialized && !isLoading
      ensures items == if history.Some? then ShapeAll(Take(history.value, MaxResults), loc) else old(items)
      ensures List() == old(List()) && searchTerm == old(searchTerm)
      ensures attached == old(attached) && highlightNewerThan == old(highlightNewerThan)
    {
      FetchHistory(history, loc);
      initialized := true;
    }

    /** `renderBatch(reset)`: nothing without a container, otherwise the
        list becomes BatchResult. */
    method RenderBatch(reset: bool, now: int, loc: Locale)
      modifies this
      ensures items == old(items) && searchTerm == old(searchTerm) && isLoading == old(isLoading)
      ensures attached == old(attached) && highlightNewerThan == old(highlightNewerThan) && initialized == old(initialized)
      ensures List() == if attached
        then BatchResult(old(List()), reset, items, isLoading, Context(searchTerm, now, loc), highlightNewerThan)
        else old(List())
    {
      if !attached {
        return;
      }
      var ctx := Context(searchTerm, now, loc);
      if reset {
        rows := NavRows(rows);
        renderedCount := 0;
        lastGroupLabel := None;
      }
      var filtered := Filtered(items, searchTerm);
      if |filtered| == 0 && !isLoading {
        if !reset {
          return;
        }
        rows := rows + [EmptyState(EmptyTitle(searchTerm), EmptyMessage)];
        return;
      }
      var nextBatch := Batch(filtered, renderedCount);
      if |nextBatch| == 0 {
        return;
      }
      var fragment, last := EmitBatch(nextBatch, lastGroupLabel, ctx, highlightNewerThan);
      lastGroupLabel := last;
      renderedCount := renderedCount + |nextBatch|;
      rows := RemoveFirstSpacer(rows) + fragment + [Spacer];
    }

    /** `loadMore`: the next batch unless a fetch is in flight. */
    method LoadMore(now: int, loc: Locale)
      modifies this
      ensures isLoading || !attached ==> List() == old(List())
      ensures !isLoading && attached ==>
        List() == BatchResult(old(List()), false, items, false, Context(searchTerm, now, loc), highlightNewerThan)
      ensures items == old(items) && searchTerm == old(searchTerm) && isLoading == old(isLoading)
      ensures attached == old(attached) && highlightNewerThan == old(highlightNewerThan) && initialized == old(initialized)
    {
      if !isLoading {
        RenderBatch(false, now, loc);
      }
    }

    /** `sync`: probe the newest visit (`probe`, a query of one record);
        when it disagrees with the cached head, refetch (`history`, the
        500-record query) and redraw from the top with the old head's time
        as the highlight, then clear the highlight. A throwing probe changes
        nothing; a throwing refetch keeps the old items, which are redrawn
        all the same. */
    method Sync(probe: Option<seq<RawNode>>, history: Option<seq<RawNode>>, now: int, loc: Locale)
      modifies this
      ensures searchTerm == old(searchTerm) && attached == old(attached) && initialized == old(initialized)
      ensures (probe.None? || !NeedsUpdate(ProbeTime(probe.value), HeadTime(old(items)))) ==>
        items == old(items) && List() == old(List()) && isLoading == old(isLoading)
        && highlightNewerThan == old(highlightNewerThan)
      ensures probe.Some? && NeedsUpdate(ProbeTime(probe.value), HeadTime(old(items))) ==>
        && items == (if history.Some? then ShapeAll(Take(history.value, MaxResults), loc) else old(items))
        && !isLoading && highlightNewerThan == 0
        && List() == (if attached
             then BatchResult(old(List()), true, items, false, Context(searchTerm, now, loc), HighlightFor(old(items)))
             else old(List()))
    {
      if probe.None? {
        return;
      }
      var latest := ProbeTime(probe.value);
      var head := HeadTime(items);
      if NeedsUpdate(latest, head) {
        highlightNewerThan := HighlightFor(items);
        FetchHistory(history, loc);
        RenderBatch(true, now, loc);
        highlightNewerThan := 0;
      }
    }

    /** `startLoading`: the static navigation rows are added, the history
        is fetched when there is none and nothing is loading, and the list
        is drawn from the top. */
    method StartLoading(history: Option<seq<RawNode>>, now: int, loc: Locale)
      modifies this
      ensures searchTerm == old(searchTerm) && attached == old(attached) && initialized == old(initialized)
      ensures highlightNewerThan == old(highlightNewerThan)
      ensures items == if |old(items)| == 0 && !old(isLoading) && history.Some?
                       then ShapeAll(Take(history.value, MaxResults), loc) else old(items)
      ensures isLoading == old(isLoading)
      ensures List() == if attached
        then BatchResult(ListState(old(rows) + NavItems, old(renderedCount), old(lastGroupLabel)),
                         true, items, isLoading, Context(searchTerm, now, loc), highlightNewerThan)
        else ListState(old(rows) + NavItems, old(renderedCount), old(lastGroupLabel))
    {
      rows := rows + NavItems;
      if |items| == 0 && !isLoading {
        FetchHistory(history, loc);
      }
      RenderBatch(true, now, loc);
    }

    /** The timer `render` schedules without pre-fetched items: the
        preparing notice goes, then StartLoading. */
    method DeferredStart(history: Option<seq<RawNode>>, now: int, loc: Locale)
      modifies this
      ensures searchTerm == old(searchTerm) && attached == old(attached) && initialized == old(initialized)
      ensures isLoading == old(isLoading) && highlightNewerThan == old(highlightNewerThan)
      ensures items == if |old(items)| == 0 && !old(isLoading) && history.Some?
                       then ShapeAll(Take(history.value, MaxResults), loc) else old(items)
      ensures attached ==>
        List() == BatchResult(ListState(RemoveFirstEmptyState(old(rows)) + NavItems, old(renderedCount), old(lastGroupLabel)),
                              true, items, isLoading, Context(searchTerm, now, loc), highlightNewerThan)
      ensures !attached ==>
        List() == ListState(RemoveFirstEmptyState(old(rows)) + NavItems, old(renderedCount), old(lastGroupLabel))
    {
      rows := RemoveFirstEmptyState(rows);
      StartLoading(history, now, loc);
    }

    /** `render`: a new container. With pre-fetched items the list is drawn
        at once (a sync follows on a timer); otherwise the preparing notice
        stands until the deferred StartLoading. With items present nothing
        is fetched, so no query result is needed. */
    method Open(now: int, loc: Locale)
      modifies this
      ensures attached && searchTerm == old(searchTerm) && initialized == old(initialized)
      ensures highlightNewerThan == old(highlightNewerThan)
      ensures !(old(initialized) && |old(items)| > 0) ==>
        && List() == ListState([PreparingRow], old(renderedCount), old(lastGroupLabel))
        && items == old(items) && isLoading == old(isLoading)
      ensures old(initialized) && |old(items)| > 0 ==>
        items == old(items) && isLoading == old(isLoading)
        && List() == BatchResult(ListState(NavItems, old(renderedCount), old(lastGroupLabel)), true, items,
                                 isLoading, Context(searchTerm, now, loc), highlightNewerThan)
    {
      attached := true;
      rows := [];
      assert rows + NavItems == NavItems;
      if initialized && |items| > 0 {
        StartLoading(None, now, loc);
      } else {
        rows := [PreparingRow];
      }
    }
  }
}
