# Zen Library panels: a Dafny model

Zen Library is a browser-chrome panel with four tabs: Downloads, History,
Media and Spaces (workspaces). This project models the logic inside those
panels that can be stated on its own, and proves what that logic promises.
The browser services the code calls are inputs to the model.

- **Downloads** (`downloads.dfy`):
  - A raw download record becomes a uniform item. The filename comes from an
    ordered fallback chain. The status follows a fixed order, and a missing
    file overrides it to "deleted". The size is adjusted for completed
    downloads.
  - Items are filtered by a case-insensitive search term.
  - The list groups items into day buckets (Today, Yesterday, a weekday,
    Last Month, Earlier). Buckets appear in a fixed label order, and items
    within a bucket are newest first.
  - Open and reveal actions run only on an existing file.
  - The panel caches the fetched items. `init` has an in-flight guard, and
    `sync` always replaces the cache.
- **History** (`history.dfy`):
  - Visits are shaped into items: at most 500, and the title falls back to
    the URI.
  - A search filter matches the title or the URI.
  - The list is drawn in batches of 30. A cursor (the rendered count and the
    last group label) carries the header decision across batches.
  - A sync first probes the newest visit. It refetches and redraws only when
    the probe disagrees with the cached head, highlighting the visits newer
    than the old head.
  - Closed tabs and closed windows are listed with title fallbacks.
- **Media** (`media.dfy`):
  - The fetch uses its own, simpler status rule, under which "unknown"
    cannot occur.
  - The grid keeps items by an extension whitelist, by status and by search
    term. It orders them by a normalised timestamp, newest first.
  - The panel reports an item count and asks the library to update when the
    count changed.
  - The column count comes from the Spaces formula.
- **Spaces** (`spaces.dfy`):
  - Panel width, media width and media column formulas.
  - Per-folder expansion memory with a first-seen default and a toggle.
  - The shape of a workspace card's list: pinned items, one separator, then
    unpinned items.
  - Which tabs the "clear unpinned" and "unload" actions touch.
  - Workspace icon classification.
  - The inline-rename commit rule.
- **Common** (`common.dfy`):
  - An option type and the rendered-row type every panel uses.
  - The JavaScript string operations the panels rely on: `toLowerCase`,
    `includes`, `split`, `pop`, `trim`.
  - A stable descending sort standing in for `Array.prototype.sort`.

How the browser is modelled:
- The download list and the history query are optional sequences; `None`
  means the call threw.
- The local-file object is an oracle `path -> FileProbe`. It either throws
  on `initWithPath`, or answers `exists()` and then throws on `leafName`, or
  answers both.
- URL decoding and parsing is an oracle returning an optional pathname.
- Time is an integer of milliseconds (`now`). History visit times are
  microseconds.
- The locale is a bundle of functions: day of month, calendar day number,
  weekday name, and the date and time labels.
- The window-relative width caps are integer parameters.
- Each asynchronous fetch is one atomic step. The Downloads `init` fetch is
  split at its `await` into `StartInit`/`FinishInit`, because its in-flight
  flag is observable in between. History's `fetchHistory` has no `await`
  (the query is synchronous and `finally` clears the flag before it
  returns), so `History.HistoryPanel.FetchHistory` is a single step.

Behaviour the model takes from the code where the panels' apparent intent
reads differently:
- **Status order.** The code checks `succeeded` before `error`/`canceled`.
  It then applies the missing-file override last, above everything
  (`features/Downloads.uc.js:144-162`). So a record that succeeded and also
  reports an error is "completed", and a succeeded record whose file is gone
  is "deleted". The model has that order: `Downloads.StatusOfRecord`.
- **Actions on deleted items.** Only the folder icon is inert for a deleted
  item (`features/Downloads.uc.js:241-248`). A click on the row still calls
  `handleAction` (`features/Downloads.uc.js:231-235`). For an item that kept
  its target path, whose file was probed and not found, the action alerts
  that the file does not exist. For an item whose probe threw, the target
  path is empty, `initWithPath("")` throws, and the action does nothing
  (`features/Downloads.uc.js:260-275`). The model has both cases:
  `Downloads.FolderIconClick`, `Downloads.HandleAction` and
  `Downloads.ProbeFailureInert`.
- **History `init`.** History defines `init` twice. The later definition
  replaces the earlier one, so the effective `init` has no in-flight guard
  (`features/History.uc.js:234-246`). `History.HistoryPanel.Init` models
  that one.

Quirks the model keeps:
- **Downloads "Today".** "Today" needs a zero-day difference and the same
  day of the month. A zero-day item from the previous calendar day gets its
  weekday name.
- **Downloads weekday names.** Bucket labels come from the locale, but the
  label order is English. An item whose weekday name is not in the order
  list is never drawn (`Downloads.ForeignWeekdayDropped`).
- **Downloads size backfill.** The zero-total backfill can never fire
  (`Downloads.BackfillUnreachable`).
- **Folder toggle.** Toggling a folder id that was never stored stores
  `true`, because `!undefined` is `true`.

## Model

| member | source | states |
|---|---|---|
| `Common.FilterFacts` | features/Downloads.uc.js:174 | `Array.filter` keeps, in order, exactly the elements that pass the predicate, each as many times as it occurs in the input. |
| `Common.Lower` | features/Downloads.uc.js:174 | `toLowerCase` keeps the length and maps each character on its own. |
| `Common.Split` | features/Downloads.uc.js:115 | `split` always yields at least one piece. |
| `Common.SplitJoinRoundTrip` | features/Downloads.uc.js:126 | Joining the pieces of a split on one separator gives back the text. |
| `Common.SplitLastPiece` | features/Media.uc.js:144 | `pop()` after `split` is a separator-free suffix of the text, preceded by a separator whenever it is shorter; a split into one piece gives the whole text. |
| `Common.LastPieceStartExists` | features/Media.uc.js:144 | Every text has a start for its last piece: a position after which no separator occurs and that follows a separator or is 0. |
| `Common.LastPieceAt` | features/Downloads.uc.js:115-116 | From any such start i, `pop()` after `split` returns exactly the text from i on. |
| `Common.LastNonEmptyOfTwo` | features/Downloads.uc.js:130 | `pop() \|\| pop()` returns the last piece when it is non-empty, else the one before it, else ""; any non-empty result is one of the pieces. |
| `Common.PopOrPopAt` | features/Downloads.uc.js:127 | With a non-empty last piece starting at i, `pop() \|\| pop()` returns the text from i on. |
| `Common.PopOrPopTrailing` | features/Downloads.uc.js:127 | For a text ending in the separator, `pop() \|\| pop()` returns the piece before that separator, "" when it is empty. |
| `Common.PopOrPopEmpty` | features/Downloads.uc.js:127 | For the empty text `pop() \|\| pop()` gives "". |
| `Common.TrimStartSpec` | features/Spaces.uc.js:806 | Trimming the front leaves nothing exactly when the text is all white space, and otherwise starts on a non-space. |
| `Common.TrimEmptyIffAllSpace` | features/Spaces.uc.js:229 | `trim()` is empty exactly when the text is all white space. |
| `Common.ContainsChar` | features/Spaces.uc.js:229 | `includes` of a one-character string holds exactly when that character occurs somewhere in the text. |
| `Common.NatToString` | features/History.uc.js:469 | A count prints as its decimal digits: the digits read back as the count, with no leading zero except for "0" itself. |
| `Common.SortDescFacts` | features/Downloads.uc.js:221 | The stable sort orders by key descending, is a permutation of its input, and keeps equal keys in encounter order. |
| `Downloads.NormalizeAll` | features/Downloads.uc.js:102-173 | The fetch maps each raw record to exactly one item, in raw order. |
| `Downloads.StatusOfRecord` | features/Downloads.uc.js:140-162 | Deleted iff a target path names no existing file. Otherwise success beats failure, failure beats the paused states, and anything else is unknown; each case is an iff. |
| `Downloads.MissingFileIsDeleted` | features/Downloads.uc.js:104-162 | A target path whose probe threw or found no file gives "deleted" whatever the flags say; a throwing probe also leaves the target path empty. |
| `Downloads.NoTargetNeverDeleted` | features/Downloads.uc.js:160-162 | Without a target path the status is the precedence status and the target path is empty. |
| `Downloads.CompletedSize` | features/Downloads.uc.js:144-149 | A completed record's size is the larger of the reported total and the file size, and progress equals it; otherwise the size is the reported total. |
| `Downloads.BackfillUnreachable` | features/Downloads.uc.js:156-158 | The zero-total backfill condition never holds, so it never changes the counts. |
| `Downloads.SplitPiecesFree` | features/Downloads.uc.js:129-136 | No piece of a split contains a separator. |
| `Downloads.PathFallbackIsLeaf` | features/Downloads.uc.js:115-116 | With i the start of the text after the last `/` or `\`, the path fallback is exactly that text, or "ErrorInPathUtil" when it is empty. |
| `Downloads.UrlPathFilename` | features/Downloads.uc.js:126-127 | The URL-path name is never empty: a `/`-free name or "Unknown from URL Path", the latter for an empty pathname. |
| `Downloads.UrlPathFilenameLeaf` | features/Downloads.uc.js:126-127 | A pathname whose text after its last `/` is non-empty gives exactly that text. |
| `Downloads.UrlPathFilenameTrailingSlash` | features/Downloads.uc.js:126-127 | A pathname ending in `/` gives the segment before that slash, or "Unknown from URL Path" when it is empty. |
| `Downloads.RawUrlFilenameValue` | features/Downloads.uc.js:129-136 | The raw-URL name is the text of the last non-empty `/` piece up to its first `?`, or "Invalid URL Filename" when that text is empty. |
| `Downloads.RawUrlFilenameClean` | features/Downloads.uc.js:129-131 | The raw-URL fallback is a non-empty name with no `/` and no `?`, or "Invalid URL Filename". |
| `Downloads.SplitFirstIsPrefix` | features/Downloads.uc.js:131 | `split("?")[0]` is the longest separator-free prefix: a prefix with no separator, followed by a separator when it is shorter than the text. |
| `Downloads.FirstPieceAt` | features/Downloads.uc.js:131 | With j the first separator position (or the end), the first piece is exactly the text before j. |
| `Downloads.UrlOnlyForPlaceholders` | features/Downloads.uc.js:120-138 | The URL is consulted only while the name is a placeholder; a successful probe with a real leaf name gives that name. |
| `Downloads.FilenameNeverEmpty` | features/Downloads.uc.js:166 | Every item has a non-empty filename. |
| `Downloads.FetchSelects` | features/Downloads.uc.js:174-179 | The fetch is [] when the host threw; otherwise it keeps, in raw order, exactly the items with a truthy timestamp that match the term, each as often as it was fetched. |
| `Downloads.FetchWithoutTermKeepsAll` | features/Downloads.uc.js:170-174 | With no term and a non-zero clock nothing is dropped: one item per raw record. |
| `Downloads.DiffDays` | features/Downloads.uc.js:202-203 | The day difference is the floor of the elapsed time over one day. |
| `Downloads.GroupKeyBuckets` | features/Downloads.uc.js:204-208 | Today needs a zero-day difference and the same day of month; one day is Yesterday; under seven (or a future time) the weekday; under thirty Last Month; else Earlier. |
| `Downloads.GroupKeyInOrder` | features/Downloads.uc.js:204-214 | Under English weekday names every bucket label is in the order list. |
| `Downloads.GroupBlockHeaders` | features/Downloads.uc.js:216-219 | A bucket's block carries its label's header exactly when the bucket is non-empty. |
| `Downloads.GroupedHeaders` | features/Downloads.uc.js:216-219 | The headers are the non-empty labels, in the order of the label list. |
| `Downloads.NonEmptyKeysFilter` | features/Downloads.uc.js:216-217 | The non-empty labels are exactly what filtering the label list by "bucket has items" keeps. |
| `Downloads.OrderDistinct` | features/Downloads.uc.js:214 | The label order lists no label twice. |
| `Downloads.GroupBlockSorted` | features/Downloads.uc.js:221 | A bucket's rows are its items newest first, as a permutation, ties in encounter order. |
| `Downloads.GroupedEntries` | features/Downloads.uc.js:210-221 | The blocks for distinct labels hold exactly the items in those buckets. |
| `Downloads.ListRowsComplete` | features/Downloads.uc.js:187-257 | An empty list renders only the empty state; otherwise, under English weekday names, every item appears exactly once and the headers are the non-empty buckets in order. |
| `Downloads.ForeignWeekdayDropped` | features/Downloads.uc.js:207-217 | An item whose bucket label is not in the order list is not drawn. |
| `Downloads.InGroupSnoc` | features/Downloads.uc.js:210-211 | Pushing one item extends only its own bucket. |
| `Downloads.GroupedRowsSnoc` | features/Downloads.uc.js:216-219 | Visiting one more label appends that label's block. |
| `Downloads.CollectGroups` | features/Downloads.uc.js:198-212 | The grouping loop's map has a key exactly for each non-empty bucket, holding that bucket's items in order. |
| `Downloads.BlockFromGroups` | features/Downloads.uc.js:216-221 | A bucket read from the collected map draws the specified block: nothing for a missing key, else the header and the bucket newest first. |
| `Downloads.AssembleRows` | features/Downloads.uc.js:214-255 | The emitting loop produces the grouped rows for the label list it is given (the renderer passes the fixed order). |
| `Downloads.HandleAction` | features/Downloads.uc.js:260-275 | A launch or reveal always targets the item's own path; an empty path does nothing, because `initWithPath` refuses it. |
| `Downloads.HandleActionGating` | features/Downloads.uc.js:265-271 | Launch iff open on an existing file, reveal iff show on an existing file, alert iff either on a non-empty path whose probe did not throw and found no file; a throwing probe and any other action do nothing. |
| `Downloads.ProbeFailureInert` | features/Downloads.uc.js:107-117 | A record whose probe threw (on `initWithPath` or on `leafName`) is deleted unless its file was found, and it keeps an empty target path, so no action on its item has any effect. |
| `Downloads.FolderIconClick` | features/Downloads.uc.js:241-248 | The folder icon does nothing for a deleted item and otherwise reveals exactly an existing file. |
| `Downloads.DownloadsPanel.constructor` | features/Downloads.uc.js:5-11 | No container, no term, no cache, not fetching. |
| `Downloads.DownloadsPanel.RenderList` | features/Downloads.uc.js:182-258 | Without a container nothing changes; otherwise the container holds exactly the specified list rows. |
| `Downloads.DownloadsPanel.StartInit` | features/Downloads.uc.js:16-18 | A call while fetching does nothing; otherwise the fetch starts. |
| `Downloads.DownloadsPanel.FinishInit` | features/Downloads.uc.js:19-25 | The cache becomes the fetch result and the in-flight flag clears. |
| `Downloads.DownloadsPanel.Sync` | features/Downloads.uc.js:78-89 | The cache is always replaced by a fresh fetch and the list redrawn from it. |
| `Downloads.DownloadsPanel.Open` | features/Downloads.uc.js:30-72 | With a cache, even an empty one, the list is drawn and synced; without one only the loading row shows. |
| `Downloads.DownloadsPanel.DeferredLoad` | features/Downloads.uc.js:60-69 | The deferred fetch fills the cache and draws the list. |
| `Media.FetchMedia` | features/Media.uc.js:59-131 | One item per raw record, unfiltered and in order; [] when the host threw. |
| `Media.MediaStatusFacts` | features/Media.uc.js:107-115 | The status is never unknown: deleted iff the file is missing, else completed iff succeeded, failed iff error or canceled, paused otherwise. |
| `Media.MediaSizeAndTime` | features/Media.uc.js:117-123 | The size is the reported total with no adjustment; the timestamp falls back from end to start to now. |
| `Media.AgreesWithDownloads` | features/Media.uc.js:69-126 | Both panels give the same id, name, URL, timestamp and path; their statuses differ only where the downloads panel says unknown. |
| `Media.ExtensionFacts` | features/Media.uc.js:144 | The extension is the lowercased separator-free text after the last dot, or the whole lowercased name without a dot. |
| `Media.ExtensionAfterLastDot` | features/Media.uc.js:144 | With a last dot at i, the extension is the lowercased rest after i. |
| `Media.ExtensionWithoutDot` | features/Media.uc.js:144 | A name without a dot is its own extension, lowercased. |
| `Media.ExtensionOfSuffix` | features/Media.uc.js:144 | For any name followed by a dot and a dot-free extension, the extension is that text lowercased. |
| `Media.UpperCaseExtensionCounts` | features/Media.uc.js:139-145 | Any name ending in ".PNG" is media and not video. |
| `Media.OnlyLastExtensionCounts` | features/Media.uc.js:144-145 | Any name ending in ".png.zip" is not media. |
| `Media.MediaItemsFacts` | features/Media.uc.js:142-151 | The grid keeps, in order, exactly the shown items, each as often as fetched, and none of them is deleted or failed. |
| `Media.DisplayedOrder` | features/Media.uc.js:177-181 | Shown items are newest first by normalised time, a permutation of the filter's output, ties in fetched order. |
| `Media.MicrosecondsSortAsMilliseconds` | features/Media.uc.js:178-179 | A numeric stamp above 1e14 compares with any date exactly as its microseconds compare with the date's milliseconds times 1000, both for order and for ties. |
| `Media.Cards` | features/Media.uc.js:219-222 | One card per item, a video card iff the extension is a video one, previewing `file://` plus the target path. |
| `Media.MediaPanel.constructor` | features/Media.uc.js:5-10 | No container, no term, count 0. |
| `Media.MediaPanel.RenderList` | features/Media.uc.js:134-279 | The count becomes the number of shown items, with an update requested iff it changed and the library can update; then the empty state for the search, or the sorted grid with the computed column count (1 without the calculator). |
| `Media.MediaPanel.Open` | features/Media.uc.js:14-47 | A new container shows the gathering notice. |
| `Media.MediaPanel.DeferredLoad` | features/Media.uc.js:24-54 | The container and search term stay; without a container nothing changes; with one the count becomes the number of shown items, an update is requested iff it changed and the library can update, and the view is the empty state or the grid of the sorted cards with the computed column count. |
| `Spaces.PanelWidth` | features/Spaces.uc.js:7-11 | The width is 168 + 256 per workspace, capped. |
| `Spaces.PanelWidthMonotone` | features/Spaces.uc.js:7-11 | The panel never narrows as workspaces are added, and grows by 256 per workspace below the cap. |
| `Spaces.MediaColumns` | features/Spaces.uc.js:15-24 | At least one column; above one it is the number of 226-pixel columns that fit after 112 pixels. |
| `Spaces.MediaWidth` | features/Spaces.uc.js:26-39 | The media width is the smaller of the cap and 114 + 226 per column for the count. |
| `Spaces.MediaWidthColumnsRoundTrip` | features/Spaces.uc.js:15-39 | Below the cap the width for a count is 114 + 226 per column and shows exactly the intended 1, 2 or 3 columns. |
| `Spaces.MediaColumnsMonotone` | features/Spaces.uc.js:15-24 | Wider never gives fewer columns. |
| `Spaces.DefaultWidthIsOneColumn` | features/Spaces.uc.js:13 | The fallback last width of 340 is the one-column media width and shows one column. |
| `Spaces.WidthMemo.constructor` | features/Spaces.uc.js:13 | The remembered width starts unset. |
| `Spaces.WidthMemo.GetData` | features/Spaces.uc.js:41-46 | The width returned is the panel width for the count, and it is remembered. |
| `Spaces.Collect` | features/Spaces.uc.js:265-273 | Exactly the children that are visible tabs or groups are collected, in order and with their multiplicity; a missing container gives nothing. |
| `Spaces.CardList` | features/Spaces.uc.js:258-311 | The list is the pinned items, one separator, then the unpinned items; no separator without unpinned items; "Empty Workspace" when nothing is listed. |
| `Spaces.CardRows` | features/Spaces.uc.js:279-303 | The loop over the collected items draws them in order with one separator where the index reaches the pinned count, and none when every item is pinned. |
| `Spaces.CardSeparatorCount` | features/Spaces.uc.js:279-303 | Exactly one separator, right after the pinned items. |
| `Spaces.CloseCandidates` | features/Spaces.uc.js:526-529 | The candidates are exactly the non-essential tabs among the normal container's children, in child order, each as often as it is a child. |
| `Spaces.TabsOfFilter` | features/Spaces.uc.js:527-529 | Filtering children by a test only tabs pass, then taking their tabs, keeps exactly the passing tabs in child order with their multiplicity. |
| `Spaces.TabsToCloseFacts` | features/Spaces.uc.js:527-546 | Empty iff there are no candidates. Otherwise exactly the unprotected candidates, in order and with their multiplicity, or all of them when every candidate is protected. |
| `Spaces.TabsToUnload` | features/Spaces.uc.js:877-888 | Nothing is unloaded when the host cannot unload. |
| `Spaces.TabsToUnloadFacts` | features/Spaces.uc.js:880-886 | Exactly the workspace's tabs that are not empty, essential or pending, in stored order and with their multiplicity. |
| `Spaces.IconKind` | features/Spaces.uc.js:223-233 | A mask image or text icon carries the icon string itself. |
| `Spaces.IconKindClasses` | features/Spaces.uc.js:224-233 | A mask image iff the icon contains `/` or starts with the data scheme; a text icon iff neither and the icon has a non-space character; empty iff neither and it is all white space. |
| `Spaces.Toggled` | features/Spaces.uc.js:603-608 | A click negates the stored value (a missing one becomes true) and leaves every other folder alone. |
| `Spaces.ToggleTwice` | features/Spaces.uc.js:603-608 | Two clicks on a stored folder restore the map. |
| `Spaces.SplitTabs` | features/Spaces.uc.js:575-580 | A split view draws exactly its visible tabs, in order and with their multiplicity. |
| `Spaces.SpacesPanel.constructor` | features/Spaces.uc.js:48-52 | The expansion map starts empty. |
| `Spaces.SpacesPanel.FolderState` | features/Spaces.uc.js:585-594 | A stored folder uses its stored value and changes nothing; a new one stores and uses the reverse of its native collapsed state. |
| `Spaces.SpacesPanel.ToggleFolder` | features/Spaces.uc.js:603-608 | The map becomes the toggled map and the new state is returned. |
| `Spaces.SpacesPanel.RenderItem` | features/Spaces.uc.js:563-643 | The drawing and the new expansion map are those of the recursive reference `Draw`: tabs draw themselves, split views their visible tabs, folders their header with the stored or defaulted state (caption falls back to "Folder") and then their visible children drawn in order with the map threaded through; the map only gains ids of folders inside the item and never changes a stored entry. |
| `Spaces.DrawFrame` | features/Spaces.uc.js:585-594 | Drawing an item never changes a stored folder state and stores states only for the folders inside the item. |
| `Spaces.DrawListFrame` | features/Spaces.uc.js:640-643 | Drawing a list of children never changes a stored folder state and stores states only for the folders inside them. |
| `Spaces.Workspace.constructor` | features/Spaces.uc.js:784 | A workspace with its name and no saves. |
| `Spaces.CommitRule` | features/Spaces.uc.js:806 | Restoring the original never commits; a committed name has a non-space character; an all-blank input never commits. |
| `Spaces.InlineRename.constructor` | features/Spaces.uc.js:784-827 | The session remembers the original name, is unfinished and listens for outside clicks. |
| `Spaces.InlineRename.Finish` | features/Spaces.uc.js:801-816 | Only the first call acts. A commit stores the trimmed name (saved when the host can save) and shows it; otherwise the original is shown and the name is unchanged. |
| `Spaces.InlineRename.Enter` | features/Spaces.uc.js:790-793 | Enter finishes with the input's value: only the first finish acts, a commit stores and shows the trimmed name (saved when the host can save), otherwise the original is shown and the name is unchanged. |
| `Spaces.InlineRename.Escape` | features/Spaces.uc.js:794-797 | Escape finishes without changing the name. |
| `Spaces.InlineRename.MouseDown` | features/Spaces.uc.js:819-824 | A mouse-down outside finishes with the original name; inside it changes nothing. |
| `History.MsOf` | features/History.uc.js:270-271 | Microseconds become whole milliseconds, truncated toward zero. |
| `History.ShapeAll` | features/History.uc.js:263-273 | One item per visit node, in order. |
| `History.Take` | features/History.uc.js:257 | A capped query returns the first n records. |
| `History.FetchShape` | features/History.uc.js:257-272 | At most 500 items, the newest in order, each with the node's URI and time, the title falling back to the URI. |
| `History.FilteredFacts` | features/History.uc.js:307-312 | The filter keeps, in order, exactly the items whose title or URI contains the term, each as often as it occurs; no term keeps all. |
| `History.LabelAndTimeRule` | features/History.uc.js:329-370 | Search gives "Search Results" with the date; today gives "Today" and yesterday "Yesterday", both with the time; other days the full date label with the date (unless that label reads "Today" or "Yesterday"); pop-in iff a non-zero highlight is exceeded. |
| `History.RowsForParts` | features/History.uc.js:346-366 | An item draws one line, preceded by a header exactly when its label differs from the last one. |
| `History.EmitEntries` | features/History.uc.js:332-383 | A batch draws one line per item, in order. |
| `History.EmitConcat` | features/History.uc.js:346-349 | Drawing in two batches gives the same rows and final label as drawing at once. |
| `History.EmitHeaders` | features/History.uc.js:346-349 | No two consecutive headers are equal, the first differs from the label before the batch, and the last is the label the batch ends in. |
| `History.SearchSingleHeader` | features/History.uc.js:337-349 | Under a search a batch adds the single "Search Results" header exactly when it is non-empty and that group is not already open. |
| `History.Batch` | features/History.uc.js:325-326 | The slice is empty at the end, else 30 items or what remains. |
| `History.BatchPartition` | features/History.uc.js:325-326 | Successive slices continue the rendered prefix, never run past the end, and are empty exactly at the end. |
| `History.NavRowsHaveNoEntries` | features/History.uc.js:300-302 | The kept navigation rows hold no item lines. |
| `History.RemoveFirstSpacerEntries` | features/History.uc.js:386-387 | Removing the old spacer removes no item line. |
| `History.BatchResultEntries` | features/History.uc.js:299-389 | After a render the item lines are the kept ones followed by the batch's lines. |
| `History.BatchKeepsCursor` | features/History.uc.js:299-389 | A reset render establishes, and a further render keeps, the cursor: the list shows exactly the first rendered-count filtered items, the count never exceeds the filtered length, and the stored label is the last drawn. |
| `History.BatchAdvance` | features/History.uc.js:325-385 | A further render advances the count by 30 or to the end, and at the end it changes nothing. |
| `History.ResetKeepsNav` | features/History.uc.js:299-305 | A reset render keeps exactly the navigation rows, in front. |
| `History.ResetPopIn` | features/History.uc.js:368-370 | After a reset render pop-in marks exactly the visits newer than a non-zero highlight. |
| `History.EmptyListRender` | features/History.uc.js:314-323 | An empty filtered list with nothing loading shows one empty state under the navigation rows on a reset render, and changes nothing otherwise. |
| `History.NeedsUpdateIff` | features/History.uc.js:211-216 | A refetch is needed exactly when the probed newest time and the cached head's time differ, counting a missing side as a value of its own. |
| `History.NoUpdateAfterFetch` | features/History.uc.js:197-216 | Right after fetching a history, a sync of the same history needs no update. |
| `History.ClosedTabLine` | features/History.uc.js:419-420 | A closed tab's title falls back to its current entry's title; the subtitle is that entry's URL. |
| `History.ClosedTabsView` | features/History.uc.js:397-444 | Nothing without a session store; "No closed tabs" for none; nothing when a current entry is missing (the lookup throws); otherwise a header, one line per tab in order, and a spacer. |
| `History.WindowTitle` | features/History.uc.js:468-469 | A window title is its own title when non-empty, else "Window with N tabs"; it is never empty. |
| `History.ClosedWindowsView` | features/History.uc.js:446-493 | Nothing without a session store; "No closed windows" for none; otherwise a header, one line per window with "N tabs" as the subtitle, and a spacer. |
| `History.EmitBatch` | features/History.uc.js:332-383 | The batch loop builds the specified rows and leaves the label of the last item drawn. |
| `History.HistoryPanel.constructor` | features/History.uc.js:5-18 | No items, count 0, no label, not loading, not initialized. |
| `History.HistoryPanel.FetchHistory` | features/History.uc.js:250-287 | One synchronous step: the items become the shaped newest 500 visits in order (kept when the query threw), loading is off afterwards, and no other field changes. |
| `History.HistoryPanel.Init` | features/History.uc.js:234-246 | The effective `init` fetches and marks the panel initialized, with no in-flight guard. |
| `History.HistoryPanel.RenderBatch` | features/History.uc.js:289-393 | Without a container nothing changes; otherwise the list becomes the specified render result and no other field changes. |
| `History.HistoryPanel.LoadMore` | features/History.uc.js:395 | Nothing changes while loading or without a container; otherwise the list is a non-reset render of the current items and no other field changes. |
| `History.HistoryPanel.Sync` | features/History.uc.js:190-232 | A throwing probe or an agreeing head changes nothing. Otherwise the items become the shaped refetch (kept when the refetch threw), the list is redrawn from the top with the old head's time as highlight, and the highlight is then set back to 0. |
| `History.HistoryPanel.StartLoading` | features/History.uc.js:89-155 | The navigation rows are added, the history is fetched only when empty and idle, and the list is drawn from the top. |
| `History.HistoryPanel.DeferredStart` | features/History.uc.js:177-181 | The preparing notice is removed and the navigation rows added; the history is fetched only when the cache is empty and idle; the list is drawn from the top when attached; loading and highlight are unchanged. |
| `History.HistoryPanel.Open` | features/History.uc.js:47-184 | With pre-fetched items the list is drawn at once under the navigation rows; otherwise only the preparing notice shows; items, loading state and highlight are unchanged. |

## Left out

- Browser services are not modelled as code. Their answers are inputs: the
  download list, the history query and the session store, file existence,
  URL decoding and parsing, the clock, and the locale. Where a call can
  throw, the input is an option or a probe variant.
- Locale formatting (`toLocaleDateString`, `toLocaleTimeString`) and
  calendar arithmetic are locale oracles. "Same calendar day" is equality of
  day numbers, and yesterday is the day number minus one.
- DOM construction, CSS classes, SVG markup, theme colours, fade-in and
  scrollbar classes, wheel handlers, scroll restore, and all `setTimeout`
  delays are presentation and timing. They are not modelled.
- Drag-and-drop reordering of workspace cards is left out: floating-point
  animation and event-driven code.
- `formatBytes` is left out because it is floating-point (`Math.log`,
  `toFixed`). The media card's date-and-time caption is left out because it
  is locale formatting.
- `Common.Lower` lower-cases ASCII letters only. Full Unicode case mapping
  is not modelled.
- `Common.IsSpace` covers the ASCII white space, no-break space, byte-order
  mark, and line and paragraph separators. It does not cover every Unicode
  space separator that `trim` removes.
- Width caps (`innerWidth * 0.8` and `* 0.9`) are integer parameters, and
  widths are whole pixels.
- `Common.SortDescFacts` stands in for `Array.prototype.sort`, modelled as a
  stable insertion-sort function. The sort happens inside the host library,
  not in a loop of the source.
- History's store subscription and dispatch are left out as plumbing. The
  model follows the path without a store, where the fetch assigns the items
  directly. Promise ordering is left out too: each fetch and its render form
  one step.
- History's custom-element registration check (`features/History.uc.js:294-297`)
  and the per-item guard after `createElement` are host checks that the
  model takes as passing.
- Downloads' `handleContextMenu` is an empty placeholder.
- Media's glance preview and video duration badge are host UI.
- `Spaces.SpacesPanel.RenderItem`: a folder's child list is `allItems ||
  tabs`, taken as the element's given children. A split view's children
  are restricted to tabs. Tab rendering (icon, close or unpin button,
  container colour) is presentation, and the closing itself is a host call.
- `Spaces.InlineRename.constructor`: the guard that ignores a second rename
  while an input is already open (`features/Spaces.uc.js:782`) is DOM state
  and not modelled. Each session is its own object.
- `showWorkspaceMenu`, `changeWorkspaceIcon` (emoji picker),
  `editWorkspaceTheme` and `renameWorkspace`'s header lookup are host UI
  flows. They are not modelled.
- The toast and the delayed library updates after closing or unloading tabs
  are host calls on timers.
- `Downloads.STATE_PAUSED` and `STATE_DOWNLOADING` are the host's
  constants. The record carries the result of comparing `state` with them.
- `calculatePanelWidth` and `calculateMediaWidth` return fractional caps in
  the source. The model's caps are integers.
