/** The Downloads panel: turning the host's download records into uniform
    items, grouping them into day buckets for display, the open/reveal
    actions, and the panel's cache of fetched items. */
module Downloads {
  import opened Common

  // ---------------------------------------------------------------------
  // Raw records and the host

  /** A time the host reports: a plain number of milliseconds (0 is falsy)
      or a Date object (always truthy). */
  datatype Stamp = Num(ms: int) | DateValue(ms: int)

  /** JavaScript truthiness of an optional time field. */
  predicate Present(t: Option<Stamp>)
  {
    t.Some? && (t.value.DateValue? || t.value.ms != 0)
  }

  /** The download's target file as the record reports it (size 0: absent). */
  datatype Target = Target(path: string, size: nat)

  /** `d.state` compared with the host's paused and downloading constants. */
  datatype DownloadState = StatePaused | StateDownloading | OtherState

  /** A record of the host's download list. Byte counts are 0 when absent
      (`Number(x) || 0` cannot tell the two apart); an empty source URL is an
      absent one. */
  datatype RawDownload = RawDownload(
    id: int,
    target: Option<Target>,
    sourceUrl: string,
    succeeded: bool,
    error: bool,
    canceled: bool,
    stopped: bool,
    hasPartialData: bool,
    state: DownloadState,
    totalBytes: nat,
    bytesTransferred: nat,
    endTime: Option<Stamp>,
    startTime: Option<Stamp>)

  /** What the local-file object does for a path: `initWithPath` or
      `exists()` throws, `leafName` throws after `exists()` answered, or
      both answer. */
  datatype FileProbe = InitFailed | LeafFailed(found: bool) | Probed(found: bool, leafName: string)

  /** The host services one fetch consults: the download list (None when
      it threw), the file probe, URL decoding and parsing (the pathname, or
      None when either threw) and the current time. */
  datatype Host = Host(
    list: Option<seq<RawDownload>>,
    probe: string -> FileProbe,
    parseUrl: string -> Option<string>,
    now: int)

  datatype Status = Completed | Failed | Paused | Deleted | Unknown

  /** The uniform item the panel renders. */
  datatype Item = Item(
    id: int,
    filename: string,
    size: nat,
    status: Status,
    url: string,
    timestamp: Stamp,
    targetPath: string)

  // ---------------------------------------------------------------------
  // Filename fallback chain

  predicate HasTargetPath(d: RawDownload)
  {
    d.target.Some? && d.target.value.path != ""
  }

  /** The three locals the target probe leaves behind. */
  datatype Probe = Probe(filename: string, targetPath: string, fileExists: bool)

  const PathSeparators: set<char> := {'/', '\\'}

  /** `path.split(/[\\/]/).pop() || "ErrorInPathUtil"`. */
  function PathFallback(path: string): string
  {
    var last := LastPiece(Split(path, PathSeparators));
    if last != "" then last else "ErrorInPathUtil"
  }

  function ProbeTarget(d: RawDownload, probe: string -> FileProbe): Probe
  {
    if !HasTargetPath(d) then Probe("Unknown Filename", "", false)
    else
      var path := d.target.value.path;
      match probe(path)
      case Probed(e, leaf) => Probe(leaf, path, e)
      case LeafFailed(e) => Probe(PathFallback(path), "", e)
      case InitFailed => Probe(PathFallback(path), "", false)
  }

  /** The pathname's last non-empty piece of the final two. */
  function UrlPathFilename(pathname: string): (f: string)
    ensures f != ""
    ensures f == "Unknown from URL Path" || forall j :: 0 <= j < |f| ==> f[j] != '/'
    ensures pathname == "" ==> f == "Unknown from URL Path"
  {
    SplitPiecesFree(pathname, {'/'});
    var f := LastNonEmptyOfTwo(Split(pathname, {'/'}));
    if f != "" then f else "Unknown from URL Path"
  }

  /** The fallback on the raw URL text: last non-empty of the final two
      `/`-pieces, cut at the first `?`. */
  function RawUrlFilename(url: string): string
  {
    var part := LastNonEmptyOfTwo(Split(url, {'/'}));
    var f := Split(part, {'?'})[0];
    if f != "" then f else "Invalid URL Filename"
  }

  function UrlFilename(url: string, parseUrl: string -> Option<string>): string
  {
    match parseUrl(url)
    case Some(pathname) => UrlPathFilename(pathname)
    case None => RawUrlFilename(url)
  }

  predicate IsPlaceholder(filename: string)
  {
    filename == "Unknown Filename" || filename == "ErrorInPathUtil"
  }

  /** The whole chain, ending in `String(filename || "FN_MISSING")`. */
  function ResolveFilename(d: RawDownload, p: Probe, parseUrl: string -> Option<string>): string
  {
    var f := if IsPlaceholder(p.filename) && d.sourceUrl != "" then UrlFilename(d.sourceUrl, parseUrl)
             else p.filename;
    if f != "" then f else "FN_MISSING"
  }

  // ---------------------------------------------------------------------
  // Status and size

  /** The status before the on-disk check. */
  function PrecedenceStatus(d: RawDownload): Status
  {
    if d.succeeded then Completed
    else if d.error || d.canceled then Failed
    else if d.stopped || d.hasPartialData || d.state == StatePaused || d.state == StateDownloading then Paused
    else Unknown
  }

  function DownloadStatus(d: RawDownload, p: Probe): Status
  {
    if HasTargetPath(d) && !p.fileExists then Deleted else PrecedenceStatus(d)
  }

  datatype ByteCounts = ByteCounts(total: nat, progress: nat)

  /** The counts after the completed-size adjustment. */
  function ReportedBytes(d: RawDownload): ByteCounts
  {
    if d.succeeded then
      var total := if d.target.Some? && d.target.value.size != 0 && d.target.value.size > d.totalBytes
                   then d.target.value.size else d.totalBytes;
      ByteCounts(total, total)
    else ByteCounts(d.totalBytes, d.bytesTransferred)
  }

  /** The counts after the zero-total backfill as well. */
  function Bytes(d: RawDownload): ByteCounts
  {
    var b := ReportedBytes(d);
    if PrecedenceStatus(d) == Completed && b.total == 0 && b.progress > 0 then ByteCounts(b.progress, b.progress)
    else b
  }

  function Timestamp(d: RawDownload, now: int): Stamp
  {
    if Present(d.endTime) then d.endTime.value
    else if Present(d.startTime) then d.startTime.value
    else Num(now)
  }

  /** One raw record as the panel's item. */
  function Normalize(d: RawDownload, host: Host): Item
  {
    var p := ProbeTarget(d, host.probe);
    Item(
      d.id,
      ResolveFilename(d, p, host.parseUrl),
      Bytes(d).total,
      DownloadStatus(d, p),
      if d.sourceUrl != "" then d.sourceUrl else "URL_MISSING",
      Timestamp(d, host.now),
      p.targetPath)
  }

  function NormalizeAll(raw: seq<RawDownload>, host: Host): (r: seq<Item>)
    ensures |r| == |raw|
    ensures forall i :: 0 <= i < |raw| ==> r[i] == Normalize(raw[i], host)
  {
    seq(|raw|, i requires 0 <= i < |raw| => Normalize(raw[i], host))
  }

  /** The fetch-time filter: a truthy timestamp, and the search term when
      one is set. */
  predicate Keep(item: Item, term: string)
  {
    Present(Some(item.timestamp)) && (if term != "" then MatchesTerm(item.filename, term) else true)
  }

  /** `fetchDownloads`: all records normalised, then filtered; [] when the
      host threw. */
  function FetchDownloads(host: Host, term: string): seq<Item>
  {
    match host.list
    case None => []
    case Some(raw) => Filter(NormalizeAll(raw, host), (x: Item) => Keep(x, term))
  }

  // ---------------------------------------------------------------------
  // Properties of normalisation

  /** Status precedence: success beats failure, failure beats the paused
      states, and the on-disk check overrides all of them. */
  lemma StatusOfRecord(d: RawDownload, host: Host)
    ensures var s := Normalize(d, host).status; var p := ProbeTarget(d, host.probe);
      && (s == Deleted <==> HasTargetPath(d) && !p.fileExists)
      && (s != Deleted ==>
           && (s == Completed <==> d.succeeded)
           && (s == Failed <==> !d.succeeded && (d.error || d.canceled))
           && (s == Paused <==> !d.succeeded && !d.error && !d.canceled
                                && (d.stopped || d.hasPartialData || d.state != OtherState))
           && (s == Unknown <==> !d.succeeded && !d.error && !d.canceled && !d.stopped
                                 && !d.hasPartialData && d.state == OtherState))
  {
  }

  /** A record naming a target file ends as deleted when the file is missing
      or the probe threw before answering, whatever its flags say. */
  lemma MissingFileIsDeleted(d: RawDownload, host: Host)
    requires HasTargetPath(d)
    requires host.probe(d.target.value.path).InitFailed?
             || !host.probe(d.target.value.path).found
    ensures Normalize(d, host).status == Deleted
    ensures host.probe(d.target.value.path).InitFailed? ==> Normalize(d, host).targetPath == ""
  {
  }

  /** A record without a target path is never deleted. */
  lemma NoTargetNeverDeleted(d: RawDownload, host: Host)
    requires !HasTargetPath(d)
    ensures Normalize(d, host).status == PrecedenceStatus(d)
    ensures Normalize(d, host).targetPath == ""
  {
  }

  /** A completed record's size is the larger of the reported total and the
      file size, and its progress equals it; otherwise the size is the
      reported total. */
  lemma CompletedSize(d: RawDownload)
    ensures d.succeeded ==>
      && Bytes(d).total == (if d.target.Some? && d.target.value.size > d.totalBytes then d.target.value.size else d.totalBytes)
      && Bytes(d).progress == Bytes(d).total
    ensures !d.succeeded ==> Bytes(d).total == d.totalBytes
  {
  }

  /** The zero-total backfill can never fire: progress was just set to the
      total. */
  lemma BackfillUnreachable(d: RawDownload)
    ensures !(PrecedenceStatus(d) == Completed && ReportedBytes(d).total == 0 && ReportedBytes(d).progress > 0)
    ensures Bytes(d) == ReportedBytes(d)
  {
  }

  lemma {:induction false} SplitPiecesFree(s: string, seps: set<char>)
    ensures forall i, j :: 0 <= i < |Split(s, seps)| && 0 <= j < |Split(s, seps)[i]| ==> Split(s, seps)[i][j] !in seps
  {
    if s != [] {
      SplitPiecesFree(s[1..], seps);
      var rest := Split(s[1..], seps);
      var r := Split(s, seps);
      if s[0] !in seps {
        forall i, j | 0 <= i < |r| && 0 <= j < |r[i]| ensures r[i][j] !in seps {
          if i == 0 {
            if j > 0 { assert r[0][j] == rest[0][j - 1]; }
          } else {
            assert r[i] == rest[i];
          }
        }
      } else {
        forall i, j | 0 <= i < |r| && 0 <= j < |r[i]| ensures r[i][j] !in seps {
          assert r[i] == rest[i - 1];
        }
      }
    }
  }

  /** The path-split fallback is the text after the last `/` or `\` (i is
      where it starts), or the placeholder when that text is empty: for an
      empty path or one ending in a separator. */
  lemma PathFallbackIsLeaf(path: string, i: nat)
    requires LastPieceStart(path, PathSeparators, i)
    ensures PathFallback(path) == if i < |path| then path[i..] else "ErrorInPathUtil"
  {
    LastPieceAt(path, PathSeparators, i);
  }

  /** A URL pathname not ending in `/` names the file after its last `/`. */
  lemma UrlPathFilenameLeaf(pathname: string, i: nat)
    requires LastPieceStart(pathname, {'/'}, i) && i < |pathname|
    ensures UrlPathFilename(pathname) == pathname[i..]
  {
    PopOrPopAt(pathname, '/', i);
  }

  /** A URL pathname ending in `/` names the segment before that slash, or
      the placeholder when that segment is empty. */
  lemma UrlPathFilenameTrailingSlash(p: string, i: nat)
    requires LastPieceStart(p, {'/'}, i)
    ensures UrlPathFilename(p + "/") == if i < |p| then p[i..] else "Unknown from URL Path"
  {
    PopOrPopTrailing(p, '/', i);
  }

  /** The raw-URL fallback: the `/`-piece the pops select, cut before its
      first `?` (j is where that `?` is, or the piece's end); the
      placeholder when nothing is left. */
  lemma RawUrlFilenameValue(url: string, j: nat)
    requires var part := LastNonEmptyOfTwo(Split(url, {'/'}));
      j <= |part| && (forall k :: 0 <= k < j ==> part[k] != '?') && (j == |part| || part[j] == '?')
    ensures var part := LastNonEmptyOfTwo(Split(url, {'/'}));
      RawUrlFilename(url) == if j > 0 then part[..j] else "Invalid URL Filename"
  {
    FirstPieceAt(LastNonEmptyOfTwo(Split(url, {'/'})), {'?'}, j);
  }

  /** The raw-URL fallback yields a name with no `/` and no `?`, or its
      placeholder. */
  lemma RawUrlFilenameClean(url: string)
    ensures var f := RawUrlFilename(url);
      f == "Invalid URL Filename" || (f != "" && forall j :: 0 <= j < |f| ==> f[j] != '/' && f[j] != '?')
  {
    var pieces := Split(url, {'/'});
    var part := LastNonEmptyOfTwo(pieces);
    SplitPiecesFree(url, {'/'});
    SplitPiecesFree(part, {'?'});
    if part != "" {
      var k :| 0 <= k < |pieces| && pieces[k] == part;
      var f := Split(part, {'?'})[0];
      SplitFirstIsPrefix(part, {'?'});
      forall j | 0 <= j < |f| ensures f[j] != '/' {
        assert f[j] == part[j];
        assert pieces[k][j] !in {'/'};
      }
    }
  }

  /** The first piece of a split is the text before the first separator. */
  lemma {:induction false} SplitFirstIsPrefix(s: string, seps: set<char>)
    ensures var p := Split(s, seps)[0];
      && p <= s
      && (forall k :: 0 <= k < |p| ==> p[k] !in seps)
      && (|p| < |s| ==> s[|p|] in seps)
  {
    if s != [] {
      SplitFirstIsPrefix(s[1..], seps);
      var p, q := Split(s, seps)[0], Split(s[1..], seps)[0];
      if s[0] !in seps {
        assert p == [s[0]] + q;
        forall k | 0 <= k < |p| ensures p[k] !in seps {
          if k > 0 { assert p[k] == q[k - 1]; }
        }
      }
    }
  }

  /** j is where the first separator sits (or the end): the first piece is
      the text before it. */
  lemma FirstPieceAt(s: string, seps: set<char>, j: nat)
    requires j <= |s| && (forall k :: 0 <= k < j ==> s[k] !in seps) && (j == |s| || s[j] in seps)
    ensures Split(s, seps)[0] == s[..j]
  {
    SplitFirstIsPrefix(s, seps);
    var p := Split(s, seps)[0];
    assert p == s[..|p|];
  }

  /** The URL is consulted only while the name is still a placeholder. */
  lemma UrlOnlyForPlaceholders(d: RawDownload, host: Host)
    ensures var p := ProbeTarget(d, host.probe);
      (!IsPlaceholder(p.filename) || d.sourceUrl == "") ==>
        Normalize(d, host).filename == (if p.filename != "" then p.filename else "FN_MISSING")
    ensures HasTargetPath(d) && host.probe(d.target.value.path).Probed?
            && host.probe(d.target.value.path).leafName != ""
            && !IsPlaceholder(host.probe(d.target.value.path).leafName)
            ==> Normalize(d, host).filename == host.probe(d.target.value.path).leafName
  {
  }

  /** Every item has a non-empty name. */
  lemma FilenameNeverEmpty(d: RawDownload, host: Host)
    ensures Normalize(d, host).filename != ""
  {
  }

  // ---------------------------------------------------------------------
  // Properties of the fetch

  /** The fetch keeps exactly the normalised records that pass the filter,
      in raw order; [] when the host threw. */
  lemma FetchSelects(host: Host, term: string)
    ensures host.list.None? ==> FetchDownloads(host, term) == []
    ensures host.list.Some? ==>
      var r := FetchDownloads(host, term);
      var all := NormalizeAll(host.list.value, host);
      && IsSubsequence(r, all)
      && (forall x :: x in r <==> x in all && Keep(x, term))
      && (forall x :: multiset(r)[x] == if Keep(x, term) then multiset(all)[x] else 0)
      && (forall x :: x in r && term != "" ==> MatchesTerm(x.filename, term))
  {
    if host.list.Some? {
      FilterFacts(NormalizeAll(host.list.value, host), (x: Item) => Keep(x, term));
    }
  }

  /** With no search term and a non-zero clock nothing is dropped: the
      timestamp always falls back to now. */
  lemma FetchWithoutTermKeepsAll(host: Host)
    requires host.list.Some? && host.now != 0
    ensures FetchDownloads(host, "") == NormalizeAll(host.list.value, host)
    ensures |FetchDownloads(host, "")| == |host.list.value|
  {
    var all := NormalizeAll(host.list.value, host);
    forall i | 0 <= i < |all| ensures Keep(all[i], "") {
      assert Present(Some(Timestamp(host.list.value[i], host.now)));
    }
    FilterAll(all, (x: Item) => Keep(x, ""));
  }

  // ---------------------------------------------------------------------
  // Day buckets

  datatype Weekday = Monday | Tuesday | Wednesday | Thursday | Friday | Saturday | Sunday

  function WeekdayName(w: Weekday): string
  {
    match w
    case Monday => "Monday"
    case Tuesday => "Tuesday"
    case Wednesday => "Wednesday"
    case Thursday => "Thursday"
    case Friday => "Friday"
    case Saturday => "Saturday"
    case Sunday => "Sunday"
  }

  const MsPerDay: int := 1000 * 60 * 60 * 24

  /** The fixed display order of the group labels. */
  const Order: seq<string> := ["Today", "Yesterday"]
    + [WeekdayName(Monday), WeekdayName(Tuesday), WeekdayName(Wednesday), WeekdayName(Thursday),
       WeekdayName(Friday), WeekdayName(Saturday), WeekdayName(Sunday)]
    + ["Last Month", "Earlier"]

  /** The locale names weekdays as the order list does. */
  ghost predicate EnglishWeekdays(loc: Locale)
  {
    forall t :: exists w: Weekday :: loc.weekdayName(t) == WeekdayName(w)
  }

  /** `Math.floor((now - ts) / 86400000)`. */
  function DiffDays(now: int, ts: int): (d: int)
    ensures MsPerDay * d <= now - ts < MsPerDay * (d + 1)
  {
    (now - ts) / MsPerDay
  }

  function GroupKey(ts: Stamp, now: int, loc: Locale): string
  {
    var diff := DiffDays(now, ts.ms);
    if diff == 0 && loc.dayOfMonth(now) == loc.dayOfMonth(ts.ms) then "Today"
    else if diff == 1 then "Yesterday"
    else if diff < 7 then loc.weekdayName(ts.ms)
    else if diff < 30 then "Last Month"
    else "Earlier"
  }

  /** The bucket boundaries, including the same-day-of-month quirk: a
      zero-day item from the previous calendar day falls to its weekday. */
  lemma GroupKeyBuckets(ts: Stamp, now: int, loc: Locale)
    ensures var k := GroupKey(ts, now, loc); var t := ts.ms;
      && (0 <= now - t < MsPerDay && loc.dayOfMonth(now) == loc.dayOfMonth(t) ==> k == "Today")
      && (MsPerDay <= now - t < 2 * MsPerDay ==> k == "Yesterday")
      && (0 <= now - t < MsPerDay && loc.dayOfMonth(now) != loc.dayOfMonth(t) ==> k == loc.weekdayName(t))
      && (2 * MsPerDay <= now - t < 7 * MsPerDay ==> k == loc.weekdayName(t))
      && (now < t ==> k == loc.weekdayName(t))
      && (7 * MsPerDay <= now - t < 30 * MsPerDay ==> k == "Last Month")
      && (now - t >= 30 * MsPerDay ==> k == "Earlier")
  {
  }

  /** Under English weekday names every bucket is one of the order list's
      labels, so no item is left out of the rendered list. */
  lemma GroupKeyInOrder(ts: Stamp, now: int, loc: Locale)
    requires EnglishWeekdays(loc)
    ensures GroupKey(ts, now, loc) in Order
  {
    var w: Weekday :| loc.weekdayName(ts.ms) == WeekdayName(w);
  }

  // ---------------------------------------------------------------------
  // Rendered list (specification of `renderList`)

  function TsKey(x: Item): real
  {
    x.timestamp.ms as real
  }

  /** Whether an item falls in the bucket labelled k. */
  function InBucket(k: string, now: int, loc: Locale): Item -> bool
  {
    (x: Item) => GroupKey(x.timestamp, now, loc) == k
  }

  /** Whether an item falls in one of the buckets labelled by keys. */
  function InBuckets(keys: seq<string>, now: int, loc: Locale): Item -> bool
  {
    (x: Item) => GroupKey(x.timestamp, now, loc) in keys
  }

  /** The items of one bucket, in encounter order. */
  function InGroup(ds: seq<Item>, k: string, now: int, loc: Locale): seq<Item>
  {
    Filter(ds, InBucket(k, now, loc))
  }

  function GroupBlock(ds: seq<Item>, k: string, now: int, loc: Locale): seq<Row<Item>>
  {
    var g := InGroup(ds, k, now, loc);
    if g == [] then [] else [Header(k)] + EntryRows(SortDesc(g, TsKey))
  }

  function GroupedRows(ds: seq<Item>, keys: seq<string>, now: int, loc: Locale): seq<Row<Item>>
  {
    if keys == [] then []
    else GroupedRows(ds, keys[..|keys| - 1], now, loc) + GroupBlock(ds, keys[|keys| - 1], now, loc)
  }

  function EmptyMessage(term: string): string
  {
    if term != "" then "Try a different search term." else "Your download history is empty."
  }

  /** The rows `renderList` leaves in the container. */
  function ListRows(ds: seq<Item>, term: string, now: int, loc: Locale): seq<Row<Item>>
  {
    if |ds| == 0 then [EmptyState("No downloads found", EmptyMessage(term))]
    else GroupedRows(ds, Order, now, loc) + [Spacer]
  }

  /** Whether a label's bucket holds any item. */
  function NonEmptyBucket(ds: seq<Item>, now: int, loc: Locale): string -> bool
  {
    (k: string) => InGroup(ds, k, now, loc) != []
  }

  /** A block carries its label's header exactly when the bucket is non-empty. */
  lemma GroupBlockHeaders(ds: seq<Item>, k: string, now: int, loc: Locale)
    ensures Headers(GroupBlock(ds, k, now, loc)) == if InGroup(ds, k, now, loc) != [] then [k] else []
  {
    var g := InGroup(ds, k, now, loc);
    if g != [] {
      EntriesOfEntryRows(SortDesc(g, TsKey));
      HeadersAppend([Header(k)], EntryRows(SortDesc(g, TsKey)));
    }
  }

  /** The labels among keys whose bucket holds an item, in keys' order. */
  function NonEmptyKeys(ds: seq<Item>, keys: seq<string>, now: int, loc: Locale): seq<string>
  {
    if keys == [] then []
    else
      var k := keys[|keys| - 1];
      NonEmptyKeys(ds, keys[..|keys| - 1], now, loc) + (if InGroup(ds, k, now, loc) != [] then [k] else [])
  }

  /** One header per non-empty bucket, in the order of keys. */
  lemma {:induction false} GroupedHeaders(ds: seq<Item>, keys: seq<string>, now: int, loc: Locale)
    ensures Headers(GroupedRows(ds, keys, now, loc)) == NonEmptyKeys(ds, keys, now, loc)
  {
    if keys != [] {
      var init, k := keys[..|keys| - 1], keys[|keys| - 1];
      GroupedHeaders(ds, init, now, loc);
      GroupBlockHeaders(ds, k, now, loc);
      HeadersAppend(GroupedRows(ds, init, now, loc), GroupBlock(ds, k, now, loc));
    }
  }

  /** The non-empty labels are what filtering the keys by a non-empty bucket keeps. */
  lemma {:induction false} NonEmptyKeysFilter(ds: seq<Item>, keys: seq<string>, now: int, loc: Locale)
    ensures NonEmptyKeys(ds, keys, now, loc) == Filter(keys, NonEmptyBucket(ds, now, loc))
  {
    if keys != [] {
      var init, k := keys[..|keys| - 1], keys[|keys| - 1];
      NonEmptyKeysFilter(ds, init, now, loc);
      assert keys == init + [k];
      FilterAppend(init, [k], NonEmptyBucket(ds, now, loc));
    }
  }

  /** Within a block the items are the bucket's, newest first, ties in
      encounter order. */
  lemma GroupBlockSorted(ds: seq<Item>, k: string, now: int, loc: Locale)
    ensures var g := InGroup(ds, k, now, loc);
      && Entries(GroupBlock(ds, k, now, loc)) == SortDesc(g, TsKey)
      && SortedDesc(Entries(GroupBlock(ds, k, now, loc)), TsKey)
      && multiset(Entries(GroupBlock(ds, k, now, loc))) == multiset(g)
  {
    var g := InGroup(ds, k, now, loc);
    SortDescFacts(g, TsKey);
    EntriesOfEntryRows(SortDesc(g, TsKey));
    if g != [] {
      EntriesAppend([Header(k)], EntryRows(SortDesc(g, TsKey)));
    }
  }

  /** The entries of the blocks for distinct keys are the items whose
      bucket is one of those keys. */
  lemma {:induction false} GroupedEntries(ds: seq<Item>, keys: seq<string>, now: int, loc: Locale)
    requires forall i, j :: 0 <= i < j < |keys| ==> keys[i] != keys[j]
    ensures multiset(Entries(GroupedRows(ds, keys, now, loc)))
            == multiset(Filter(ds, InBuckets(keys, now, loc)))
  {
    if keys == [] {
      FilterNone(ds, InBuckets(keys, now, loc));
    } else {
      var init, k := keys[..|keys| - 1], keys[|keys| - 1];
      var inInit := InBuckets(init, now, loc);
      var isK := InBucket(k, now, loc);
      var inKeys := InBuckets(keys, now, loc);
      var before := GroupedRows(ds, init, now, loc);
      assert multiset(Entries(before)) == multiset(Filter(ds, inInit)) by {
        GroupedEntries(ds, init, now, loc);
      }
      assert multiset(Entries(GroupedRows(ds, keys, now, loc)))
             == multiset(Entries(before)) + multiset(Filter(ds, isK)) by {
        EntriesAppend(before, GroupBlock(ds, k, now, loc));
        GroupBlockSorted(ds, k, now, loc);
      }
      assert multiset(Filter(ds, inKeys)) == multiset(Filter(ds, inInit)) + multiset(Filter(ds, isK)) by {
        assert k !in init;
        FilterDisjointUnion(ds, inInit, isK, inKeys);
      }
    }
  }

  lemma OrderDistinct()
    ensures forall i, j :: 0 <= i < j < |Order| ==> Order[i] != Order[j]
  {
  }

  /** The rendered list holds every fetched item exactly once when the
      locale names weekdays in English; an empty list renders only the
      empty state. */
  lemma ListRowsComplete(ds: seq<Item>, term: string, now: int, loc: Locale)
    requires EnglishWeekdays(loc)
    ensures |ds| == 0 ==> ListRows(ds, term, now, loc) == [EmptyState("No downloads found", EmptyMessage(term))]
    ensures |ds| > 0 ==> multiset(Entries(ListRows(ds, term, now, loc))) == multiset(ds)
    ensures |ds| > 0 ==> Headers(ListRows(ds, term, now, loc))
                         == Filter(Order, NonEmptyBucket(ds, now, loc))
  {
    if |ds| > 0 {
      var grouped := GroupedRows(ds, Order, now, loc);
      assert ListRows(ds, term, now, loc) == grouped + [Spacer];
      assert Entries(ListRows(ds, term, now, loc)) == Entries(grouped) by {
        EntriesAppend(grouped, [Spacer]);
      }
      assert Headers(ListRows(ds, term, now, loc)) == Headers(grouped) by {
        HeadersAppend(grouped, [Spacer]);
      }
      assert multiset(Entries(grouped)) == multiset(Filter(ds, InBuckets(Order, now, loc))) by {
        OrderDistinct();
        GroupedEntries(ds, Order, now, loc);
      }
      assert Filter(ds, InBuckets(Order, now, loc)) == ds by {
        forall i | 0 <= i < |ds| ensures InBuckets(Order, now, loc)(ds[i]) {
          GroupKeyInOrder(ds[i].timestamp, now, loc);
        }
        FilterAll(ds, InBuckets(Order, now, loc));
      }
      GroupedHeaders(ds, Order, now, loc);
      NonEmptyKeysFilter(ds, Order, now, loc);
    }
  }

  /** An item whose weekday name is not in the order list (another locale)
      is dropped from the rendered list. */
  lemma ForeignWeekdayDropped(ds: seq<Item>, term: string, now: int, loc: Locale, x: Item)
    requires GroupKey(x.timestamp, now, loc) !in Order
    ensures x !in multiset(Entries(ListRows(ds, term, now, loc)))
  {
    if |ds| > 0 {
      var inOrder := InBuckets(Order, now, loc);
      var grouped := GroupedRows(ds, Order, now, loc);
      assert Entries(ListRows(ds, term, now, loc)) == Entries(grouped) by {
        assert ListRows(ds, term, now, loc) == grouped + [Spacer];
        EntriesAppend(grouped, [Spacer]);
      }
      assert multiset(Entries(grouped)) == multiset(Filter(ds, inOrder)) by {
        OrderDistinct();
        GroupedEntries(ds, Order, now, loc);
      }
      assert x !in Filter(ds, inOrder) by {
        FilterFacts(ds, inOrder);
      }
    }
  }

  /** Appending one item extends exactly its own bucket. */
  lemma InGroupSnoc(ds: seq<Item>, d: Item, k: string, now: int, loc: Locale)
    ensures InGroup(ds + [d], k, now, loc)
            == InGroup(ds, k, now, loc) + (if GroupKey(d.timestamp, now, loc) == k then [d] else [])
  {
    FilterAppend(ds, [d], InBucket(k, now, loc));
  }

  lemma GroupedRowsSnoc(ds: seq<Item>, keys: seq<string>, j: nat, now: int, loc: Locale)
    requires j < |keys|
    ensures GroupedRows(ds, keys[..j + 1], now, loc) == GroupedRows(ds, keys[..j], now, loc) + GroupBlock(ds, keys[j], now, loc)
  {
    assert keys[..j + 1][..j] == keys[..j];
  }

  /** The first loop of `renderList`: items bucketed by key, each bucket in
      encounter order. */
  method CollectGroups(downloads: seq<Item>, now: int, loc: Locale) returns (groups: map<string, seq<Item>>)
    ensures forall k :: k in groups <==> InGroup(downloads, k, now, loc) != []
    ensures forall k :: k in groups ==> groups[k] == InGroup(downloads, k, now, loc)
  {
    groups := map[];
    var i := 0;
    while i < |downloads|
      invariant 0 <= i <= |downloads|
      invariant forall k :: k in groups <==> InGroup(downloads[..i], k, now, loc) != []
      invariant forall k :: k in groups ==> groups[k] == InGroup(downloads[..i], k, now, loc)
    {
      var d := downloads[i];
      var key := GroupKey(d.timestamp, now, loc);
      if key !in groups {
        groups := groups[key := []];
      }
      groups := groups[key := groups[key] + [d]];
      assert downloads[..i + 1] == downloads[..i] + [d];
      forall k ensures InGroup(downloads[..i + 1], k, now, loc)
                       == InGroup(downloads[..i], k, now, loc) + (if key == k then [d] else []) {
        InGroupSnoc(downloads[..i], d, k, now, loc);
      }
      i := i + 1;
    }
    assert downloads[..i] == downloads;
  }

  /** A bucket drawn from the collected map is the specified block. */
  lemma BlockFromGroups(downloads: seq<Item>, groups: map<string, seq<Item>>, key: string, now: int, loc: Locale)
    requires key in groups <==> InGroup(downloads, key, now, loc) != []
    requires key in groups ==> groups[key] == InGroup(downloads, key, now, loc)
    ensures GroupBlock(downloads, key, now, loc)
            == if key in groups then [Header(key)] + EntryRows(SortDesc(groups[key], TsKey)) else []
  {
  }

  /** The second loop of `renderList`: one block per key of the order list
      that has items. */
  method AssembleRows(downloads: seq<Item>, groups: map<string, seq<Item>>, order: seq<string>, now: int, loc: Locale)
    returns (out: seq<Row<Item>>)
    requires forall k :: k in groups <==> InGroup(downloads, k, now, loc) != []
    requires forall k :: k in groups ==> groups[k] == InGroup(downloads, k, now, loc)
    ensures out == GroupedRows(downloads, order, now, loc)
  {
    out := [];
    var j := 0;
    while j < |order|
      invariant 0 <= j <= |order|
      invariant out == GroupedRows(downloads, order[..j], now, loc)
    {
      var key := order[j];
      BlockFromGroups(downloads, groups, key, now, loc);
      GroupedRowsSnoc(downloads, order, j, now, loc);
      if key in groups {
        out := out + ([Header(key)] + EntryRows(SortDesc(groups[key], TsKey)));
      }
      j := j + 1;
    }
    assert order[..j] == order;
  }

  // ---------------------------------------------------------------------
  // Actions

  /** What an action asks of the host. */
  datatype Effect = Launch(path: string) | Reveal(path: string) | AlertMissing | NoEffect

  /** `handleAction`: open and reveal only an existing file; a probe that
      throws is caught and does nothing. `initWithPath` refuses a path that
      is not absolute, so the empty target path of an item whose probe
      threw at fetch time always lands in the catch. */
  function HandleAction(item: Item, action: string, probe: string -> FileProbe): (e: Effect)
    ensures e.Launch? ==> e.path == item.targetPath
    ensures e.Reveal? ==> e.path == item.targetPath
    ensures item.targetPath == "" ==> e == NoEffect
  {
    if item.targetPath == "" then NoEffect
    else match probe(item.targetPath)
    case InitFailed => NoEffect
    case _ =>
      var found := probe(item.targetPath).found;
      if action == "open-external" || action == "open" then (if found then Launch(item.targetPath) else AlertMissing)
      else if action == "show" then (if found then Reveal(item.targetPath) else AlertMissing)
      else NoEffect
  }

  /** The local-file object opens the item's path and finds a file there. */
  predicate FileThere(item: Item, probe: string -> FileProbe)
  {
    item.targetPath != "" && !probe(item.targetPath).InitFailed? && probe(item.targetPath).found
  }

  /** Launch and reveal happen exactly for an existing file; a missing file
      alerts; any other action name does nothing. */
  lemma HandleActionGating(item: Item, action: string, probe: string -> FileProbe)
    ensures var e := HandleAction(item, action, probe);
      && (e.Launch? <==> (action == "open" || action == "open-external") && FileThere(item, probe))
      && (e.Reveal? <==> action == "show" && FileThere(item, probe))
      && (e == AlertMissing <==> (action == "open" || action == "open-external" || action == "show")
                                  && item.targetPath != "" && !probe(item.targetPath).InitFailed?
                                  && !FileThere(item, probe))
      && (action != "open" && action != "open-external" && action != "show" ==> e == NoEffect)
  {
  }

  /** An item whose probe threw at fetch time kept no target path, so every
      action on it is caught and does nothing; only an item that kept its
      path can reach the missing-file alert. */
  lemma ProbeFailureInert(d: RawDownload, host: Host, action: string, probe: string -> FileProbe)
    requires HasTargetPath(d) && !host.probe(d.target.value.path).Probed?
    ensures Normalize(d, host).status == Deleted || host.probe(d.target.value.path).found
    ensures HandleAction(Normalize(d, host), action, probe) == NoEffect
  {
  }

  /** The folder icon: inert for a deleted item, "show" otherwise. */
  function FolderIconClick(item: Item, probe: string -> FileProbe): (e: Effect)
    ensures item.status == Deleted ==> e == NoEffect
    ensures item.status != Deleted ==> (e.Reveal? <==> FileThere(item, probe)) && !e.Launch?
  {
    if item.status == Deleted then NoEffect else HandleAction(item, "show", probe)
  }

  // ---------------------------------------------------------------------
  // The panel

  class DownloadsPanel {
    var attached: bool
    var rows: seq<Row<Item>>
    var searchTerm: string
    var cached: Option<seq<Item>>
    var isFetching: bool

    constructor ()
      ensures !attached && rows == [] && searchTerm == "" && cached == None && !isFetching
    {
      attached, rows, searchTerm, cached, isFetching := false, [], "", None, false;
    }

    /** `renderList`: nothing without a container; otherwise the container
        holds exactly ListRows. */
    method RenderList(downloads: seq<Item>, now: int, loc: Locale)
      modifies this
      ensures attached == old(attached) && searchTerm == old(searchTerm)
      ensures cached == old(cached) && isFetching == old(isFetching)
      ensures rows == if attached then ListRows(downloads, searchTerm, now, loc) else old(rows)
    {
      if !attached {
        return;
      }
      if |downloads| == 0 {
        rows := [EmptyState("No downloads found", EmptyMessage(searchTerm))];
        return;
      }
      var groups := CollectGroups(downloads, now, loc);
      var out := AssembleRows(downloads, groups, Order, now, loc);
      rows := out + [Spacer];
    }

    /** `init`'s first half: a no-op while a fetch is in flight, otherwise
        the fetch starts. */
    method StartInit() returns (started: bool)
      modifies this
      ensures started == !old(isFetching) && isFetching
      ensures attached == old(attached) && rows == old(rows)
      ensures searchTerm == old(searchTerm) && cached == old(cached)
    {
      if isFetching {
        return false;
      }
      isFetching := true;
      return true;
    }

    /** `init` after the fetch resolved: the cache is replaced and the
        in-flight flag cleared. */
    method FinishInit(host: Host)
      requires isFetching
      modifies this
      ensures cached == Some(FetchDownloads(host, old(searchTerm))) && !isFetching
      ensures attached == old(attached) && rows == old(rows) && searchTerm == old(searchTerm)
    {
      cached := Some(FetchDownloads(host, searchTerm));
      isFetching := false;
    }

    /** `sync`: always refetch, replace the cache and re-render. */
    method Sync(host: Host, loc: Locale)
      modifies this
      ensures cached == Some(FetchDownloads(host, old(searchTerm)))
      ensures rows == if attached then ListRows(FetchDownloads(host, old(searchTerm)), searchTerm, host.now, loc)
                      else old(rows)
      ensures attached == old(attached) && searchTerm == old(searchTerm) && isFetching == old(isFetching)
    {
      var fetched := FetchDownloads(host, searchTerm);
      cached := Some(fetched);
      RenderList(fetched, host.now, loc);
    }

    /** `render`: a new container. A cache (even an empty one) is drawn at
        once and a sync follows; without one a loading row stands until
        the deferred fetch. */
    method Open(host: Host, loc: Locale)
      modifies this
      ensures attached && searchTerm == old(searchTerm) && isFetching == old(isFetching)
      ensures old(cached).Some? ==>
        && cached == Some(FetchDownloads(host, old(searchTerm)))
        && rows == ListRows(FetchDownloads(host, old(searchTerm)), searchTerm, host.now, loc)
      ensures old(cached).None? ==>
        && cached == None
        && rows == [EmptyState("Loading downloads...", "Hang tight, we're gathering your download history.")]
    {
      attached := true;
      rows := [];
      if cached.Some? {
        RenderList(cached.value, host.now, loc);
        Sync(host, loc);
      } else {
        rows := [EmptyState("Loading downloads...", "Hang tight, we're gathering your download history.")];
      }
    }

    /** The timer `render` schedules when there is no cache: fetch, cache,
        and replace the loading row by the list. */
    method DeferredLoad(host: Host, loc: Locale)
      modifies this
      ensures cached == Some(FetchDownloads(host, old(searchTerm)))
      ensures rows == if attached then ListRows(FetchDownloads(host, old(searchTerm)), searchTerm, host.now, loc)
                      else old(rows)
      ensures attached == old(attached) && searchTerm == old(searchTerm) && isFetching == old(isFetching)
    {
      var fetched := FetchDownloads(host, searchTerm);
      cached := Some(fetched);
      RenderList(fetched, host.now, loc);
    }
  }
}
