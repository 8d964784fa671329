/** The Media panel: the downloads it reads (with its own, simpler status
    rule), the image/video filter, the newest-first order over normalised
    timestamps, the item count it reports, and the grid's column count. */
module Media {
  import opened Common
  import D = Downloads
  import Spaces

  // ---------------------------------------------------------------------
  // Fetch

  /** Success, failure, and everything else paused; a missing file still
      overrides to deleted. */
  function MediaStatus(d: D.RawDownload, p: D.Probe): D.Status
  {
    if D.HasTargetPath(d) && !p.fileExists then D.Deleted
    else if d.succeeded then D.Completed
    else if d.error || d.canceled then D.Failed
    else D.Paused
  }

  /** One raw record as a media item: the downloads panel's filename chain
      and fallbacks, the reported total as the size. */
  function NormalizeMedia(d: D.RawDownload, host: D.Host): D.Item
  {
    var p := D.ProbeTarget(d, host.probe);
    D.Item(
      d.id,
      D.ResolveFilename(d, p, host.parseUrl),
      d.totalBytes,
      MediaStatus(d, p),
      if d.sourceUrl != "" then d.sourceUrl else "URL_MISSING",
      D.Timestamp(d, host.now),
      p.targetPath)
  }

  /** `fetchDownloads` of the media panel: every record, unfiltered; []
      when the host threw. */
  function FetchMedia(host: D.Host): (r: seq<D.Item>)
    ensures host.list.None? ==> r == []
    ensures host.list.Some? ==> |r| == |host.list.value|
    ensures host.list.Some? ==> forall i :: 0 <= i < |r| ==> r[i] == NormalizeMedia(host.list.value[i], host)
  {
    match host.list
    case None => []
    case Some(raw) => seq(|raw|, i requires 0 <= i < |raw| => NormalizeMedia(raw[i], host))
  }

  /** The media status is never unknown; it splits exactly as the record's
      flags do, after the on-disk override. */
  lemma MediaStatusFacts(d: D.RawDownload, host: D.Host)
    ensures var s := NormalizeMedia(d, host).status; var p := D.ProbeTarget(d, host.probe);
      && s != D.Unknown
      && (s == D.Deleted <==> D.HasTargetPath(d) && !p.fileExists)
      && (s != D.Deleted ==>
           && (s == D.Completed <==> d.succeeded)
           && (s == D.Failed <==> !d.succeeded && (d.error || d.canceled))
           && (s == D.Paused <==> !d.succeeded && !d.error && !d.canceled))
  {
  }

  /** The size is the reported total with no adjustment, and the timestamp
      falls back from end to start to now. */
  lemma MediaSizeAndTime(d: D.RawDownload, host: D.Host)
    ensures NormalizeMedia(d, host).size == d.totalBytes
    ensures NormalizeMedia(d, host).timestamp ==
      if D.Present(d.endTime) then d.endTime.value
      else if D.Present(d.startTime) then d.startTime.value
      else D.Num(host.now)
  {
  }

  /** The two panels agree on everything but status and size. */
  lemma AgreesWithDownloads(d: D.RawDownload, host: D.Host)
    ensures var m := NormalizeMedia(d, host); var n := D.Normalize(d, host);
      && m.id == n.id && m.filename == n.filename && m.url == n.url
      && m.timestamp == n.timestamp && m.targetPath == n.targetPath
    ensures NormalizeMedia(d, host).status == D.Paused ==> D.Normalize(d, host).status in {D.Paused, D.Unknown}
    ensures NormalizeMedia(d, host).status != D.Paused ==> NormalizeMedia(d, host).status == D.Normalize(d, host).status
  {
  }

  // ---------------------------------------------------------------------
  // Filter

  const ImageExts: seq<string> := ["jpg", "jpeg", "png", "gif", "webp", "svg", "avif", "ico", "bmp"]
  const VideoExts: seq<string> := ["mp4", "webm", "mkv", "avi", "mov"]

  /** `filename.split('.').pop().toLowerCase()`. */
  function Extension(filename: string): string
  {
    Lower(LastPiece(Split(filename, {'.'})))
  }

  predicate IsMedia(filename: string)
  {
    Extension(filename) in ImageExts || Extension(filename) in VideoExts
  }

  predicate IsVideo(filename: string)
  {
    Extension(filename) in VideoExts
  }

  /** The grid's filter for one item. */
  predicate Shown(x: D.Item, term: string)
  {
    && x.status != D.Deleted && x.status != D.Failed
    && IsMedia(x.filename)
    && (term != "" ==> MatchesTerm(x.filename, term))
  }

  function MediaItems(ds: seq<D.Item>, term: string): seq<D.Item>
  {
    Filter(ds, (x: D.Item) => Shown(x, term))
  }

  /** The extension is the lowercased text after the last dot, and the
      whole lowercased name when there is no dot. */
  lemma ExtensionFacts(filename: string)
    ensures var e := Extension(filename);
      && |e| <= |filename|
      && e == Lower(filename[|filename| - |e|..])
      && (forall j :: 0 <= j < |e| ==> e[j] != '.')
      && (|e| < |filename| ==> filename[|filename| - |e| - 1] == '.')
      && ((forall j :: 0 <= j < |filename| ==> filename[j] != '.') ==> e == Lower(filename))
  {
    SplitLastPiece(filename, {'.'});
    var last := LastPiece(Split(filename, {'.'}));
    forall j | 0 <= j < |last| ensures Extension(filename)[j] != '.' {
      assert last[j] != '.';
    }
  }

  /** With a dot at `i` and none after it, the extension is the lowercased
      rest of the name. */
  lemma ExtensionAfterLastDot(filename: string, i: nat)
    requires i < |filename| && filename[i] == '.'
    requires forall j :: i < j < |filename| ==> filename[j] != '.'
    ensures Extension(filename) == Lower(filename[i + 1..])
  {
    SplitLastPiece(filename, {'.'});
    var last := LastPiece(Split(filename, {'.'}));
    assert last == filename[i + 1..];
  }

  lemma ExtensionWithoutDot(filename: string)
    requires forall j :: 0 <= j < |filename| ==> filename[j] != '.'
    ensures Extension(filename) == Lower(filename)
  {
    ExtensionFacts(filename);
  }

  /** Whatever comes before the last dot does not matter. */
  lemma ExtensionOfSuffix(stem: string, ext: string)
    requires forall j :: 0 <= j < |ext| ==> ext[j] != '.'
    ensures Extension(stem + ['.'] + ext) == Lower(ext)
  {
    var f := stem + ['.'] + ext;
    forall j | |stem| < j < |f| ensures f[j] != '.' {
      assert f[j] == ext[j - |stem| - 1];
    }
    assert f[|stem| + 1..] == ext;
    ExtensionAfterLastDot(f, |stem|);
  }

  /** An upper-case image extension counts, whatever the name before it. */
  lemma UpperCaseExtensionCounts(stem: string)
    ensures IsMedia(stem + ".PNG") && !IsVideo(stem + ".PNG")
  {
    ExtensionOfSuffix(stem, "PNG");
    assert stem + ['.'] + "PNG" == stem + ".PNG";
    assert Lower("PNG") == "png";
  }

  /** Only the last extension matters: an image name with another
      extension after it is not media. */
  lemma OnlyLastExtensionCounts(stem: string)
    ensures !IsMedia(stem + ".png.zip")
  {
    ExtensionOfSuffix(stem + ".png", "zip");
    assert stem + ".png" + ['.'] + "zip" == stem + ".png.zip";
    assert Lower("zip") == "zip";
  }

  /** The grid keeps exactly the shown items, in their fetched order. */
  lemma MediaItemsFacts(ds: seq<D.Item>, term: string)
    ensures var r := MediaItems(ds, term);
      && IsSubsequence(r, ds)
      && (forall x :: x in r <==> x in ds && Shown(x, term))
      && (forall x :: multiset(r)[x] == if Shown(x, term) then multiset(ds)[x] else 0)
      && (forall x :: x in r ==> x.status == D.Completed || x.status == D.Paused || x.status == D.Unknown)
  {
    FilterFacts(ds, (x: D.Item) => Shown(x, term));
  }

  // ---------------------------------------------------------------------
  // Order

  /** The sort key: a numeric timestamp above 1e14 is taken as
      microseconds and scaled to milliseconds; a date gives its time. */
  function SortKey(x: D.Item): real
  {
    match x.timestamp
    case Num(n) => if n > 100_000_000_000_000 then n as real / 1000.0 else n as real
    case DateValue(ms) => ms as real
  }

  function Displayed(ds: seq<D.Item>, term: string): seq<D.Item>
  {
    SortDesc(MediaItems(ds, term), SortKey)
  }

  /** Shown items newest first by normalised time, each exactly once, ties
      in fetched order. */
  lemma DisplayedOrder(ds: seq<D.Item>, term: string)
    ensures SortedDesc(Displayed(ds, term), SortKey)
    ensures multiset(Displayed(ds, term)) == multiset(MediaItems(ds, term))
    ensures forall k :: WithKey(Displayed(ds, term), SortKey, k) == WithKey(MediaItems(ds, term), SortKey, k)
  {
    SortDescFacts(MediaItems(ds, term), SortKey);
  }

  /** A microsecond stamp sorts against a date as the same instant in
      milliseconds would: before, level with or after it exactly as the
      microseconds compare with the date's milliseconds times 1000. */
  lemma MicrosecondsSortAsMilliseconds(x: D.Item, y: D.Item)
    requires x.timestamp.Num? && x.timestamp.ms > 100_000_000_000_000 && y.timestamp.DateValue?
    ensures SortKey(x) >= SortKey(y) <==> x.timestamp.ms >= 1000 * y.timestamp.ms
    ensures SortKey(x) == SortKey(y) <==> x.timestamp.ms == 1000 * y.timestamp.ms
  {
    var n, m := x.timestamp.ms, y.timestamp.ms;
    assert SortKey(x) == n as real / 1000.0;
    assert (1000 * m) as real == 1000.0 * (m as real);
  }

  // ---------------------------------------------------------------------
  // The panel

  /** A grid card: the item, whether it previews as a video, and the file
      URL its preview loads. */
  datatype Card = Card(item: D.Item, isVideo: bool, fileUrl: string)

  function Cards(items: seq<D.Item>): (r: seq<Card>)
    ensures |r| == |items|
    ensures forall i :: 0 <= i < |items| ==>
      r[i].item == items[i] && r[i].isVideo == IsVideo(items[i].filename)
      && r[i].fileUrl == "file://" + items[i].targetPath
  {
    seq(|items|, i requires 0 <= i < |items| =>
      Card(items[i], IsVideo(items[i].filename), "file://" + items[i].targetPath))
  }

  datatype MediaView =
    | Blank
    | Gathering
    | NoMedia(title: string, message: string)
    | Grid(columns: int, cards: seq<Card>)

  function NoMediaView(term: string): MediaView
  {
    if term != "" then NoMedia("No matching media", "Try a different search term.")
    else NoMedia("No media found", "We couldn't find any images or videos in your downloads.")
  }

  /** The width `renderList` sizes columns for: the panel's CSS width, 340
      when it is unset or unparsable (0 here). */
  function LibraryWidth(cssWidth: int): int
  {
    if cssWidth != 0 then cssWidth else Spaces.DefaultWidth
  }

  class MediaPanel {
    var attached: bool
    var searchTerm: string
    /** `_itemCount`. */
    var itemCount: nat
    /** How many times the library was asked to update. */
    var updates: nat
    var view: MediaView

    constructor ()
      ensures !attached && searchTerm == "" && itemCount == 0 && updates == 0 && view == Blank
    {
      attached, searchTerm, itemCount, updates, view := false, "", 0, 0, Blank;
    }

    /** `renderList`: nothing without a container. Otherwise the count
        becomes the number of shown items (an update is requested exactly
        when it changed and the library can update), then either the empty
        state or the sorted grid is shown. */
    method RenderList(downloads: seq<D.Item>, cssWidth: int, hasColumnCalculator: bool, canUpdate: bool)
      modifies this
      ensures attached == old(attached) && searchTerm == old(searchTerm)
      ensures !attached ==> itemCount == old(itemCount) && updates == old(updates) && view == old(view)
      ensures attached ==>
        var shown := MediaItems(downloads, searchTerm);
        && itemCount == |shown|
        && updates == old(updates) + (if canUpdate && |shown| != old(itemCount) then 1 else 0)
        && (shown == [] ==> view == NoMediaView(searchTerm))
        && (shown != [] ==> view == Grid(
              if hasColumnCalculator then Spaces.MediaColumns(LibraryWidth(cssWidth)) else 1,
              Cards(Displayed(downloads, searchTerm))))
    {
      if !attached {
        return;
      }
      var mediaItems := MediaItems(downloads, searchTerm);
      var prevCount := itemCount;
      itemCount := |mediaItems|;
      if itemCount != prevCount && canUpdate {
        updates := updates + 1;
      }
      if |mediaItems| == 0 {
        view := NoMediaView(searchTerm);
        return;
      }
      var sorted := SortDesc(mediaItems, SortKey);
      var libWidth := LibraryWidth(cssWidth);
      var colCount := 1;
      if hasColumnCalculator {
        colCount := Spaces.MediaColumns(libWidth);
      }
      view := Grid(colCount, Cards(sorted));
    }

    /** `render`: a fresh container showing the gathering notice until the
        deferred load. */
    method Open()
      modifies this
      ensures attached && view == Gathering
      ensures searchTerm == old(searchTerm) && itemCount == old(itemCount) && updates == old(updates)
    {
      attached := true;
      view := Gathering;
    }

    /** The timer `render` schedules: fetch and draw the list. A detached
        panel is left as it was; otherwise the view shows the cards of the
        fetched media newest first, one per shown item, or the empty
        notice. */
    method DeferredLoad(host: D.Host, cssWidth: int, hasColumnCalculator: bool, canUpdate: bool)
      modifies this
      ensures attached == old(attached) && searchTerm == old(searchTerm)
      ensures !attached ==> itemCount == old(itemCount) && updates == old(updates) && view == old(view)
      ensures attached ==>
        var shown := MediaItems(FetchMedia(host), searchTerm);
        && itemCount == |shown|
        && updates == old(updates) + (if canUpdate && |shown| != old(itemCount) then 1 else 0)
        && (shown == [] ==> view == NoMediaView(searchTerm))
        && (shown != [] ==> view == Grid(
              if hasColumnCalculator then Spaces.MediaColumns(LibraryWidth(cssWidth)) else 1,
              Cards(Displayed(FetchMedia(host), searchTerm))))
      ensures attached && MediaItems(FetchMedia(host), searchTerm) != [] ==>
        view.Grid? && view.columns >= 1 && |view.cards| == itemCount
    {
      var downloads := FetchMedia(host);
      RenderList(downloads, cssWidth, hasColumnCalculator, canUpdate);
      if attached && MediaItems(downloads, searchTerm) != [] {
        DisplayedOrder(downloads, searchTerm);
        assert |Displayed(downloads, searchTerm)| == |MediaItems(downloads, searchTerm)| by {
          assert |multiset(Displayed(downloads, searchTerm))| == |multiset(MediaItems(downloads, searchTerm))|;
        }
      }
    }
  }
}
