/** Shared vocabulary of the library panels: optional values, the rows a
    panel renders, the JavaScript string operations the panels rely on
    (lower-casing, `includes`, `split`, `trim`) and the stable ordering that
    `Array.prototype.sort` gives. */
module Common {

  datatype Option<T> = None | Some(value: T)

  /** The host's clock and locale formatting, each a function of an instant
      in milliseconds. `dayNumber` numbers local calendar days (what
      `setHours(0, 0, 0, 0)` identifies), consecutive days by consecutive
      numbers. */
  datatype Locale = Locale(
    dayOfMonth: int -> int,
    dayNumber: int -> int,
    weekdayName: int -> string,
    fullDateLabel: int -> string,
    timeLabel: int -> string,
    dateLabel: int -> string)

  /** One rendered row of a panel's list container. `Entry` is an item row,
      `Nav` a static navigation row that survives a reset render. */
  datatype Row<T> =
    | Header(title: string)
    | Entry(item: T)
    | EmptyState(title: string, message: string)
    | Nav(caption: string)
    | Spacer

  /** The items of the entry rows, in order. */
  function Entries<T>(rows: seq<Row<T>>): seq<T>
  {
    if rows == [] then []
    else (if rows[0].Entry? then [rows[0].item] else []) + Entries(rows[1..])
  }

  /** The labels of the header rows, in order. */
  function Headers<T>(rows: seq<Row<T>>): seq<string>
  {
    if rows == [] then []
    else (if rows[0].Header? then [rows[0].title] else []) + Headers(rows[1..])
  }

  lemma EntriesAppend<T>(a: seq<Row<T>>, b: seq<Row<T>>)
    ensures Entries(a + b) == Entries(a) + Entries(b)
  {
    if a != [] {
      assert (a + b)[1..] == a[1..] + b;
      EntriesAppend(a[1..], b);
    } else {
      assert a + b == b;
    }
  }

  lemma HeadersAppend<T>(a: seq<Row<T>>, b: seq<Row<T>>)
    ensures Headers(a + b) == Headers(a) + Headers(b)
  {
    if a != [] {
      assert (a + b)[1..] == a[1..] + b;
      HeadersAppend(a[1..], b);
    } else {
      assert a + b == b;
    }
  }

  /** One entry row per item. */
  function EntryRows<T>(items: seq<T>): (r: seq<Row<T>>)
    ensures |r| == |items|
    ensures forall i :: 0 <= i < |items| ==> r[i] == Entry(items[i])
  {
    seq(|items|, i requires 0 <= i < |items| => Entry(items[i]))
  }

  lemma {:induction false} EntriesOfEntryRows<T>(items: seq<T>)
    ensures Entries(EntryRows(items)) == items
    ensures Headers(EntryRows(items)) == []
  {
    if items != [] {
      assert EntryRows(items)[1..] == EntryRows(items[1..]);
      EntriesOfEntryRows(items[1..]);
    }
  }

  // ---------------------------------------------------------------------
  // Filtering (`Array.prototype.filter`)

  function Filter<T>(s: seq<T>, p: T -> bool): (r: seq<T>)
    ensures |r| <= |s|
  {
    if s == [] then [] else (if p(s[0]) then [s[0]] else []) + Filter(s[1..], p)
  }

  /** a is obtained from b by deleting elements: order is kept. */
  predicate IsSubsequence<T(==)>(a: seq<T>, b: seq<T>)
    decreases |b|
  {
    a == [] || (b != [] && ((a[0] == b[0] && IsSubsequence(a[1..], b[1..])) || IsSubsequence(a, b[1..])))
  }

  lemma FilterAppend<T>(a: seq<T>, b: seq<T>, p: T -> bool)
    ensures Filter(a + b, p) == Filter(a, p) + Filter(b, p)
  {
    if a != [] {
      assert (a + b)[1..] == a[1..] + b;
      FilterAppend(a[1..], b, p);
    } else {
      assert a + b == b;
    }
  }

  /** filter keeps exactly the elements that pass, in their order, each as
      often as the input has it. */
  lemma {:induction false} FilterFacts<T>(s: seq<T>, p: T -> bool)
    ensures forall x :: x in Filter(s, p) <==> x in s && p(x)
    ensures IsSubsequence(Filter(s, p), s)
    ensures forall i :: 0 <= i < |Filter(s, p)| ==> p(Filter(s, p)[i])
    ensures forall x :: multiset(Filter(s, p))[x] == if p(x) then multiset(s)[x] else 0
  {
    if s != [] {
      FilterFacts(s[1..], p);
      assert s == [s[0]] + s[1..];
      var r := Filter(s, p);
      if p(s[0]) {
        assert r == [s[0]] + Filter(s[1..], p);
        assert r[0] == s[0] && r[1..] == Filter(s[1..], p);
      } else {
        assert r == Filter(s[1..], p);
      }
    }
  }

  lemma {:induction false} FilterAll<T>(s: seq<T>, p: T -> bool)
    requires forall i :: 0 <= i < |s| ==> p(s[i])
    ensures Filter(s, p) == s
  {
    if s != [] {
      assert forall i :: 0 <= i < |s[1..]| ==> s[1..][i] == s[i + 1];
      FilterAll(s[1..], p);
      assert [s[0]] + s[1..] == s;
    }
  }

  lemma {:induction false} FilterNone<T>(s: seq<T>, p: T -> bool)
    requires forall i :: 0 <= i < |s| ==> !p(s[i])
    ensures Filter(s, p) == []
  {
    if s != [] {
      assert forall i :: 0 <= i < |s[1..]| ==> s[1..][i] == s[i + 1];
      FilterNone(s[1..], p);
    }
  }

  /** Filters with the same verdict on every element agree. */
  lemma {:induction false} FilterExt<T>(s: seq<T>, p: T -> bool, q: T -> bool)
    requires forall i :: 0 <= i < |s| ==> p(s[i]) == q(s[i])
    ensures Filter(s, p) == Filter(s, q)
  {
    if s != [] {
      assert forall i :: 0 <= i < |s[1..]| ==> s[1..][i] == s[i + 1];
      FilterExt(s[1..], p, q);
    }
  }

  /** Splitting a filter into two disjoint filters loses and duplicates nothing. */
  lemma {:induction false} FilterDisjointUnion<T>(s: seq<T>, p: T -> bool, q: T -> bool, pq: T -> bool)
    requires forall i :: 0 <= i < |s| ==> (pq(s[i]) <==> p(s[i]) || q(s[i]))
    requires forall i :: 0 <= i < |s| ==> !(p(s[i]) && q(s[i]))
    ensures multiset(Filter(s, pq)) == multiset(Filter(s, p)) + multiset(Filter(s, q))
  {
    if s != [] {
      assert forall i :: 0 <= i < |s[1..]| ==> s[1..][i] == s[i + 1];
      FilterDisjointUnion(s[1..], p, q, pq);
    }
  }

  // ---------------------------------------------------------------------
  // Text

  /** `toLowerCase` on one character (ASCII letters only). */
  function LowerChar(c: char): char
  {
    if 'A' <= c <= 'Z' then (c as int + 32) as char else c
  }

  function Lower(s: string): (r: string)
    ensures |r| == |s|
    ensures forall i :: 0 <= i < |s| ==> r[i] == LowerChar(s[i])
  {
    seq(|s|, i requires 0 <= i < |s| => LowerChar(s[i]))
  }

  /** `s.includes(t)`: t occurs in s at some position. */
  predicate Contains(s: string, t: string)
    decreases |s|
  {
    t <= s || (s != [] && Contains(s[1..], t))
  }

  /** `text.toLowerCase().includes(term.toLowerCase())`. */
  predicate MatchesTerm(text: string, term: string)
  {
    Contains(Lower(text), Lower(term))
  }

  /** An occurrence found at position i is what `includes` reports. */
  lemma {:induction false} ContainsAt(s: string, t: string, i: nat)
    requires i + |t| <= |s| && s[i..i + |t|] == t
    ensures Contains(s, t)
    decreases i
  {
    if i == 0 {
      assert s[..|t|] == t;
    } else {
      assert s[1..][i - 1..i - 1 + |t|] == s[i..i + |t|];
      ContainsAt(s[1..], t, i - 1);
    }
  }

  /** A one-character text is included exactly when that character occurs. */
  lemma {:induction false} ContainsChar(s: string, c: char)
    ensures Contains(s, [c]) <==> exists i :: 0 <= i < |s| && s[i] == c
    decreases |s|
  {
    if s != [] {
      ContainsChar(s[1..], c);
      assert [c] <= s <==> s[0] == c;
      if exists i :: 0 <= i < |s[1..]| && s[1..][i] == c {
        var i :| 0 <= i < |s[1..]| && s[1..][i] == c;
        assert s[i + 1] == c;
      }
      if i :| 0 <= i < |s| && s[i] == c {
        if i > 0 { assert s[1..][i - 1] == c; }
      }
    }
  }

  /** The empty search term is found in every text. */
  lemma MatchesEmptyTerm(text: string)
    ensures MatchesTerm(text, "")
  {
    assert Lower("") == "";
  }

  /** `s.split(sep)` where sep matches any one character of seps:
      the pieces between separators, always at least one. */
  function Split(s: string, seps: set<char>): (r: seq<string>)
    ensures |r| >= 1
  {
    if s == [] then [""]
    else
      var rest := Split(s[1..], seps);
      if s[0] in seps then [""] + rest
      else [[s[0]] + rest[0]] + rest[1..]
  }

  /** The last piece, what `pop()` returns. */
  function LastPiece(pieces: seq<string>): string
    requires |pieces| >= 1
  {
    pieces[|pieces| - 1]
  }

  /** `pieces.pop() || pieces.pop()`: the last piece, or when it is empty
      the one before it; "" stands for both the empty piece and the
      `undefined` of popping an exhausted array. */
  function LastNonEmptyOfTwo(pieces: seq<string>): (r: string)
    ensures r != "" ==> r in pieces
    ensures |pieces| >= 1 && pieces[|pieces| - 1] != "" ==> r == pieces[|pieces| - 1]
    ensures |pieces| >= 2 && pieces[|pieces| - 1] == "" ==> r == pieces[|pieces| - 2]
    ensures |pieces| == 1 && pieces[0] == "" ==> r == ""
    ensures |pieces| == 0 ==> r == ""
  {
    if |pieces| >= 1 && pieces[|pieces| - 1] != "" then pieces[|pieces| - 1]
    else if |pieces| >= 2 then pieces[|pieces| - 2]
    else ""
  }

  /** How one leading character changes the pieces of a split. */
  lemma SplitStep(s: string, seps: set<char>)
    requires s != []
    ensures var rest := Split(s[1..], seps); var r := Split(s, seps);
      && (s[0] in seps ==> |r| == |rest| + 1 && r[|r| - 1] == rest[|rest| - 1])
      && (s[0] !in seps && |rest| == 1 ==> r == [[s[0]] + rest[0]])
      && (s[0] !in seps && |rest| > 1 ==> |r| == |rest| && r[|r| - 1] == rest[|rest| - 1])
  {
  }

  /** The last piece is a suffix of the text, the whole text when it is
      the only piece and a shorter one otherwise. */
  lemma {:induction false} SplitLastSuffix(s: string, seps: set<char>)
    ensures var r := Split(s, seps); var last := r[|r| - 1];
      && |last| <= |s|
      && last == s[|s| - |last|..]
      && (|r| == 1 ==> r[0] == s)
      && (|r| > 1 ==> |last| < |s|)
  {
    if s != [] {
      var tail := s[1..];
      var rest := Split(tail, seps);
      SplitLastSuffix(tail, seps);
      SplitStep(s, seps);
      if s[0] !in seps && |rest| == 1 {
        assert rest[0] == tail;
        assert [s[0]] + tail == s;
      } else {
        var m := |LastPiece(rest)|;
        assert LastPiece(Split(s, seps)) == LastPiece(rest);
        assert tail[|tail| - m..] == s[|s| - m..];
      }
    }
  }

  /** No character of t is a separator. */
  predicate NoSeparator(t: string, seps: set<char>)
  {
    forall j :: 0 <= j < |t| ==> t[j] !in seps
  }

  /** A character that is not a separator extends a separator-free text. */
  lemma NoSeparatorCons(c: char, t: string, seps: set<char>)
    requires c !in seps && NoSeparator(t, seps)
    ensures NoSeparator([c] + t, seps)
  {
    forall j | 0 < j < |t| + 1 ensures ([c] + t)[j] !in seps {
      assert ([c] + t)[j] == t[j - 1];
    }
  }

  /** No character of the last piece is a separator. */
  lemma {:induction false} SplitLastFree(s: string, seps: set<char>)
    ensures NoSeparator(LastPiece(Split(s, seps)), seps)
  {
    if s != [] {
      var rest := Split(s[1..], seps);
      SplitLastFree(s[1..], seps);
      SplitStep(s, seps);
      if s[0] !in seps && |rest| == 1 {
        assert LastPiece(rest) == rest[0];
        NoSeparatorCons(s[0], rest[0], seps);
        assert LastPiece(Split(s, seps)) == [s[0]] + rest[0];
      } else {
        assert LastPiece(Split(s, seps)) == LastPiece(rest);
      }
    }
  }

  /** A last piece shorter than the text follows a separator. */
  lemma {:induction false} SplitLastPreceded(s: string, seps: set<char>)
    ensures var last := LastPiece(Split(s, seps));
      |last| < |s| ==> s[|s| - |last| - 1] in seps
  {
    if s != [] {
      var tail := s[1..];
      var rest := Split(tail, seps);
      SplitStep(s, seps);
      if s[0] !in seps && |rest| == 1 {
        SplitLastSuffix(s, seps);
      } else {
        SplitLastPreceded(tail, seps);
        SplitLastSuffix(tail, seps);
        var n, m := |s|, |LastPiece(rest)|;
        assert LastPiece(Split(s, seps)) == LastPiece(rest);
        if m < n - 1 {
          assert s[n - m - 1] == tail[n - 1 - m - 1];
        }
      }
    }
  }

  /** The last piece of a split is the longest suffix free of separators. */
  lemma SplitLastPiece(s: string, seps: set<char>)
    ensures var r := Split(s, seps); var last := r[|r| - 1];
      && |last| <= |s|
      && last == s[|s| - |last|..]
      && (forall j :: 0 <= j < |last| ==> last[j] !in seps)
      && (|last| < |s| ==> s[|s| - |last| - 1] in seps)
      && (|r| == 1 ==> r[0] == s)
      && (|r| > 1 ==> |last| < |s|)
  {
    SplitLastSuffix(s, seps);
    SplitLastFree(s, seps);
    SplitLastPreceded(s, seps);
    assert NoSeparator(LastPiece(Split(s, seps)), seps);
  }

  /** i is where the last piece of s starts: nothing from i on is a
      separator, and the character before i (if any) is one. */
  predicate LastPieceStart(s: string, seps: set<char>, i: nat)
  {
    && i <= |s|
    && (forall j :: i <= j < |s| ==> s[j] !in seps)
    && (i == 0 || s[i - 1] in seps)
  }

  /** Every text has such a start. */
  lemma LastPieceStartExists(s: string, seps: set<char>)
    ensures exists i :: LastPieceStart(s, seps, i)
  {
    SplitLastPiece(s, seps);
    var last := LastPiece(Split(s, seps));
    assert LastPieceStart(s, seps, |s| - |last|) by {
      forall j | |s| - |last| <= j < |s| ensures s[j] !in seps {
        assert s[j] == last[j - (|s| - |last|)];
      }
    }
  }

  /** The last piece of a split is the text after the last separator. */
  lemma LastPieceAt(s: string, seps: set<char>, i: nat)
    requires LastPieceStart(s, seps, i)
    ensures LastPiece(Split(s, seps)) == s[i..]
  {
    SplitLastPiece(s, seps);
    var last := LastPiece(Split(s, seps));
    var k := |s| - |last|;
    assert forall j :: k <= j < |s| ==> s[j] !in seps by {
      forall j | k <= j < |s| ensures s[j] !in seps {
        assert s[j] == last[j - k];
      }
    }
  }

  /** Splitting a text that ends in a separator adds one empty piece. */
  lemma {:induction false} SplitSnocSeparator(p: string, c: char, seps: set<char>)
    requires c in seps
    ensures Split(p + [c], seps) == Split(p, seps) + [""]
  {
    if p == [] {
      assert [c][1..] == [];
    } else {
      assert (p + [c])[1..] == p[1..] + [c];
      SplitSnocSeparator(p[1..], c, seps);
    }
  }

  /** `pop() || pop()` on a text not ending in the separator: the text after
      the last separator. */
  lemma PopOrPopAt(s: string, sep: char, i: nat)
    requires LastPieceStart(s, {sep}, i) && i < |s|
    ensures LastNonEmptyOfTwo(Split(s, {sep})) == s[i..]
  {
    LastPieceAt(s, {sep}, i);
  }

  /** `pop() || pop()` on a text ending in the separator: the piece before
      that separator, empty when it is empty. */
  lemma PopOrPopTrailing(p: string, sep: char, i: nat)
    requires LastPieceStart(p, {sep}, i)
    ensures LastNonEmptyOfTwo(Split(p + [sep], {sep})) == p[i..]
  {
    SplitSnocSeparator(p, sep, {sep});
    LastPieceAt(p, {sep}, i);
  }

  /** `pop() || pop()` on the empty text: nothing. */
  lemma PopOrPopEmpty(sep: char)
    ensures LastNonEmptyOfTwo(Split("", {sep})) == ""
  {
  }

  /** The inverse of splitting on one separator. */
  function Join(pieces: seq<string>, sep: char): string
    requires |pieces| >= 1
  {
    if |pieces| == 1 then pieces[0] else pieces[0] + [sep] + Join(pieces[1..], sep)
  }

  lemma {:induction false} SplitJoinRoundTrip(s: string, sep: char)
    ensures Join(Split(s, {sep}), sep) == s
  {
    if s != [] {
      var rest := Split(s[1..], {sep});
      SplitJoinRoundTrip(s[1..], sep);
      if s[0] == sep {
        assert Split(s, {sep})[1..] == rest;
        assert [s[0]] + s[1..] == s;
      } else if |rest| == 1 {
        assert [s[0]] + s[1..] == s;
      } else {
        var r := Split(s, {sep});
        assert r[1..] == rest[1..];
        assert Join(rest, sep) == rest[0] + [sep] + Join(rest[1..], sep);
        assert [s[0]] + s[1..] == s;
      }
    }
  }

  /** The characters String.prototype.trim removes (ASCII white space,
      no-break space, byte-order mark, line and paragraph separators). */
  predicate IsSpace(c: char)
  {
    c == ' ' || c == '\t' || c == '\n' || c == '\r' || c == '\U{000B}' || c == '\U{000C}'
    || c == '\U{00A0}' || c == '\U{FEFF}' || c == '\U{2028}' || c == '\U{2029}'
  }

  predicate AllSpace(s: string)
  {
    forall i :: 0 <= i < |s| ==> IsSpace(s[i])
  }

  function TrimStart(s: string): string
  {
    if s != [] && IsSpace(s[0]) then TrimStart(s[1..]) else s
  }

  function TrimEnd(s: string): string
  {
    if s != [] && IsSpace(s[|s| - 1]) then TrimEnd(s[..|s| - 1]) else s
  }

  /** `s.trim()`. */
  function Trim(s: string): string
  {
    TrimEnd(TrimStart(s))
  }

  lemma {:induction false} TrimStartSpec(s: string)
    ensures AllSpace(s) <==> TrimStart(s) == ""
    ensures TrimStart(s) != "" ==> !IsSpace(TrimStart(s)[0])
  {
    if s != [] && IsSpace(s[0]) {
      TrimStartSpec(s[1..]);
      assert AllSpace(s) <==> AllSpace(s[1..]) by {
        if AllSpace(s[1..]) {
          forall i | 0 <= i < |s| ensures IsSpace(s[i]) {
            if i > 0 { assert s[i] == s[1..][i - 1]; }
          }
        }
      }
    } else if s != [] {
      assert !AllSpace(s);
    }
  }

  lemma {:induction false} TrimEndKeepsNonSpace(s: string)
    requires s != [] && !IsSpace(s[0])
    ensures TrimEnd(s) != [] && TrimEnd(s)[0] == s[0]
  {
    if IsSpace(s[|s| - 1]) {
      TrimEndKeepsNonSpace(s[..|s| - 1]);
    }
  }

  /** Trimming leaves nothing exactly when the text is all white space. */
  lemma TrimEmptyIffAllSpace(s: string)
    ensures Trim(s) == "" <==> AllSpace(s)
  {
    TrimStartSpec(s);
    if TrimStart(s) != "" {
      TrimEndKeepsNonSpace(TrimStart(s));
    }
  }

  /** The number a string of decimal digits spells. */
  function DigitsValue(s: string): nat
  {
    if s == [] then 0
    else
      var d := s[|s| - 1] as int - '0' as int;
      DigitsValue(s[..|s| - 1]) * 10 + (if 0 <= d then d else 0)
  }

  /** Decimal digits of a natural number, as a template literal prints it:
      they spell the number, with no leading zero. */
  function NatToString(n: nat): (r: string)
    ensures |r| >= 1
    ensures forall i :: 0 <= i < |r| ==> '0' <= r[i] <= '9'
    ensures DigitsValue(r) == n
    ensures n == 0 ==> r == "0"
    ensures n > 0 ==> r[0] != '0'
    decreases n
  {
    if n < 10 then [('0' as int + n) as char]
    else
      var init := NatToString(n / 10);
      var r := init + [('0' as int + n % 10) as char];
      assert r[..|r| - 1] == init;
      r
  }

  // ---------------------------------------------------------------------
  // Ordering

  predicate SortedDesc<T>(s: seq<T>, key: T -> real)
  {
    forall i, j :: 0 <= i < j < |s| ==> key(s[i]) >= key(s[j])
  }

  /** Places x after every element whose key is at least x's. */
  function InsertDesc<T>(x: T, s: seq<T>, key: T -> real): seq<T>
  {
    if s == [] then [x]
    else if key(s[0]) >= key(x) then [s[0]] + InsertDesc(x, s[1..], key)
    else [x] + s
  }

  /** Stable sort with the comparator `(a, b) => key(b) - key(a)`:
      newest first, equal keys in encounter order. */
  function SortDesc<T>(s: seq<T>, key: T -> real): seq<T>
  {
    if s == [] then [] else InsertDesc(s[|s| - 1], SortDesc(s[..|s| - 1], key), key)
  }

  /** The elements whose key is k, in order. */
  function WithKey<T>(s: seq<T>, key: T -> real, k: real): seq<T>
  {
    if s == [] then []
    else (if key(s[0]) == k then [s[0]] else []) + WithKey(s[1..], key, k)
  }

  lemma WithKeyAppend<T>(a: seq<T>, b: seq<T>, key: T -> real, k: real)
    ensures WithKey(a + b, key, k) == WithKey(a, key, k) + WithKey(b, key, k)
  {
    if a != [] {
      assert (a + b)[1..] == a[1..] + b;
      WithKeyAppend(a[1..], b, key, k);
    } else {
      assert a + b == b;
    }
  }

  lemma {:induction false} InsertDescMultiset<T>(x: T, s: seq<T>, key: T -> real)
    ensures multiset(InsertDesc(x, s, key)) == multiset(s) + multiset{x}
  {
    if s != [] && key(s[0]) >= key(x) {
      InsertDescMultiset(x, s[1..], key);
      assert s == [s[0]] + s[1..];
    }
  }

  lemma {:induction false} InsertDescSorted<T>(x: T, s: seq<T>, key: T -> real)
    requires SortedDesc(s, key)
    ensures SortedDesc(InsertDesc(x, s, key), key)
  {
    var r := InsertDesc(x, s, key);
    if s == [] {
    } else if key(s[0]) >= key(x) {
      InsertDescSorted(x, s[1..], key);
      InsertDescMultiset(x, s[1..], key);
      var t := InsertDesc(x, s[1..], key);
      assert r == [s[0]] + t;
      forall m | 0 <= m < |t| ensures key(s[0]) >= key(t[m]) {
        assert t[m] in multiset(t);
        if t[m] != x {
          assert t[m] in multiset(s[1..]);
          var p :| 0 <= p < |s[1..]| && s[1..][p] == t[m];
          assert s[1..][p] == s[p + 1];
        }
      }
      forall i, j | 0 <= i < j < |r| ensures key(r[i]) >= key(r[j]) {
        assert r[j] == t[j - 1];
        if i > 0 { assert r[i] == t[i - 1]; }
      }
    } else {
      assert r == [x] + s;
      forall i, j | 0 <= i < j < |r| ensures key(r[i]) >= key(r[j]) {
        assert r[j] == s[j - 1];
        if i > 0 { assert r[i] == s[i - 1]; }
        else if j > 1 { assert key(s[0]) >= key(s[j - 1]); }
      }
    }
  }

  lemma {:induction false} InsertDescWithKey<T>(x: T, s: seq<T>, key: T -> real, k: real)
    requires SortedDesc(s, key)
    ensures WithKey(InsertDesc(x, s, key), key, k)
            == WithKey(s, key, k) + (if key(x) == k then [x] else [])
  {
    var r := InsertDesc(x, s, key);
    var tail: seq<T> := if key(x) == k then [x] else [];
    if s == [] {
      assert r == [x];
      assert WithKey(r, key, k) == tail + WithKey([], key, k);
    } else if key(s[0]) >= key(x) {
      var t := InsertDesc(x, s[1..], key);
      var head: seq<T> := if key(s[0]) == k then [s[0]] else [];
      assert WithKey(t, key, k) == WithKey(s[1..], key, k) + tail by {
        forall i, j | 0 <= i < j < |s[1..]| ensures key(s[1..][i]) >= key(s[1..][j]) {
          assert s[1..][i] == s[i + 1] && s[1..][j] == s[j + 1];
        }
        InsertDescWithKey(x, s[1..], key, k);
      }
      assert WithKey(r, key, k) == head + WithKey(t, key, k) by {
        assert r == [s[0]] + t;
        assert r[1..] == t;
      }
      assert WithKey(s, key, k) == head + WithKey(s[1..], key, k);
    } else {
      assert WithKey(r, key, k) == tail + WithKey(s, key, k) by {
        assert r == [x] + s;
        assert r[1..] == s;
      }
      if key(x) == k {
        assert WithKey(s, key, k) == [] by {
          forall i | 0 <= i < |s| ensures key(s[i]) != k {
            if i > 0 { assert key(s[0]) >= key(s[i]); }
          }
          NoneWithKey(s, key, k);
        }
      }
    }
  }

  lemma NoneWithKey<T>(s: seq<T>, key: T -> real, k: real)
    requires forall i :: 0 <= i < |s| ==> key(s[i]) != k
    ensures WithKey(s, key, k) == []
  {
    if s != [] {
      assert forall i :: 0 <= i < |s[1..]| ==> s[1..][i] == s[i + 1];
      NoneWithKey(s[1..], key, k);
    }
  }

  /** The sort orders by key descending, keeps every element exactly as
      often as the input has it, and keeps equal keys in encounter order. */
  lemma {:induction false} SortDescFacts<T>(s: seq<T>, key: T -> real)
    ensures SortedDesc(SortDesc(s, key), key)
    ensures multiset(SortDesc(s, key)) == multiset(s)
    ensures forall k :: WithKey(SortDesc(s, key), key, k) == WithKey(s, key, k)
  {
    if s != [] {
      var init, last := s[..|s| - 1], s[|s| - 1];
      SortDescFacts(init, key);
      InsertDescSorted(last, SortDesc(init, key), key);
      InsertDescMultiset(last, SortDesc(init, key), key);
      assert s == init + [last];
      forall k ensures WithKey(SortDesc(s, key), key, k) == WithKey(s, key, k) {
        InsertDescWithKey(last, SortDesc(init, key), key, k);
        WithKeyAppend(init, [last], key, k);
      }
    }
  }
}
