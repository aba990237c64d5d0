/** A model of the layout and hand-off logic of the Today bookmark widget:
    how many fetched bookmarks are shown, how the fixed 110-point widget
    height is divided among the rows, which text each row shows, which
    display modes are offered and what height each requests, and which
    URL is handed to the containing app when a row is selected.

    Every value here is a function of the fetched bookmarks alone (plus the
    configured URL scheme and the escaping routine, which are parameters). */
module TodayBookmark {

  datatype Option<T> = None | Some(value: T)

  /** One fetched bookmark record; its icon reference is not modelled. */
  datatype Bookmark = Bookmark(title: string, url: string)

  /** The two table-cell styles the widget creates. */
  datatype CellStyle = Default | Subtitle

  /** What one row shows: its style, its main label, its detail label, and
      whether the row highlights when touched (the placeholder row does not). */
  datatype Cell = Cell(style: CellStyle, text: string, detail: Option<string>, highlights: bool)

  /** The widget display modes of the host. */
  datatype DisplayMode = Compact | Expanded

  /** The host's fixed compact widget height, in points. */
  const WidgetHeight: nat := 110
  /** At most this many bookmarks are displayed. */
  const MaxBookmarks: nat := 5
  /** At most this many rows are visible before "Show more". */
  const MaxCompactBookmarks: nat := 3
  /** The label of the single row shown when nothing is bookmarked. */
  const NoBookmarksString: string := "You haven't bookmarked \nanything yet."
  /** The scheme used when the bundle does not configure one. */
  const FallbackScheme: string := "firefox"
  /** The path of the containing app's open-url action, after the scheme. */
  const OpenURLPath: string := "://open-url"
  /** The query prefix that carries the escaped target URL. */
  const URLQuery: string := "?url="

  // ---------------------------------------------------------------------
  // Layout, computed once when the widget is created

  /** The displayed bookmark count: the fetched count clamped to five. */
  function BookmarkCount(fetched: nat): (r: nat)
    ensures r <= MaxBookmarks && r <= fetched
    ensures r == fetched || r == MaxBookmarks
  {
    if fetched >= MaxBookmarks then MaxBookmarks else fetched
  }

  /** The number of rows visible in compact mode: the displayed count
      clamped to three. It is positive whenever there is a bookmark, so
      dividing the widget height by it is always defined. */
  function CompactBookmarkCount(bookmarkCount: nat): (r: nat)
    ensures r <= MaxCompactBookmarks && r <= bookmarkCount
    ensures r == bookmarkCount || r == MaxCompactBookmarks
    ensures bookmarkCount > 0 ==> r > 0
  {
    if bookmarkCount <= MaxCompactBookmarks then bookmarkCount else MaxCompactBookmarks
  }

  /** The height of every row: the whole widget height for the placeholder
      row, otherwise the widget height split evenly (rounding down) among
      the compact rows. The compact rows never overflow the widget, and the
      split wastes less than one more row's worth of height. */
  function BookmarkCellHeight(bookmarkCount: nat): (r: nat)
    ensures r == 110 || r == 55 || r == 36
    ensures bookmarkCount == 0 ==> r == WidgetHeight
    ensures r * CompactBookmarkCount(bookmarkCount) <= WidgetHeight
    ensures bookmarkCount > 0 ==>
      WidgetHeight < (r + 1) * CompactBookmarkCount(bookmarkCount)
  {
    if bookmarkCount == 0 then WidgetHeight
    else WidgetHeight / CompactBookmarkCount(bookmarkCount)
  }

  /** The number of rows the table reports: one placeholder row when there
      is nothing to show, otherwise one row per displayed bookmark. */
  function NumberOfRows(bookmarkCount: nat): (r: nat)
    ensures r >= 1
    ensures bookmarkCount > 0 ==> r == bookmarkCount
    ensures bookmarkCount == 0 ==> r == 1
  {
    if bookmarkCount == 0 then 1 else bookmarkCount
  }

  /** The height of the table frame. It is exactly the height of all the
      rows the table reports, it is never less than one row, and when no
      "Show more" is needed the whole table fits in the compact widget. */
  function TableHeight(bookmarkCount: nat): (r: nat)
    ensures r == BookmarkCellHeight(bookmarkCount) * NumberOfRows(bookmarkCount)
    ensures r >= BookmarkCellHeight(bookmarkCount)
    ensures bookmarkCount <= MaxCompactBookmarks ==> r <= WidgetHeight
  {
    if bookmarkCount == 0 then BookmarkCellHeight(bookmarkCount)
    else BookmarkCellHeight(bookmarkCount) * bookmarkCount
  }

  /** The layout values of a widget created over `fetched` stay within
      their bounds, and every row the table reports can be read from the
      fetched bookmarks whenever there is at least one. */
  lemma LayoutBounds(fetched: seq<Bookmark>)
    ensures var n := BookmarkCount(|fetched|);
      && 1 <= NumberOfRows(n) <= MaxBookmarks
      && (n > 0 ==> NumberOfRows(n) <= |fetched|)
      && TableHeight(n) <= BookmarkCellHeight(n) * MaxBookmarks
  {
  }

  // ---------------------------------------------------------------------
  // Table contents

  /** The contents of row `row` of the table over `bookmarks`. The row is
      one the table reports. With nothing to show it is the
      non-highlighting placeholder; with one bookmark the title with the URL
      beneath it; with several the title, or the URL when the title is
      empty. */
  function CellForRow(bookmarks: seq<Bookmark>, row: nat): (c: Cell)
    requires row < NumberOfRows(BookmarkCount(|bookmarks|))
    ensures BookmarkCount(|bookmarks|) == 0 ==>
      c == Cell(Default, NoBookmarksString, None, false)
    ensures BookmarkCount(|bookmarks|) == 1 ==>
      c == Cell(Subtitle, bookmarks[row].title, Some(bookmarks[row].url), true)
    ensures BookmarkCount(|bookmarks|) >= 2 ==>
      && c.style == Subtitle && c.detail == None && c.highlights
      && (bookmarks[row].title == [] ==> c.text == bookmarks[row].url)
      && (bookmarks[row].title != [] ==> c.text == bookmarks[row].title)
  {
    var n := BookmarkCount(|bookmarks|);
    var style := if n == 0 then Default else Subtitle;
    if n == 0 then
      Cell(style, NoBookmarksString, None, false)
    else if n == 1 then
      Cell(style, bookmarks[row].title, Some(bookmarks[row].url), true)
    else
      var b := bookmarks[row];
      Cell(style, if b.title == [] then b.url else b.title, None, true)
  }

  /** Every bookmark row names its own bookmark: its label is the title or
      the URL of that bookmark, and with several bookmarks the label is
      empty only when both the title and the URL are empty. */
  lemma CellNamesItsBookmark(bookmarks: seq<Bookmark>, row: nat)
    requires row < NumberOfRows(BookmarkCount(|bookmarks|))
    requires BookmarkCount(|bookmarks|) > 0
    ensures var c := CellForRow(bookmarks, row);
      && row < |bookmarks|
      && (c.text == bookmarks[row].title || c.text == bookmarks[row].url)
      && (BookmarkCount(|bookmarks|) >= 2 ==>
            (c.text == [] <==> bookmarks[row].title == [] && bookmarks[row].url == []))
  {
  }

  // ---------------------------------------------------------------------
  // Display modes

  /** The largest display mode the widget offers: "Show more" appears
      exactly when there are more bookmarks than compact rows. */
  function LargestDisplayMode(bookmarkCount: nat): (m: DisplayMode)
    ensures m == Expanded <==> bookmarkCount > MaxCompactBookmarks
  {
    if bookmarkCount > MaxCompactBookmarks then Expanded else Compact
  }

  /** The preferred content height requested when the host switches to
      `mode`: every displayed row when expanded, three rows when compact. */
  function PreferredHeight(bookmarkCount: nat, mode: DisplayMode): (h: nat)
    ensures mode == Expanded ==> h == BookmarkCellHeight(bookmarkCount) * bookmarkCount
    ensures mode == Compact ==> h == BookmarkCellHeight(bookmarkCount) * MaxCompactBookmarks
  {
    match mode
    case Expanded => BookmarkCellHeight(bookmarkCount) * bookmarkCount
    case Compact => BookmarkCellHeight(bookmarkCount) * MaxCompactBookmarks
  }

  /** The expanded height is the height of the table whenever there is a
      bookmark to show (only the placeholder table differs: it keeps one
      full-height row while the expanded request is empty). */
  lemma ExpandedHeightIsTableHeight(bookmarkCount: nat)
    ensures bookmarkCount > 0 ==> PreferredHeight(bookmarkCount, Expanded) == TableHeight(bookmarkCount)
    ensures bookmarkCount == 0 ==>
      PreferredHeight(bookmarkCount, Expanded) == 0 < TableHeight(bookmarkCount) == WidgetHeight
  {
  }

  /** When "Show more" is offered, the compact request fits in the fixed
      widget height and expanding really shows more. */
  lemma ShowMoreShowsMore(bookmarkCount: nat)
    requires LargestDisplayMode(bookmarkCount) == Expanded
    ensures PreferredHeight(bookmarkCount, Compact) <= WidgetHeight
    ensures PreferredHeight(bookmarkCount, Compact) < PreferredHeight(bookmarkCount, Expanded)
  {
  }

  // ---------------------------------------------------------------------
  // Hand-off to the containing app

  /** The URL scheme of the containing app: the configured value, or the
      public fallback when the bundle does not configure one. */
  function Scheme(configured: Option<string>): (s: string)
    ensures configured.Some? ==> s == configured.value
    ensures configured.None? ==> s == FallbackScheme
  {
    match configured
    case Some(value) => value
    case None => FallbackScheme
  }

  /** The URL that opens the containing app, with `urlSuffix` appended. */
  function OpenContainingApp(configured: Option<string>, urlSuffix: string): (u: string)
    ensures |u| == |Scheme(configured)| + |OpenURLPath| + |urlSuffix|
    ensures u[..|Scheme(configured)|] == Scheme(configured)
    ensures u[|Scheme(configured)|..|Scheme(configured)| + |OpenURLPath|] == OpenURLPath
    ensures u[|Scheme(configured)| + |OpenURLPath|..] == urlSuffix
  {
    Scheme(configured) + OpenURLPath + urlSuffix
  }

  /** What selecting row `row` opens: nothing while the table shows only
      the placeholder, otherwise the containing app with the escaped URL of
      the selected bookmark as its `url` query value. */
  function DidSelectRow(bookmarks: seq<Bookmark>, row: nat, configured: Option<string>,
                        escape: string -> string): (r: Option<string>)
    requires row < NumberOfRows(BookmarkCount(|bookmarks|))
    ensures r.None? <==> BookmarkCount(|bookmarks|) == 0
    ensures r.Some? ==>
      r.value == OpenContainingApp(configured, URLQuery + escape(bookmarks[row].url))
  {
    if BookmarkCount(|bookmarks|) > 0 then
      var encodedString := escape(bookmarks[row].url);
      Some(OpenContainingApp(configured, URLQuery + encodedString))
    else
      None
  }

  /** A row highlights when touched exactly when selecting it opens the
      containing app. */
  lemma HighlightsIffOpens(bookmarks: seq<Bookmark>, row: nat, configured: Option<string>,
                           escape: string -> string)
    requires row < NumberOfRows(BookmarkCount(|bookmarks|))
    ensures CellForRow(bookmarks, row).highlights <==> DidSelectRow(bookmarks, row, configured, escape).Some?
  {
  }

  // ---------------------------------------------------------------------
  // Reading the hand-off URL back

  /** The scheme part of a URL: everything before its first ':'. */
  function SchemeOf(u: string): (s: string)
    ensures |s| <= |u| && s == u[..|s|]
    ensures ':' !in s
    ensures |s| == |u| || u[|s|] == ':'
  {
    if u == [] || u[0] == ':' then [] else [u[0]] + SchemeOf(u[1..])
  }

  /** The scheme of `s + rest` is `s` when `s` has no ':' and `rest` starts
      with one. */
  lemma {:induction false} SchemeOfPrefix(s: string, rest: string)
    requires ':' !in s
    requires rest != [] && rest[0] == ':'
    ensures SchemeOf(s + rest) == s
  {
    if s == [] {
      assert s + rest == rest;
    } else {
      assert (s + rest)[0] == s[0];
      assert (s + rest)[1..] == s[1..] + rest;
      SchemeOfPrefix(s[1..], rest);
      assert [s[0]] + s[1..] == s;
    }
  }

  /** The text after `?url=` in a hand-off URL: whatever follows the URL's
      own scheme (read with `SchemeOf`), the open-url path and the `url`
      query prefix, when the path and the prefix are present. */
  function HandOffTarget(u: string): (t: Option<string>)
    ensures t.Some? ==> u == SchemeOf(u) + OpenURLPath + URLQuery + t.value
    ensures t.None? ==> forall v :: u != SchemeOf(u) + OpenURLPath + URLQuery + v
  {
    var s := SchemeOf(u);
    var k := |s| + |OpenURLPath| + |URLQuery|;
    if |u| >= k && u[|s|..k] == OpenURLPath + URLQuery then
      assert u == u[..|s|] + u[|s|..k] + u[k..];
      Some(u[k..])
    else
      assert forall v :: (s + OpenURLPath + URLQuery + v)[|s|..k] == OpenURLPath + URLQuery;
      None
  }

  /** Selecting a bookmark row hands off a URL that reads back, without
      knowing the scheme that built it, as the app's scheme and, after
      `?url=`, exactly the escaped URL of the selected bookmark. This holds
      whenever the scheme has no ':', and so always for the fallback
      scheme. */
  lemma HandOffRoundTrip(bookmarks: seq<Bookmark>, row: nat, configured: Option<string>,
                         escape: string -> string)
    requires row < NumberOfRows(BookmarkCount(|bookmarks|))
    requires BookmarkCount(|bookmarks|) > 0
    ensures var r := DidSelectRow(bookmarks, row, configured, escape);
      && r.Some?
      && (':' !in Scheme(configured) ==>
            && SchemeOf(r.value) == Scheme(configured)
            && HandOffTarget(r.value) == Some(escape(bookmarks[row].url)))
      && (configured.None? ==>
            && SchemeOf(r.value) == FallbackScheme
            && HandOffTarget(r.value) == Some(escape(bookmarks[row].url)))
  {
    var s := Scheme(configured);
    var e := escape(bookmarks[row].url);
    var u := DidSelectRow(bookmarks, row, configured, escape).value;
    assert u == s + OpenURLPath + URLQuery + e;
    if ':' !in s {
      assert u == s + (OpenURLPath + URLQuery + e);
      SchemeOfPrefix(s, OpenURLPath + URLQuery + e);
      var k := |s| + |OpenURLPath| + |URLQuery|;
      assert u[|s|..k] == OpenURLPath + URLQuery;
      assert u[k..] == e;
    }
  }

  /** Two bookmark rows hand off the same URL only when their escaped URLs
      agree: the hand-off loses nothing of the escaped target. */
  lemma HandOffInjective(bookmarks: seq<Bookmark>, i: nat, j: nat, configured: Option<string>,
                         escape: string -> string)
    requires i < NumberOfRows(BookmarkCount(|bookmarks|))
    requires j < NumberOfRows(BookmarkCount(|bookmarks|))
    requires DidSelectRow(bookmarks, i, configured, escape) == DidSelectRow(bookmarks, j, configured, escape)
    ensures BookmarkCount(|bookmarks|) > 0 ==> escape(bookmarks[i].url) == escape(bookmarks[j].url)
  {
    if BookmarkCount(|bookmarks|) > 0 {
      var prefix := Scheme(configured) + OpenURLPath + URLQuery;
      var u := DidSelectRow(bookmarks, i, configured, escape).value;
      assert u == prefix + escape(bookmarks[i].url);
      assert u == prefix + escape(bookmarks[j].url);
      assert u[|prefix|..] == escape(bookmarks[i].url);
      assert u[|prefix|..] == escape(bookmarks[j].url);
    }
  }
}
