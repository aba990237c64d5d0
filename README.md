# Today bookmark widget: layout and hand-off model

This project models the layout and hand-off logic of the Firefox for iOS
"Today" bookmark widget (`TodayBookmarkViewController`). The widget shows up
to five recent bookmarks in a table inside the host's widget container. The
compact widget height is fixed at 110 points. When there are more than three
bookmarks the widget offers "Show more". Selecting a row asks the host to
open the containing app through a `<scheme>://open-url?url=<escaped>` URL.

Everything the controller decides is a closed-form function of its inputs:

- the fetched bookmarks, a `seq<Bookmark>` of (title, url);
- the configured URL scheme, an `Option<string>`;
- the string-escaping routine, a parameter `escape: string -> string` that the
  model does not interpret.

The model is one Dafny module, `TodayBookmark` in `today_bookmark.dfy`. It is
made of functions and lemmas, because the source computes these values once,
as conditional expressions, and never updates them.

Heights are whole numbers of points. The source divides the Swift `Int` 110
by a positive `Int`, which truncates like Dafny's `/` on non-negative operands.
It then converts the result to `CGFloat` and multiplies by at most 5. All
these values are small integers, so the floating-point values are exact.

The compact height request is `cellHeight * 3` (line 149). That is 108 points
when "Show more" is offered. With zero, one or two bookmarks it would be 330, 330
or 165 points, but in that case the widget never offers the expanded mode, and the
host fixes the compact height at 110. `ShowMoreShowsMore` states the case
that matters.

## Model

| member | source | states |
|---|---|---|
| `TodayBookmark.BookmarkCount` | Extensions/TodayBookmark/TodayBookmarkViewController.swift:34 | the displayed count is at most 5 and at most the fetched count, and equals one of the two (a clamp to 5) |
| `TodayBookmark.CompactBookmarkCount` | Extensions/TodayBookmark/TodayBookmarkViewController.swift:35 | the compact count is at most 3 and at most the displayed count, equals one of the two, and is positive whenever the displayed count is, so the division on line 36 is never by zero |
| `TodayBookmark.BookmarkCellHeight` | Extensions/TodayBookmark/TodayBookmarkViewController.swift:36 | the row height is 110, 55 or 36; it is 110 with no bookmarks; the compact rows never exceed 110 points; it is the largest such height (one more point per row would overflow) |
| `TodayBookmark.NumberOfRows` | Extensions/TodayBookmark/TodayBookmarkViewController.swift:60-62 | the table reports at least one row: one placeholder row when empty, otherwise one row per displayed bookmark |
| `TodayBookmark.TableHeight` | Extensions/TodayBookmark/TodayBookmarkViewController.swift:37 | the table height equals the row height (line 65) times the reported row count, is never less than one row, and fits the 110-point widget when at most 3 bookmarks are shown |
| `TodayBookmark.LayoutBounds` | Extensions/TodayBookmark/TodayBookmarkViewController.swift:34-37 | for any fetched list the row count lies in 1..5, every reported row indexes an existing bookmark when there is one, and the table is at most five rows high |
| `TodayBookmark.CellForRow` | Extensions/TodayBookmark/TodayBookmarkViewController.swift:68-92 | with no bookmarks, the non-highlighting default-style placeholder text; with one, the title with the URL as detail; with several, the URL when the title is empty and the title otherwise |
| `TodayBookmark.CellNamesItsBookmark` | Extensions/TodayBookmark/TodayBookmarkViewController.swift:83-92 | a bookmark row's label is its own bookmark's title or URL; with several bookmarks it is empty exactly when both are empty |
| `TodayBookmark.LargestDisplayMode` | Extensions/TodayBookmark/TodayBookmarkViewController.swift:48-54 | the expanded mode is offered exactly when more than 3 bookmarks are displayed |
| `TodayBookmark.PreferredHeight` | Extensions/TodayBookmark/TodayBookmarkViewController.swift:147-151 | expanded mode requests the row height times the displayed count; compact mode requests three rows |
| `TodayBookmark.ExpandedHeightIsTableHeight` | Extensions/TodayBookmark/TodayBookmarkViewController.swift:149 | the expanded request equals the table height whenever a bookmark is displayed; the empty table differs (0 against 110) |
| `TodayBookmark.ShowMoreShowsMore` | Extensions/TodayBookmark/TodayBookmarkViewController.swift:48-50 | when "Show more" is offered, the compact request fits in 110 points and the expanded request is strictly taller |
| `TodayBookmark.Scheme` | Extensions/TodayBookmark/TodayBookmarkViewController.swift:131-137 | the scheme is the configured value when present and "firefox" otherwise |
| `TodayBookmark.OpenContainingApp` | Extensions/TodayBookmark/TodayBookmarkViewController.swift:139-144 | the URL is the scheme, then "://open-url", then the suffix, each at its own position |
| `TodayBookmark.DidSelectRow` | Extensions/TodayBookmark/TodayBookmarkViewController.swift:123-129 | selection opens nothing exactly when no bookmark is displayed; otherwise it opens the containing app with "?url=" and the escaped URL of the selected row |
| `TodayBookmark.HighlightsIffOpens` | Extensions/TodayBookmark/TodayBookmarkViewController.swift:75-82 | a row highlights on touch exactly when selecting it opens the containing app |
| `TodayBookmark.HandOffRoundTrip` | Extensions/TodayBookmark/TodayBookmarkViewController.swift:126-140 | when the app's scheme has no ':', and always for the fallback "firefox", the opened URL read back without knowing its scheme gives the app's scheme and, after `?url=`, exactly the escaped URL of the selected bookmark |
| `TodayBookmark.HandOffInjective` | Extensions/TodayBookmark/TodayBookmarkViewController.swift:126-140 | two rows open the same URL only if their escaped URLs are equal |

`SchemeOf`, `SchemeOfPrefix` and `HandOffTarget` are helpers. `SchemeOf`
takes everything before a URL's first ':'. `HandOffTarget` takes the text
after `?url=` once the URL's own scheme and the open-url path are stripped.

## Left out

- Profile loading and shutdown (lines 30-32): a foreign storage library. The fetched bookmarks are an input sequence of any length.
- The icon fetch through `URLSession`, its hop back to the main queue, and the image resizing (lines 93-119): network I/O, an asynchronous callback and floating-point graphics. The corner radius on line 115 belongs to that callback and is left out with it.
- UIKit plumbing: cell dequeueing and reuse, frames, `deselectRow`, and `extensionContext.open` with its logging (lines 55-58, 69-73, 125, 141-143). `CellForRow` models a newly created cell. A reused cell keeps whatever style it was created with, which is the same style because the count never changes.
- The placeholder's text alignment, line count and wrapping mode (lines 79-81) are presentation attributes and are not modelled. Its `selectionStyle = .none` is modelled as `highlights == false`.
- `Bundle.main.object(forInfoDictionaryKey:)` is the `Option<string>` parameter of `Scheme`. `String.escape()` is the `escape` parameter. The model does not say what either returns.
- The preferred content width (`maxSize.width`, line 149) passes through unchanged and is not modelled.
- `URL(string:)!` on line 141 traps when the built string is not a valid URL. That depends on the configured scheme and on `escape`, which are not modelled, so the model does not capture the trap.
- TodayBookmark.HandOffRoundTrip: the text after `?url=` is read back as one literal string. Query separators (`&`, `#`) and percent-decoding are not modelled, because `escape` is uninterpreted. So the model does not promise that a full query parser would recover the escaped URL as the `url` value.
- TodayBookmark.OpenContainingApp: the source gives `urlSuffix` a default of `""` (line 139). The model has no default, because the only caller (line 127) always passes a suffix.
- `init?(coder:)` (lines 42-44) always traps and is not modelled.
- The iOS-version check on line 49 is not modelled: the model assumes iOS 10 or later.
