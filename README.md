# textorium-tui core, modelled in Dafny

This project models the core of `textorium-tui`, a terminal editor for the Markdown posts of a
static site (Hugo, Jekyll or Eleventy). It covers three source files.

- `src/core/posts.rs` (module `Posts`). It splits a post file into YAML frontmatter and body,
  shapes the frontmatter into a key/value map, and extracts the post's fields with their
  defaults. It also scans a content tree for posts and writes a post back to disk.
- `src/core/config.rs` (module `SiteConfig`). It holds the site configuration and each
  generator's development server. It computes the content directory and a post's preview URL,
  and detects the generator and its content directory from marker files.
- `src/tui/app.rs`. The session state and the `run` loop's handling of one key.
  - `PostView` models the list on screen: `get_filtered_posts`.
  - `AppSpec` models the loop body as a transition `Next` on an `AppState` value.
  - `AppProperties` proves what one event does.
  - `TuiApp` is the `App` object itself: a class whose fields the key handlers update in
    place. Each method is proved to leave the fields as `AppSpec` says.

Supporting modules:

- `Text`: trimming, searching, ASCII lowercase, lines, split/join, the lexicographic string
  order and sorted map keys.
- `Paths`: paths as sequences of components, extensions and prefix stripping.
- `Records`: frontmatter values and posts.
- `PostOrder`: the four sort modes, as a stable sort.

Some things the program reaches outside itself become inputs:

- The YAML codec and the two date parsers are the function values of a `Codec`.
- The directory walk is a sequence of `Entry` values.
- The outcomes of the disk write, the editor and the browser launch are fields of an `Env`,
  together with the loaded configuration and the `EDITOR` variable.

## Model

| member | source | states |
|---|---|---|
| Text.Trim | src/core/posts.rs:58 | `str::trim`: the result is no longer than the input and neither starts nor ends with whitespace |
| Text.TrimDropsOnlyWhitespace | src/core/posts.rs:58 | trimming drops whitespace only: the result is a slice of the input with nothing but whitespace around it |
| Text.TrimIdempotent | src/core/posts.rs:58 | trimming a trimmed text changes nothing |
| Text.TrimSkipsLeadingWhitespace | src/core/posts.rs:58 | leading whitespace (such as the blank line `save_post` writes before the body) does not change the trimmed text |
| Text.FindFrom | src/core/posts.rs:50 | the search `splitn` performs: the first position at or after `from` where the pattern occurs, or none when it occurs nowhere after `from` |
| Text.ContainsIffOccurs | src/tui/app.rs:80-85 | `str::contains` holds exactly when the pattern occurs at some position |
| Text.Lower | src/tui/app.rs:80-85 | lowercasing keeps the length and maps each character by its ASCII lowercase |
| Text.Replace | src/core/config.rs:105 | `replace(c, d)` keeps the length, leaves no `c` behind (when `c != d`) and changes no other character |
| Text.Lines | src/tui/app.rs:382 | `str::lines`: a text has no lines exactly when it is empty |
| Text.LinesHaveNoBreak | src/tui/app.rs:382 | no line of `str::lines` holds a line break |
| Text.LinesCons | src/tui/app.rs:382 | a line ended by `\n` or `\r\n` is the first line, with no `\r` left on it, and the rest of the text gives the remaining lines |
| Text.FinalLineBreak | src/tui/app.rs:382 | a text without a line break is one line, and a final `\n` adds no empty line |
| Text.JoinLines | src/tui/app.rs:382 | joining the lines with `\n` gives back a text that has no `\r` and does not end with a line break |
| Text.Split | src/core/config.rs:96 | splitting at a separator gives at least one piece, and no piece holds the separator |
| Text.SplitJoin | src/core/config.rs:96 | joining the pieces with the separator restores the text |
| Text.JoinThree | src/core/posts.rs:218 | joining three lines puts one separator between each pair |
| Text.LexTotal | src/tui/app.rs:93-94 | the byte order of `String::cmp` is total |
| Text.LexTrans | src/tui/app.rs:93-94 | the byte order of `String::cmp` is transitive |
| Text.LexAntisymAll | src/tui/app.rs:93-94 | the byte order of `String::cmp` is antisymmetric |
| Text.SortedKeys | src/tui/app.rs:509-510 | `keys().collect()` then `sort()`: every key of the map exactly once, and nothing else |
| Text.SortedKeysIncreasing | src/tui/app.rs:509-510 | the sorted keys are in strictly increasing byte order |
| Paths.ParseRender | src/core/config.rs:96 | reading back the rendered text of a valid path gives the path |
| Paths.WithoutExtensionRestores | src/core/config.rs:103 | `with_extension("")` drops exactly the last extension: stem, dot and extension give back the file name |
| Paths.WithoutExtensionKeepsPlainNames | src/core/config.rs:103 | a file name without a dot is left as it is |
| Paths.StripPrefix | src/core/config.rs:99 | `strip_prefix` succeeds exactly when the site path is a component-wise prefix, and the prefix plus the rest is the post path |
| PostOrder.SortRingHasPeriodFour | src/tui/app.rs:113-121 | the sort modes cycle DateDesc, DateAsc, TitleAsc, TitleDesc, and four steps return to the start |
| PostOrder.LeTotal | src/tui/app.rs:89-95 | any two posts compare one way or the other in every mode (an absent date is below every date) |
| PostOrder.LeTrans | src/tui/app.rs:89-95 | the order of each mode is transitive |
| PostOrder.TiedIffSameKey | src/tui/app.rs:89-95 | two posts tie exactly when their sort keys (date or title) are equal |
| PostOrder.InsertPermutes | src/tui/app.rs:89-95 | inserting a post into a list gives the list's posts plus that one, each as often as before |
| PostOrder.SortPostsPermutes | src/tui/app.rs:89-95 | `sort_by` gives a permutation of its input |
| PostOrder.SortPostsSorted | src/tui/app.rs:89-95 | the sorted list is ordered by the mode |
| PostOrder.SortPostsStable | src/tui/app.rs:89-95 | the sort is stable: the posts tied with any post keep their relative order |
| PostOrder.SortPostsIdempotent | src/tui/app.rs:89-95 | sorting a sorted list changes nothing |
| PostOrder.DateDescOrder | src/core/posts.rs:202 | newest first: in a DateDesc-sorted list every dated post precedes every undated one and dates never increase |
| PostView.Keep | src/tui/app.rs:74-76 | `retain` keeps only accepted posts and never lengthens the list |
| PostView.KeepCount | src/tui/app.rs:74-87 | `retain` keeps every copy of an accepted post and no copy of a rejected one |
| PostView.ViewCount | src/tui/app.rs:70-98 | the view holds each post that passes both filters as often as `posts` does, and no other post |
| PostView.ViewIsSubMultiset | src/tui/app.rs:70-98 | the view is a sub-multiset of the posts, no longer than the posts, and each shown post passes both filters |
| PostView.NoFilterShowsAll | src/tui/app.rs:70-98 | with both filters off the view is a reordering of all posts |
| PostView.ViewOrdered | src/tui/app.rs:89-95 | the view is ordered by the sort mode, and tied posts keep their order in the filtered list |
| PostView.DraftsOnlyNarrows | src/tui/app.rs:74-76 | turning on the drafts filter never shows a post that was hidden |
| PostView.LongerQueryNarrows | src/tui/app.rs:79-87 | with ASCII lowercasing, typing one more query character never brings a post into view |
| PostView.SearchIgnoresCase | src/tui/app.rs:80-84 | the query `alp` finds the title `Alpha` |
| PostView.SearchCoversCategories | src/tui/app.rs:84 | the query `BETA` finds the category `Beta` |
| PostView.SearchSkipsTags | src/tui/app.rs:79-87 | the query `gam` does not find a post whose only `gam` is in its tag `gamma` |
| PostView.TagsNeverConsulted | src/tui/app.rs:79-87 | replacing a post's tags or frontmatter map never changes whether a query finds it |
| PostView.DateDescExample | src/tui/app.rs:90 | the list of an undated post, an older post and a newer post, in that order, is shown newest first: newer, older, undated |
| Posts.Frame | src/core/posts.rs:46-53 | framing finds the text between the first two `---` and the rest, with `---` + frontmatter + `---` + rest equal to the input; a text not starting with `---` is unframed |
| Posts.FrameSound | src/core/posts.rs:50 | the frontmatter that framing finds holds no `---` and does not end in `-` |
| Posts.FrameComplete | src/core/posts.rs:50 | any such delimited frontmatter is found again by framing |
| Posts.ShapedContents | src/core/posts.rs:61-91 | the map holds exactly `title`, `draft`, `content_type`, `date` when given, non-empty `categories`/`tags` as string arrays, and the extra keys, never `category` |
| Posts.ParseFrontmatter | src/core/posts.rs:45-93 | the successive inserts and the loop over the extra fields build the map `Parsed` describes, with the trimmed body |
| Posts.InsertAll | src/core/posts.rs:88-90 | inserting every extra entry into the map gives the map overridden by the extras |
| Posts.UnframedIsAllBody | src/core/posts.rs:46-53 | with no frontmatter, the map is empty and the body is the whole text, untrimmed |
| Posts.UndecodableIsError | src/core/posts.rs:55-56 | frontmatter the YAML decoder rejects makes the parse fail |
| Posts.StringsOfStrs | src/core/posts.rs:138-143 | keeping the string elements of a string array gives back the strings in order |
| Posts.ParseDate | src/core/posts.rs:109-122 | RFC 3339 is tried first, then `YYYY-MM-DD` at midnight UTC, and the date is absent exactly when both fail |
| Posts.ReadPost | src/core/posts.rs:96-100 | an unreadable file is a read error naming its path; a post keeps the path it was read from |
| Posts.ReadUnframed | src/core/posts.rs:103-153 | a file without frontmatter becomes an untitled, undated, non-draft post whose body is the whole text |
| Posts.ReadFramed | src/core/posts.rs:96-166 | a framed file's post takes title, date, draft, type, categories and tags from the frontmatter, the trimmed rest as body and the shaped map |
| Posts.ShapedFields | src/core/posts.rs:103-153 | each field read back from the shaped map with its default is the decoded struct's field |
| Posts.FramedBodyIsTrimmed | src/core/posts.rs:58 | the body of a framed post is trimmed |
| Posts.Kept | src/core/posts.rs:186-198 | an entry gives a post exactly when it is a file with extension `md` or `markdown` and reads without error |
| Posts.ScanPosts | src/core/posts.rs:169-204 | the loop pushing each kept post, then the sort, gives the scan result (empty when the content directory is missing) |
| Posts.ScannedIffKept | src/core/posts.rs:178-199 | a post is scanned exactly when some entry yields it |
| Posts.ScannedNewestFirst | src/core/posts.rs:202 | scanned posts are newest first, undated posts last |
| Posts.ScannedUniquePaths | src/core/posts.rs:178-202 | a walk that visits each path once gives posts with distinct paths |
| Posts.SavePost | src/core/posts.rs:208-224 | the pushed lines joined with line breaks, then a blank line and the body, are the saved text; the encode or write failure is reported |
| Posts.SaveThenParse | src/core/posts.rs:46-58 | the saved text frames back to the trimmed YAML between line breaks, and parses to the trimmed body, when the YAML holds no `---` |
| Posts.SaveThenReload | src/core/posts.rs:208-218 | re-reading a saved post gives its trimmed body, so an already-trimmed body survives the round trip |
| Posts.CategoryIsDropped | src/core/posts.rs:37 | a parsed map never holds the singular `category` key |
| SiteConfig.DevServerUrlsAreLocal | src/core/config.rs:31-37 | each generator's server is on localhost, at ports 1313, 4000 and 8080, all distinct |
| SiteConfig.DefaultContentPath | src/core/config.rs:40-52 | the default configuration is Hugo with no editor, and its posts are in `content` |
| SiteConfig.ContentPathUnderSite | src/core/config.rs:89-91 | a relative content directory lies under the site path; an absolute one replaces it |
| SiteConfig.PreviewUrl | src/core/config.rs:95-110 | there is no preview URL exactly when the post is not under the site path |
| SiteConfig.PreviewUrlShape | src/core/config.rs:102-109 | a preview URL is the server URL, a `/`, and a path without backslashes |
| SiteConfig.PreviewUrlNamesPost | src/core/config.rs:99-109 | read back as a path, the URL path is the post's path under the site without its extension |
| SiteConfig.PreviewUrlOf | src/core/config.rs:95-110 | a post under the site previews at the server URL, a `/`, and its path below the site without its extension, when no component holds a backslash |
| SiteConfig.PreviewUrlExample | src/core/config.rs:95-110 | `/srv/blog/content/posts/hello.md` under the Hugo site `/srv/blog` previews at `http://localhost:1313/content/posts/hello` |
| SiteConfig.DetectSsgPriority | src/core/config.rs:114-137 | each generator is chosen exactly when its markers exist and none of an earlier generator does; Hugo also when no marker exists |
| SiteConfig.DetectContentDirChoices | src/core/config.rs:140-167 | Hugo always gets `content` and Jekyll `_posts`; Eleventy gets `src` exactly when `src` exists and `posts` does not |
| AppSpec.IndexOfPath | src/tui/app.rs:486 | `iter().find` by path gives the first post with that path, or none when no post has it |
| AppSpec.FieldKeys | src/tui/app.rs:620-621 | the metadata rows are the frontmatter's keys, each exactly once (sorted by `Text.SortedKeys`) |
| AppSpec.ContentWindowAsWritten | src/tui/app.rs:381-385 | the renderer's window: the lines from the scroll offset, 30 of them or up to the end, defined only while the offset is within the body |
| AppSpec.ContentWindow | src/tui/app.rs:381-385 | the clamped window: at most 30 lines, empty past the end, and the renderer's window wherever that is defined |
| AppSpec.BodyText | src/tui/app.rs:381-388 | the body pane shows the placeholder without a selection, and the renderer's text whenever the state is drawable |
| AppSpec.SearchInput | src/tui/app.rs:445-461 | no contract of its own: the search-mode transition, characterised by `AppProperties.SearchKeys` and `AppProperties.SearchTypingNarrows` |
| AppSpec.EditInput | src/tui/app.rs:463-545 | no contract of its own: the edit- and add-mode transition, characterised by `AppProperties.EditKeysTouchOnlyBuffer`, `EscCancelsEdit`, `CommitEditSetsOneField`, `AddFirstEnterTakesKey`, `AddSecondEnterInserts` and `AddNeverInsertsEmptyKey` |
| AppSpec.NormalInput | src/tui/app.rs:548-730 | no contract of its own: the normal-mode key dispatch, characterised by `AppProperties.NormalInputCases`, `NormalInputPosts` and `QuitKeys` |
| AppSpec.Next | src/tui/app.rs:438-731 | no contract of its own: one pass of the loop (clear the status unless Ctrl+S, then dispatch on the mode), characterised by `AppProperties.NextPreservesValid`, `NextChangesAtMostOnePost` and `NextKeepsUniquePaths` |
| AppProperties.InitialValid | src/tui/app.rs:47-68 | a new `App` satisfies the loop invariant, is drawable, selects the first row, sorts newest first and shows drafts too |
| AppProperties.NextPreservesValid | src/tui/app.rs:438-731 | every event keeps the loop invariant: three panes, at most one input mode, a pending key only while adding |
| AppProperties.NormalInputCases | src/tui/app.rs:548-730 | a normal-mode key runs exactly one command or nothing |
| AppProperties.EnterKeepsOrReloads | src/tui/app.rs:608-647 | Enter changes no post, except that a successful editor run reloads all of them |
| AppProperties.SelectNextClamps | src/tui/app.rs:100-105 | `select_next` moves down one row exactly when a row lies below, and keeps an on-screen selection on screen |
| AppProperties.SelectPrevUndoesNext | src/tui/app.rs:100-111 | below the last row, `select_prev` undoes `select_next` |
| AppProperties.SelectNextUndoesPrev | src/tui/app.rs:100-111 | away from the first row, `select_next` undoes `select_prev`; at the first row `select_prev` changes nothing |
| AppProperties.MetadataSelectionClamps | src/tui/app.rs:573-598 | metadata down moves one row and never past the "Add field" row; up stops at 0 |
| AppProperties.BodyScrollInverse | src/tui/app.rs:583-604 | on the body pane, scrolling up undoes scrolling down, down undoes up away from the top, and up at the top changes nothing |
| AppProperties.TargetIsSelected | src/tui/app.rs:483-486 | with distinct paths, the post a field command edits is the selected post itself |
| AppProperties.PaneRotation | src/tui/app.rs:648-657 | forward and backward rotation undo each other, three steps go round, and both reset the field selection and the scroll |
| AppProperties.SortAndFilterRings | src/tui/app.rs:113-126 | four sort presses and two drafts presses restore the state apart from a selection reset to the first row |
| AppProperties.DeleteRefusesTitle | src/tui/app.rs:674-683 | deleting `title` changes only the status, which says it cannot be deleted |
| AppProperties.DeleteOffFieldsDoesNothing | src/tui/app.rs:658-673 | `d` on the "Add field" row or away from the metadata pane does nothing |
| AppProperties.DeleteRemovesOneKey | src/tui/app.rs:658-690 | deleting removes exactly the selected key of exactly the target post, and the selection stays on a field row or the list is empty |
| AppProperties.SetFieldEffect | src/tui/app.rs:514-529 | an edit writes `Bool(buffer == "true")` under `draft` and a string otherwise, keeps the other keys, and syncs `title`, `draft` and `content_type`/`type` |
| AppProperties.CommitEditSetsOneField | src/tui/app.rs:498-535 | Enter in edit mode sets the selected field of the target post only, and leaves edit mode with an empty buffer |
| AppProperties.EditKeysTouchOnlyBuffer | src/tui/app.rs:465-470 | characters and backspace in edit or add mode change only the buffer |
| AppProperties.EscCancelsEdit | src/tui/app.rs:537-543 | Esc in edit or add mode clears both buffers and flags and touches no post |
| AppProperties.AddFirstEnterTakesKey | src/tui/app.rs:473-477 | the first Enter of an add moves the buffer into the key; an empty buffer keeps the key pending |
| AppProperties.AddSecondEnterInserts | src/tui/app.rs:477-496 | the second Enter inserts the buffer as a string under the key into the target post only, overwriting, and ends the add |
| AppProperties.AddNeverInsertsEmptyKey | src/tui/app.rs:472-497 | an add never inserts under the empty key, and a changed post gains only the pending key |
| AppProperties.SearchKeys | src/tui/app.rs:445-461 | in search mode a character appends and backspace pops, each selecting the first row; Enter and Esc leave search mode and keep the query |
| AppProperties.SearchTypingNarrows | src/tui/app.rs:447-450 | with ASCII lowercasing, typing in search mode never brings a post into view |
| AppProperties.SearchStartShowsAll | src/tui/app.rs:714-720 | `/` starts a search with an empty query, so every post the drafts filter lets through is shown |
| AppProperties.EscClearsSearch | src/tui/app.rs:721-727 | Esc in normal mode clears a non-empty query and selects the first row, and changes nothing else when there is no query |
| AppProperties.NormalInputPosts | src/tui/app.rs:548-730 | a normal-mode key keeps the posts, reloads them all, or is the field delete |
| AppProperties.NextChangesAtMostOnePost | src/tui/app.rs:438-731 | an event either reloads the posts or changes at most one of them in place, keeping every path and every `title` key |
| AppProperties.NextKeepsUniquePaths | src/tui/app.rs:438-731 | distinct post paths stay distinct under every event |
| AppProperties.QuitKeys | src/tui/app.rs:549-569 | the loop ends exactly on `q` or Ctrl+C in normal mode |
| AppProperties.SaveReports | src/tui/app.rs:550-566 | Ctrl+S reports the saved path or the encode/write error in the status line and changes nothing else |
| AppProperties.BodyWindowAgrees | src/tui/app.rs:381-385 | within the body, the clamped window is the renderer's window |
| AppProperties.ScrollDownLeavesBody | src/tui/app.rs:585 | the initial state over one post with an empty body, with the body pane focused, is drawable, and one Down makes it undrawable |
| AppProperties.ScrollDownPastEmptyBody | src/tui/app.rs:583-586 | in normal mode on the body pane, Down or `j` with an empty-bodied post selected always leaves the state undrawable |
| AppProperties.CycleSortLeavesBody | src/tui/app.rs:113-121 | cycling the sort resets the selection but not the scroll, so a drawable state scrolled to the end of a one-line body becomes undrawable when an empty post moves to the first row |
| TuiApp.Retain | src/tui/app.rs:74-76 | the `retain` loop computes `Keep` |
| TuiApp.FindPost | src/tui/app.rs:486 | the search from the front finds the first post with the path |
| TuiApp.App.constructor | src/tui/app.rs:47-68 | `App::new` scans the posts and starts in the initial state, which satisfies the invariant |
| TuiApp.App.FilteredPosts | src/tui/app.rs:70-98 | the `retain` and `sort_by` steps compute the view |
| TuiApp.App.SelectNext | src/tui/app.rs:100-105 | updates `selected` as `AppSpec.SelectNext` says |
| TuiApp.App.SelectPrev | src/tui/app.rs:107-111 | updates `selected` as `AppSpec.SelectPrev` says |
| TuiApp.App.CycleSort | src/tui/app.rs:113-121 | updates the sort mode and selection as `AppSpec.CycleSort` says |
| TuiApp.App.ToggleDrafts | src/tui/app.rs:123-126 | updates the drafts filter and selection as `AppSpec.ToggleDrafts` says |
| TuiApp.App.OpenInEditor | src/tui/app.rs:128-169 | runs the chosen editor on the selected post's path, and succeeds when no post is selected |
| TuiApp.App.NextPane | src/tui/app.rs:648-652 | updates the pane, field row and scroll as `AppSpec.NextPane` says |
| TuiApp.App.PrevPane | src/tui/app.rs:653-657 | updates the pane, field row and scroll as `AppSpec.PrevPane` says |
| TuiApp.App.Rescan | src/tui/app.rs:693-695 | replaces the posts by a new scan of the content tree and changes nothing else |
| TuiApp.App.StartSearch | src/tui/app.rs:714-720 | enters search mode with an empty query, row 0 and the search status, as `AppSpec.StartSearch` says |
| TuiApp.App.ClearSearch | src/tui/app.rs:721-728 | clears a non-empty query, selecting row 0 with the cleared status, as `AppSpec.ClearSearch` says |
| TuiApp.App.HandleKey | src/tui/app.rs:438-547 | clears the status unless the key is Ctrl+S, then dispatches on the mode; the new state and whether the loop goes on are `AppSpec.Next` of the old state on that key |
| TuiApp.App.SearchKey | src/tui/app.rs:445-461 | updates the fields as the search-mode transition says |
| TuiApp.App.EditKey | src/tui/app.rs:463-545 | updates the fields and the target post as the edit-mode transition says |
| TuiApp.App.CommitEdit | src/tui/app.rs:498-535 | updates the target post and leaves edit mode as `AppSpec.CommitEdit` says |
| TuiApp.App.CommitAdd | src/tui/app.rs:472-497 | takes the key or inserts the field as `AppSpec.CommitAdd` says |
| TuiApp.App.MoveDown | src/tui/app.rs:570-589 | updates the selection, field row or scroll as `AppSpec.MoveDown` says |
| TuiApp.App.MoveUp | src/tui/app.rs:590-607 | updates the selection, field row or scroll as `AppSpec.MoveUp` says |
| TuiApp.App.EnterKey | src/tui/app.rs:608-647 | starts an add or an edit, or runs the editor and reloads, as `AppSpec.EnterKey` says |
| TuiApp.App.DeleteField | src/tui/app.rs:658-690 | removes the field or refuses, as `AppSpec.DeleteField` says |
| TuiApp.App.SaveSelected | src/tui/app.rs:550-566 | saves the target post and sets the status as `AppSpec.SaveSelected` says |
| TuiApp.App.Preview | src/tui/app.rs:696-713 | sets the status from the preview URL and the browser outcome as `AppSpec.Preview` says |
| TuiApp.App.NormalKey | src/tui/app.rs:548-730 | dispatches a normal-mode key as `AppSpec.NormalInput` says, and reports whether the loop goes on |
| TuiApp.App.Step | src/tui/app.rs:438-731 | one pass of the loop updates the fields as `AppSpec.Next` says, keeps the loop invariant and keeps post paths distinct |

## Left out

- Terminal setup, drawing and `event::read` are left out. The loop's input is an `Event` value,
  and a non-key event changes nothing.
- Rendering is left out apart from the body window. That covers layout, colours, the markers,
  the metadata list's value formatting and the sort-arrow headers.
- Process spawning is an outcome in `Env`. That covers the editor in `open_in_editor`, the
  browser in `o`, and the raw-mode and alternate-screen switches around them.
- The text of an `anyhow` error is left out. `Env.describe` gives the message of a save error.
- The YAML decoder and encoder are the function values of a `Codec`. They are assumed to keep
  the struct's keys out of `extra`, as serde's `flatten` does (`DecoderSound`, used by
  `CategoryIsDropped` only).
- The RFC 3339 and calendar-date parsers are left out. Only the order in which they are tried,
  and the scaling of days to nanoseconds, are modelled.
- `Text.Lower` is ASCII-only. Unicode `to_lowercase` is not modelled: it can change the length,
  and it lowercases `Σ` to `ς` at the end of a word.
- PostView.LongerQueryNarrows: holds for the ASCII `Lower` only. With Unicode `to_lowercase` it
  fails for a word-final `Σ`: the query `AΣ` lowercases to `aς` and hides a post titled `aσb`, and
  `AΣB` lowercases to `aσb` and shows that post again.
- AppProperties.SearchTypingNarrows: holds for the ASCII `Lower` only, and fails for a word-final
  `Σ` for the same reason as `PostView.LongerQueryNarrows`.
- `Num` values keep their text, so `Number::to_string` is not modelled.
- Filesystem access is a sequence of `Entry` values, and a post's read outcome is part of its
  entry. That covers `WalkDir` (and its symlink following), `is_file`, `fs::read_to_string`
  and `fs::write`. The order of the walk is the order of the sequence.
- Paths are sequences of components. Platform-specific `PathBuf` parsing is left out, as are
  `..` and `.` components. The backslash rewrite of `preview_url` is kept.
- `Config::load`, `Config::save`, `config_path` and `configure_site` are left out: they are
  disk and environment access.
- `AppSpec.Rescan` is the rescan on `r` and after the editor: a new scan of the content tree in
  `Env`. `scan_posts` never fails on these inputs.
- `content_scroll` is a `nat`. The `usize` overflow of `content_scroll += 1` is not modelled.
- `PostOrder.SortPosts` is a stable insertion sort, not `sort_by`'s in-place merge sort. Both
  are stable sorts of the same order, so they give the same list.
- `TuiApp.App.FilteredPosts` sorts by calling that function rather than by an in-place sort
  loop.

## Findings

| source | as written | input that shows it | evidently intended | confidence | as-written member | corrected member |
|---|---|---|---|---|---|---|
| src/tui/app.rs:585, 381-385 | body-pane down increments `content_scroll` with no bound, and the renderer slices `lines[scroll..min(scroll + 30, len)]`, which is out of bounds once `scroll > len` | one post with an empty body, body pane focused, scroll 0, then `j`: scroll 1 over 0 lines. The scroll is reset only by a pane change (src/tui/app.rs:651, 656), so `s`, `f`, `r`, typing after `/`, or an editor run that shortens the post can also select a post shorter than the scroll; `AppProperties.CycleSortLeavesBody` shows `s` doing so | the window clamped to the body, so it is empty (or the last lines) past the end | not executed | AppProperties.ScrollDownLeavesBody | AppSpec.ContentWindow |
