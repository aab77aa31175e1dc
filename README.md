# yoink: a verified model of the search engine and picker logic

yoink is a terminal file and content search. It walks the tree below the
working directory and keeps the paths whose name matches a regex query. It
asks `rg -l` which files contain the query. It merges both sources into one
candidate per path and ranks them by depth or alphabetically. It lays out a
header row per candidate and one row per `rg -n --column` occurrence, with
the matches highlighted. These rows go to `fzf`. When the picker exits, yoink
opens the chosen file in an editor, or prints the directory to change into.

This project models in Dafny the parts of that pipeline that make decisions:

- **`load_settings`** (`settings.dfy`): reading the ignore file into three
  toggles, a sort mode and the ordered glob list.
- **`build_candidates`** (`candidates.dfy`): the `filter_entry` closure with
  the walk's pruning, and the two loops that merge walk hits and `rg -l` hits
  into one map.
- **`sort_candidates` and `path_depth`** (`ranking.dfy`): an in-place sort of
  the candidate slice.
- **The parsing half of `collect_occurrences`** (`occurrences.dfy`).
- **`build_search_entries`, `highlight_query_matches`, `truncate_snippet` and
  `format_search_entries`** (`presentation.dfy`).
- **`parse_selected_line`, the picker-output decoding and key dispatch of
  `run_fzf_session`, and the line window of `run_preview`** (`ui.dfy`).
- **`resolve_target_dir`** (`actions.dfy`).

`text.dfy` models the Rust string operations the code relies on: `trim`,
`to_ascii_lowercase`, `split_once`, `splitn`, `lines`, `parse::<usize>`,
`to_string`, `{:>width$}`, `replace` and the `String` order. `paths.dfy`
models relative paths as lists of components, the way `Path::components` sees
them. `environment.dfy` gathers what the engine observes from outside as plain
inputs:

- the ignore file;
- the walk's entries;
- `fs::metadata`;
- the standard output of the `rg` runs;
- the glob and regex crates.

The regex and glob crates appear as functions inside a `Matchers` value.
`WellBehaved` states the one promise the model needs from `find_iter`: its
matches are in order, do not overlap and lie inside the text.

Methods mirror the source's loops. Each method is proved equal to a
specification function, and lemmas state what the source promises about
those functions.

Two behaviours of the code are worth knowing when reading the model:

- **Snippet truncation.** The snippet is cut after highlighting, so the colour
  markers count towards the 140-character limit
  (`Presentation.MarkersCountTowardsLimit`).
- **Default ignore globs.** The second default glob is the literal
  `node_modukes/**`, and the model keeps it.

## Model

| member | source | states |
|---|---|---|
| Text.TrimStart | src/search.rs:101 | `trim_start` drops only leading whitespace; the result is empty or starts with a non-whitespace character |
| Text.Trim | src/search.rs:101 | `str::trim`: `trim_end` after `trim_start`; `TrimIsBlank`, `TrimAvoids` and `TrimUnpadded` state what it keeps |
| Text.TrimStartSuffix | src/search.rs:101 | what `trim_start` keeps is a suffix of the text, and what it drops is all whitespace |
| Text.TrimEnd | src/search.rs:101 | `trim_end` drops only trailing whitespace; the result is empty or ends with a non-whitespace character |
| Text.TrimEndPrefix | src/search.rs:101 | what `trim_end` keeps is a prefix of the text, and what it drops is all whitespace |
| Text.TrimIsBlank | src/search.rs:287 | `line.trim().is_empty()` holds exactly when every character is whitespace |
| Text.TrimAvoids | src/search.rs:540 | trimming never brings in a character the text did not have |
| Text.TrimUnpadded | src/search.rs:101-108 | text that neither starts nor ends with whitespace is unchanged by `trim` |
| Text.ToAsciiLower | src/search.rs:107 | `to_ascii_lowercase` keeps the length |
| Text.ToAsciiLowerAt | src/search.rs:107 | lower-casing maps each character independently |
| Text.ToAsciiLowerNoUpper | src/search.rs:107 | text without ASCII capitals is its own lower-case form |
| Text.SplitOnce | src/search.rs:106 | `split_once('=')` is None exactly when there is no `=`; otherwise the text is key, `=`, value, and the key has no `=` |
| Text.SplitOnceAt | src/search.rs:106 | splitting `a=b`, where `a` has no `=`, gives back `a` and `b` |
| Text.SplitN | src/search.rs:512 | `splitn(n, c)` gives 1 to n pieces that join back to the text; no piece but the last holds `c`; fewer than n pieces means the last holds no `c` either |
| Text.SplitNCons | src/search.rs:512 | the first piece of `splitn` ends at the first separator, and the rest is split with one piece fewer |
| Text.Split | src/search.rs:289 | splitting at `/` gives pieces without `/` that join back to the text |
| Text.SplitJoin | src/search.rs:289 | splitting a text joined from `/`-free pieces gives the pieces back |
| Text.JoinAvoids | src/search.rs:232 | pieces free of `c`, joined with another separator, give a text free of `c` |
| Text.Lines | src/search.rs:100 | `str::lines` yields lines without `\n`, and none at all only for the empty text |
| Text.LinesCons | src/search.rs:100 | a line without `\n` or trailing `\r`, followed by `\n`, is the first line |
| Text.LinesAfterBreak | src/ui.rs:150 | the text before the first `\n` is the first line, with a trailing `\r` removed |
| Text.LinesSnoc | src/ui.rs:48-53 | appending a line and a `\n` to text that ends a line adds exactly that line |
| Text.LinesTerminated | src/ui.rs:48-53 | rows written one per line read back as exactly those rows |
| Text.LinesSingle | src/search.rs:100 | a non-empty text without `\n` is a single line |
| Text.ReplaceChar | src/search.rs:540 | `replace('\t', …)` with a tab-free replacement leaves no tab, and leaves a tab-free text unchanged |
| Text.ReplaceCharKeeps | src/search.rs:400 | replacing tabs brings in no character that was not in the text or the replacement |
| Text.ParseUsize | src/search.rs:528-535 | `parse::<usize>` rejects the empty text and any character other than a digit or `+`, and never yields more than 2^64-1 |
| Text.NatToString | src/search.rs:399 | `to_string` prints decimal digits, without leading zeros, whose value is the number |
| Text.ParsePrinted | src/search.rs:528 | parsing a printed `usize` gives the number back |
| Text.DigitsAvoid | src/search.rs:512 | printed numbers hold no `:` or other non-digit |
| Text.PadLeftFacts | src/search.rs:379-384 | `{:>width$}` fills exactly `max(width, len)` characters: spaces first, then the text |
| Text.LexLeTotal | src/search.rs:455-469 | any two `String` keys are ordered one way or the other |
| Text.LexLeTransitive | src/search.rs:455-469 | the `String` order is transitive |
| Text.LexLeAntisymmetric | src/search.rs:455-469 | two strings that are each no greater than the other are equal |
| Text.TrimDotSlash | src/search.rs:288 | `trim_start_matches("./")` keeps a suffix of the text and leaves no leading `./`; `Occurrences.DisplayHasNoDotSlash` shows it leaves a walked path alone |
| Paths.NormalSegments | src/search.rs:289 | building a `PathBuf` drops empty and `.` segments, keeps every other segment, and changes nothing when there are none to drop |
| Paths.Display | src/search.rs:232 | `to_string_lossy` of a walked path: the components joined by `/`; `ParseDisplay` reads it back and `DisplayInjective` makes it a faithful sort key |
| Paths.IsHidden | src/search.rs:54-59 | `is_hidden_path` holds exactly when some component starts with `.`; `Candidates.NoExcludedCandidate` uses it |
| Paths.Depth | src/search.rs:410-412 | `path_depth` counts the components; `Ranking.DepthShallowFirst` and the `KeyLe` lemmas order by it |
| Paths.ParsePath | src/search.rs:288-289 | components read from text are non-empty and `/`-free, and only the first may be `.` |
| Paths.ParseDisplay | src/search.rs:232 | reading back `to_string_lossy` of a walked path gives the same components |
| Paths.DisplayInjective | src/search.rs:458-466 | two walked paths with the same display string are the same path, so the string sort key tells candidates apart |
| Settings.ParseKey | src/search.rs:109-135 | exactly the four key spellings are recognised; any other key falls through |
| Settings.ParseBool | src/search.rs:61-67 | `parse_bool_setting` reads `true`/`1`/`yes`/`on` and `false`/`0`/`no`/`off` after trimming and lower-casing; `ApplyKindError` states that anything else fails the load with that key and value |
| Settings.ParseSortMode | src/search.rs:69-75 | `parse_sort_mode_setting` reads `depth` and `alphabetical` after trimming and lower-casing; `ApplyKindError` states that anything else fails the load |
| Settings.Classify | src/search.rs:100-138 | blank and `#` lines are skipped exactly; a glob line is the trimmed line, not blank and not a comment |
| Settings.FirstInvalidGlob | src/search.rs:143-149 | there is no invalid glob exactly when every glob compiles; a reported glob is in the list and does not compile |
| Settings.LoadSettings | src/search.rs:85-160 | the loader returns exactly `LoadSpec`: defaults without a file, a read error for an unreadable file, otherwise the lines applied in order and then every glob compiled |
| Settings.ReadIgnoreLines | src/search.rs:100-139 | the line loop equals applying the classified lines in order and stopping at the first error |
| Settings.ReadIgnoreLine | src/search.rs:101-138 | one loop turn equals applying the line's classification |
| Settings.FindInvalidGlob | src/search.rs:143-149 | the builder loop reports the first glob, in list order, that does not compile |
| Settings.FirstInvalidIsFirst | src/search.rs:144-148 | when every glob before `j` compiles and glob `j` does not, glob `j` is the one reported |
| Settings.ApplyKindSettings | src/search.rs:109-133 | a line that applies cleanly changes only the setting it names, to the value it gives |
| Settings.ApplyKindError | src/search.rs:110-133 | a line fails exactly when it names a known key with a value that does not parse, and fails with that key and value |
| Settings.LoadedGlobs | src/search.rs:90-138 | the loaded globs are the defaults followed by every glob line, in file order |
| Settings.LastSettingWins | src/search.rs:86-133 | each toggle and the sort mode end with the value of the last line naming them, else their default |
| Settings.LoadSucceedsIff | src/search.rs:100-139 | loading succeeds exactly when no line has a bad value; otherwise the error is that of the first such line |
| Settings.NoFileGivesDefaults | src/search.rs:86-95 | with no ignore file the settings are hidden, mounts and symlinks off, depth order and the two built-in globs |
| Settings.UnreadableFails | src/search.rs:97-98 | an ignore file that exists but cannot be read fails the load |
| Settings.ClassifySetting | src/search.rs:101-135 | a line whose trimmed text is `key=value`, split at its first `=`, with a key that trims and ASCII-lower-cases to one of the four names, sets that key to the trimmed value and never reaches the glob list |
| Settings.ClassifyGlob | src/search.rs:101-138 | every other line that is not blank and not a comment is kept as a glob: its trimmed text |
| Settings.UnknownKeyIsGlob | src/search.rs:106-138 | `foo=bar` has an unknown key, so it is kept as a glob |
| Candidates.WalkHit | src/search.rs:221-252 | a walk entry contributes a candidate for its own path, marked as a path match and not a content match |
| Candidates.Admitted | src/search.rs:186-219 | the `filter_entry` closure: the root is kept; a symlink (without the toggle), a hidden or ignored path, or a directory on another device is rejected; `NoExcludedCandidate` and `PrunedSubtree` state the consequences |
| Candidates.Search | src/search.rs:162-325 | the candidate map of `build_candidates`; `MergeFacts` gives its contents and `BuildCandidates` is proved to return its values, sorted |
| Candidates.WalkFoldFacts | src/search.rs:243-252 | after the walk loop the map holds exactly the hit paths, each keyed by its path and holding the candidate of its first hit |
| Candidates.ContentFoldFacts | src/search.rs:311-318 | after the `rg -l` loop the map holds the walk's paths plus the `rg` paths; walk candidates gain `content_match` exactly when `rg` hit them, and `rg`-only paths are content matches with `is_dir` from the file system |
| Candidates.MarkContentFacts | src/search.rs:311-318 | one `entry().and_modify().or_insert()` touches only the hit path |
| Candidates.WalkPhase | src/search.rs:221-253 | the walk loop builds exactly the fold of the walk hits |
| Candidates.ContentPhase | src/search.rs:287-319 | the `rg -l` loop builds exactly the fold of the content hits over the walk's map |
| Candidates.ContentLine | src/search.rs:288-318 | one turn of the `rg -l` loop marks or inserts the line's path when it survives the filters |
| Candidates.RgLinePath | src/search.rs:287-307 | blank lines, hidden or ignored paths and paths on another device are dropped; otherwise the path without its `./` prefix is kept |
| Candidates.MergeFacts | src/search.rs:243-318 | the merged map has one candidate per path the walk or `rg` hit; `path_match` holds exactly for walk hits and `content_match` exactly for `rg` hits, so at least one holds; `is_dir` comes from the first walk hit, else from the file system |
| Candidates.NoExcludedCandidate | src/search.rs:201-203 | no candidate is hidden (unless hidden paths are included) or ignored, whichever loop found it |
| Candidates.ContentOnlyOnRootDevice | src/search.rs:298-307 | with mounts excluded, a candidate only `rg` found is never on another device than the root |
| Candidates.RootIsNoPathMatch | src/search.rs:223-225 | the walk never makes the search root a path match |
| Candidates.RootNeverCandidate | src/search.rs:223-225 | the root is never a candidate when every `rg -l` line names a file below it |
| Candidates.PrunedSubtree | src/search.rs:186-219 | no entry is yielded below a directory that `filter_entry` rejects |
| Candidates.SymlinksNotWalked | src/search.rs:192-194 | without `include_symlinks` no path match is a symbolic link or lies below one |
| Candidates.EmptyQueryMatchesWalk | src/search.rs:238-241 | with an empty query every yielded entry other than the root is a path match, and no other entry is |
| Candidates.MergedKeyedByPath | src/search.rs:244-311 | every merged candidate is filed under its own path |
| Candidates.CollectValues | src/search.rs:322 | `into_values().collect()` lists every candidate of the map exactly once, with distinct paths |
| Candidates.RankValues | src/search.rs:322-324 | the collected and sorted list has the map's candidates, each once, in sort order |
| Candidates.BuildCandidates | src/search.rs:162-325 | fails exactly when the search specification fails, with the same error (settings, root stat, regex, `rg`); otherwise it returns the merged candidates, each once, sorted by the configured mode |
| Candidates.MultisetKeepsUnique | src/search.rs:323 | sorting in place keeps the elements and their distinct paths |
| Ranking.KeyLeTotal | src/search.rs:455-469 | any two candidates' sort keys are comparable |
| Ranking.KeyLeTransitive | src/search.rs:455-469 | the sort key order is transitive |
| Ranking.KeyLeAntisymmetric | src/search.rs:455-469 | walked paths with equal sort keys are equal, so the order has no ties among candidates |
| Ranking.SortCandidates | src/search.rs:455-469 | `sort_candidates` leaves the slice ordered by depth then path string (or by path string alone) and a permutation of its input |
| Ranking.InsertNext | src/search.rs:455-469 | inserting the next candidate extends the sorted prefix by one and permutes the slice |
| Ranking.InsertingStep | src/search.rs:455-469 | one swap keeps the insertion invariant |
| Ranking.InsertingDone | src/search.rs:455-469 | when the insertion stops, the prefix is sorted |
| Ranking.AlphabeticalNestedFirst | tests/search.rs:183-208 | in alphabetical mode `a/deeper/file1.txt` sorts before `a_root.txt` |
| Ranking.DepthShallowFirst | tests/search.rs:146-178 | in depth mode `a_root.txt` comes before `z_root.txt`, and both come before `a/deeper/file1.txt` |
| Occurrences.GroupFoldFacts | src/search.rs:537-541 | the grouped map holds exactly the paths with a record, each with its occurrences in output order |
| Occurrences.ParseRgLine | src/search.rs:512-541 | one `path:line:column:snippet` record; `ParseOccurrenceLine` computes it and `ParseRecord` reads a printed record back |
| Occurrences.ParseOccurrenceLine | src/search.rs:512-541 | one record is parsed as specified: fewer than three fields or a bad number skips it; the snippet is the unsplit rest with tabs made spaces, trimmed |
| Occurrences.AddLine | src/search.rs:511-541 | one loop turn appends a non-blank line's record to its path's list |
| Occurrences.GroupRecords | src/search.rs:509-542 | the record loop groups the parsed records by path, in output order |
| Occurrences.SortOccurrences | src/search.rs:545 | each list is sorted by (line, column) and is a permutation of its input |
| Occurrences.InsertOccurrence | src/search.rs:545 | inserting the next occurrence extends the sorted prefix by one and permutes the list |
| Occurrences.SortEach | src/search.rs:544-546 | sorting every list keeps the paths, and makes each list a sorted permutation of its own |
| Occurrences.CollectOccurrences | src/search.rs:508-548 | the map holds exactly the paths with a record, each list a (line, column)-sorted permutation of that path's records |
| Occurrences.ParsedHasTwoColons | src/search.rs:512-524 | a record is only kept when its line has at least two `:` |
| Occurrences.SnippetHasNoTab | src/search.rs:540 | a kept snippet holds no tab |
| Occurrences.ParseRecord | src/search.rs:512-541 | a record printed as `path:line:column:snippet` parses back to its path and occurrence |
| Occurrences.RecordFields | src/search.rs:512-525 | `splitn(4, ':')` of such a record gives the path, the two numbers and the snippet |
| Occurrences.DisplayHasNoDotSlash | src/search.rs:527 | stripping `./` leaves a walked path's display unchanged |
| Presentation.HighlightQueryMatches | src/search.rs:430-453 | the loop over `find_iter` produces exactly the highlighted text: gaps copied, each match wrapped in `ESC[1;36m` … `ESC[0m`, then the rest |
| Presentation.Highlight | src/search.rs:430-453 | the reference definition of `highlight_query_matches`; `UnmarkHighlight`, `HighlightMarkerCount` and `HighlightLength` state its properties |
| Presentation.EmitMatch | src/search.rs:439-445 | one loop turn emits the gap before the match and the marked match, and moves `last` to the match's end |
| Presentation.UnmarkHighlight | src/search.rs:430-453 | deleting the markers from a highlighted text gives the original text back |
| Presentation.HighlightMarkerCount | src/search.rs:438-446 | each match adds exactly one opening marker and one reset |
| Presentation.HighlightLength | src/search.rs:438-446 | highlighting adds exactly eleven characters per match |
| Presentation.TruncatedFacts | src/search.rs:414-428 | a snippet of at most `max` characters is kept whole; a longer one becomes its first `max` characters followed by `…` |
| Presentation.Truncated | src/search.rs:414-428 | the reference definition of `truncate_snippet`; `TruncatedFacts` gives its closed form |
| Presentation.TruncateSnippet | src/search.rs:414-428 | the character loop computes exactly the truncated snippet |
| Presentation.LineWidth | src/search.rs:363-368 | the line-number column is at least 4 wide and at least as wide as every line number, and is either 4 or the width of one of them |
| Presentation.CandidateEntries | src/search.rs:348-390 | the rows pushed for a candidate are exactly its header and occurrence rows, or none |
| Presentation.OccurrenceEntries | src/search.rs:370-389 | the inner loop pushes one row per occurrence, in order |
| Presentation.HeaderEntry | src/search.rs:349-361 | the header row is the icon, a space and the highlighted path, with no line |
| Presentation.OccurrenceEntry | src/search.rs:371-388 | an occurrence row is the count column, the arrow, the padded line number and the highlighted, truncated snippet |
| Presentation.BuildRows | src/search.rs:344-391 | the row loop produces the rows of every candidate, in candidate order |
| Presentation.BuildSearchEntries | src/search.rs:327-394 | fails exactly when the settings or the candidates fail, or `rg` cannot start for a non-blank query; otherwise the rows are laid out from ranked candidates and sorted occurrence groups |
| Presentation.CandidateRowsShape | src/search.rs:344-391 | a candidate has rows exactly when it matched by path or has occurrences: one header row with no line, then one row per occurrence carrying that occurrence's line |
| Presentation.CountOnFirstRowOnly | src/search.rs:372-376 | only the first occurrence row starts with the yellow count; the others start with two spaces |
| Presentation.HeaderShowsPath | src/search.rs:349-355 | a header shows the folder icon for a directory and the file icon otherwise, then the path, which deleting the markers gives back |
| Presentation.MarkersCountTowardsLimit | src/search.rs:371-383 | a snippet that fits the limit is still cut when its highlight markers push it over |
| Presentation.RowsFromCandidates | src/search.rs:344-391 | every row stands for one of the candidates |
| Presentation.CandidateRowsPaths | src/search.rs:357-388 | every row of a candidate carries the candidate's path |
| Presentation.ShownCandidateHasHeader | src/search.rs:348-361 | every candidate that matched by path or has occurrences has its header among the rows |
| Presentation.LineField | src/search.rs:399 | the line column is empty exactly for a header row, and is otherwise the digits of the line number |
| Presentation.RowTextFields | src/search.rs:400-404 | a row is the display with tabs widened to four spaces, a tab, the path, a tab and the line column |
| Presentation.FormatSearchEntries | src/search.rs:396-408 | the output is every row followed by `\n`, in order |
| Presentation.AppendRow | src/search.rs:399-405 | one loop turn appends exactly one row and its line break |
| Presentation.RowTextIsLine | src/search.rs:399-405 | a row holds no line break and does not end in `\r` |
| Presentation.FormattedLines | src/search.rs:396-408 | reading the output back line by line gives exactly the rows, one per line |
| Actions.JoinPath | src/actions.rs:7 | `cwd.join(rel)` is rooted for an absolute `rel`; for a relative one it extends `cwd` and keeps whether it is rooted |
| Actions.Parent | src/actions.rs:8 | `parent()` is None exactly for a path without components; otherwise it is the path without its last component |
| Actions.ResolveTargetDir | src/actions.rs:6-12 | for a relative selection with at least one named component, the result's components start with `cwd`'s components (lexically: a `..` segment can still lead above `cwd`); `TargetIsParentOfJoined` gives the target exactly |
| Actions.TargetIsParentOfJoined | src/actions.rs:6-12 | the target is the joined path without its last component, or `cwd` when the joined path has none |
| Actions.FileResolvesToItsDirectory | src/actions.rs:6-12 | `dir/name` resolves to `dir` under `cwd` |
| Actions.ResolveRelative | src/actions.rs:6-12 | a relative path whose segments end in `last` resolves to `cwd` joined with the segments before it |
| Actions.SegmentsOfFilePath | src/actions.rs:7 | the segments of `dir/name` are the directory's components, then the name |
| Actions.SingleComponentResolvesToCwd | src/actions.rs:6-12 | a single plain component resolves to `cwd` itself |
| Actions.FileUnderWorkDir | tests/actions.rs:6-10 | under `/tmp/work`, `src/main.rs` resolves to `/tmp/work/src`, and `ShowPath` prints it as that text |
| Actions.ShowPath | src/ui.rs:85-86 | `target.display()` as printed for a directory change: a leading `/` for a rooted path, then the components joined by `/`; `FileUnderWorkDir` and `DirectoryUnderWorkDir` give the printed text of the two test targets |
| Actions.DirectoryUnderWorkDir | tests/actions.rs:13-17 | under `/tmp/work`, `src` resolves to `/tmp/work`, and `ShowPath` prints it as that text |
| Ui.ParseSelectedLine | src/ui.rs:92-105 | the path field holds no tab; a parsed line fits a `usize`; a row without a tab gives an empty path and no line |
| Ui.ParseFields | src/ui.rs:93-104 | a row `display\tpath\tfield` gives the path, and the trimmed field parsed as a line number, or no line when it is blank |
| Ui.ParseTwoFields | src/ui.rs:93-104 | a row `display\tpath` gives the path and no line |
| Ui.SelectedRowRoundTrip | src/ui.rs:92-105 | reading back a row written by `format_search_entries` gives the entry's path and line |
| Ui.LineFieldReadsBack | src/ui.rs:96-102 | the line column, trimmed and parsed, gives the line back, and a blank column gives none |
| Ui.EditorFor | src/ui.rs:65-83 | `ctrl-v`, `ctrl-o` and `ctrl-s`, and only they, select vim, code and subl |
| Ui.FzfAction | src/ui.rs:44-88 | an editor is only opened in `cwd`, on a non-empty path without tabs |
| Ui.NoActionExactly | src/ui.rs:44-63 | nothing happens exactly when fzf failed, no row came back, or the row has no path |
| Ui.DecodeOutput | src/ui.rs:48-53 | the key and the chosen row are the second and third output lines |
| Ui.PressedKey | src/ui.rs:49-52 | the key is the second output line, `enter` when there is none; `DecodeOutput` and `QueryOnlyDoesNothing` state it for the picker's output |
| Ui.SelectedRow | src/ui.rs:49-53 | the row is the third output line, empty when there is none; `DecodeOutput` and `QueryOnlyDoesNothing` state it |
| Ui.QueryOnlyDoesNothing | src/ui.rs:51-57 | with only the query printed, the key defaults to `enter`, no row is selected, and nothing happens |
| Ui.SelectedEntryAction | src/ui.rs:59-88 | for a row written for an entry, the three editor keys open the entry's path, and any other key prints the directory it resolves to |
| Ui.WindowAround | src/ui.rs:127-134 | the window ends 30 lines after the line; it starts 30 lines before a line above 30, and at line 1 otherwise |
| Ui.PreviewRange | src/ui.rs:127-172 | the range fails exactly when no line is selected, the query is not blank and the probe cannot start; every window is centred on a line as `WindowAround` gives it |
| Ui.PlanPreview | src/ui.rs:113-172 | a directory is listed; a file shows the chosen range, and fails exactly when choosing the range fails |
| Ui.SelectedLineWins | src/ui.rs:127-134 | a selected line decides the window, whatever the query and the probe |
| Ui.HeadFallbacks | src/ui.rs:161-171 | without a selected line, the first 300 lines are shown when the query is blank, the probe fails, or its first line does not start with a number |
| Ui.FirstMatchRoundTrip | src/ui.rs:148-160 | a probe printing `N:text` centres the window on line N |
| Ui.FirstMatchLineOf | src/ui.rs:149-153 | the probe's first line `N:text` reads as line N |
| Ui.FirstMatchLine | src/ui.rs:149-153 | the number before the first `:` of the probe's first line; `FirstMatchLineOf` reads `N:text` as N |
| Ui.LeadingNumber | src/ui.rs:151-153 | cutting `N:text` at its first `:`, with or without a trailing `\r`, leaves the number N |

## Left out

- A failed start of `fzf`, which `run_fzf_session` returns as an error, is not represented: `FzfOutput` stands only for a picker that ran.
- I/O is not modelled: locating the ignore file (`YOINKIGNORE_PATH`, `HOME`), reading it, `fs::metadata`, the directory walk and running `rg`, `fzf`, `bat`, `ls`, `sed` and the editors. Their outcomes are inputs: `ConfigFile`, `World`, `Probe`, `FzfOutput`.
- The glob and regex crates are not modelled: glob compilation and matching, regex compilation, `is_match` and `find_iter` are functions inside `Matchers`. Only the span order of `find_iter` is assumed, through `WellBehaved`.
- Building the `GlobSet` is not modelled: `builder.build()` is taken never to fail once every glob compiles.
- The walk is the list of entries an unpruned walk would yield, with each entry's device. Pruning is modelled by `Yielded`. Walk errors, which `filter_map(Result::ok)` drops, are not modelled.
- Lossy UTF-8 conversion and byte offsets are not modelled: text is a sequence of Unicode scalar values, and `find_iter` spans index characters rather than bytes.
- Candidates.BuildCandidates: `HashMap` iteration order is unspecified in the source. The model fixes one order, and only the sorted result is stated.
- Occurrences.SortOccurrences: `sort_by_key` is stable, but the model states only order and permutation. Occurrences with equal line and column may come out in either order.
- Ranking.SortCandidates: stability is not stated. No two candidates share a path, so there are no ties (`Ranking.KeyLeAntisymmetric`).
- Candidates.RgLinePath: an `rg -l` line `./` loses its prefix and parses as the root's own path, `[]`. The model keeps that behaviour, and `Candidates.RootNeverCandidate` states the guarantee only for listings without such a line.
- Candidates.RgLinePath: a line starting with `/` is not modelled. Components are read as relative, and the rooted flag is dropped.
- Paths.Display: an `rg`-only candidate keeps, in the program, the text of its `rg -l` line, and that text is its sort key, its header and its path column. The model shows every path by joining its components with `/`, so a listing line such as `a//b`, `a/./b` or `a/` would be shown as `a/b` or `a`. `rg -l` prints clean `./`-prefixed paths, so only malformed listings differ.
- Ui.WindowAround: `line + 30` is unbounded here. The source overflows a `usize` only for line numbers within 30 of 2^64, which `parse::<usize>` can yield but a real file cannot reach.
- Actions.JoinPath: `Path::join` is approximated on components. Empty and `.` segments are dropped, `..` is kept as a component, and a `cwd` is not normalised. Displays are not compared as text.
- Ui.PreviewRange: the branch where `splitn(2, ':').next()` is None cannot happen, because `splitn` always yields a first piece. It is not modelled separately.
- `open_in_editor`, `run_preview`'s process invocations, `current_exe`, the command-line parser and `main.rs` are not modelled. Nor are the Python front ends, which are thin wrappers around other programs.
- The compact `TAG<TAB>path` output form is not modelled; src/main.rs is not part of this model.
- Presentation.BuildSearchEntries: the source loads the settings twice, once directly and once inside `build_candidates`. The model gives both loads the same `ConfigFile`, so it does not capture the file changing between them.
