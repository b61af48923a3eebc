# claude-task-manager: a verified model of its task-file logic

claude-task-manager keeps one Markdown file per task under
`docs/logs/tasks`. Each file is named `<id>_<name>_<status>.md`: `003_fix_login_bug_todo.md` is task
`003`, "fix login bug", in the `todo` column. Around that convention the
repository ships five pieces of logic, and this project models each one in Dafny:

- **Task views generator** (`scripts/generate_task_views.cjs`): modules
  `TaskViews`, `TaskExports` and `TaskSummary`.
  - `extractTaskInfo` reads a task file's name and text into a record: id, status, title, priority, phase, background and up to three feature bullets. The features loop is kept as a loop.
  - The three outputs are `TASK_SUMMARY.md`, `tasks.json` and `tasks_search.json`. They are built from those records, sorted by id.
  - The summary groups tasks by status and by phase, picks a priority emoji, draws the dependency edges whose two tasks exist, and appends the text piece by piece.
- **Browser viewer** (`defaults/viewer.js`): modules `Html`, `Viewer` and `ViewerSession`.
  - HTML escaping, regular-expression escaping, and highlighting with `<mark>`.
  - The card-matching rule of `performSearch`, the match count, and the preview window.
  - The five-entry search history.
  - How `loadTasks` turns directory listings into cards and task data, and how `loadFullTextContent` gives cards their content.
  - The page state is the class `ViewerSession.SearchSession`, whose methods update its fields the way the page's handlers update the module variables.
- **Configuration loader** (`lib/config-loader.js`): module `ConfigLoader`. JSON values are a datatype. `deepMerge` is a method with the key loop and recursion, proved equal to the function `Merged`. The module also covers `loadProjectConfig`, `getStatuses`, `getStatusKeys` and `createConfigFromStatuses`.
- **Command-line tool** (`cli.js`): module `Cli`.
  - The file name `new` builds, and its template substitution.
  - The file lookup and the segment rewrite of `status`. The rename overwrites the last element of the split array.
  - The filter, grouping and id/name parsing of `list`, where the grouping fills a map in a loop.
  - The colour table, and the configuration `setup --statuses` writes.
- **Index generator** (`scripts/gen_index.js`): module `GenIndex`. It builds four disjoint suffix groups and their counts. It sorts each group in place in an array and appends one link line per name.

Shared modules:

- `JsString`: the JavaScript string operations the sources use, namely ASCII case mapping, `trim`, `indexOf`, `includes`, `split`/`join`, literal `replace`, the string order of `<`, `localeCompare` and the default `sort` (modelled as code-point order, see "## Left out"), and the property names every JavaScript object inherits.
- `TaskNames`: the two file-name regular expressions `/^(\d+)_/` and `/_([^_]+)\.md$/`.
- `SeqUtil`: `filter`, `map`, and string accumulation over a list.
- `Sorting`: a stable sort by key, and an in-place array sort.

Directory listings, file contents, the clock reading and the parsed project
configuration are parameters of the model.

The two colour tables in the sources disagree.
- `setup --statuses` colours `doing` cyan and knows `idea`, `planning` and `testing` (cli.js:23-35).
- `createConfigFromStatuses` colours `doing` green and knows `blocked` and `cancelled` (lib/config-loader.js:128-136).
- `Cli.ColourTablesDiffer` records the difference; the model keeps both tables as written.

## Model

| member | source | states |
|---|---|---|
| JsString.ToLower | defaults/viewer.js:214-216 | `toLowerCase` keeps the length and lowercases each ASCII capital, leaving every other character alone |
| JsString.SameIgnoringCaseIsLowerEqual | defaults/viewer.js:232 | the `i` flag's character-by-character comparison is equality after lowercasing, both ways |
| JsString.TrimLower | defaults/viewer.js:92 | lowercasing and trimming commute, so `value.toLowerCase().trim()` is the lowercased trimmed value |
| JsString.TrimmedHasNoOuterSpace | scripts/generate_task_views.cjs:23 | `trim` leaves no JavaScript whitespace at either end |
| JsString.TrimSkipsSpaces | scripts/generate_task_views.cjs:13 | dropping part of the leading whitespace first does not change `trim` |
| JsString.IndexOf | defaults/viewer.js:223 | `indexOf` is -1 or an occurrence, and no occurrence lies before it |
| JsString.ReplaceFirst | defaults/viewer.js:401 | a string-pattern `replace` changes only the first occurrence, and nothing when there is none |
| JsString.ReplaceChar | defaults/viewer.js:402 | `replace(/_/g, ' ')` keeps the length and changes exactly the `_` characters |
| JsString.Split | cli.js:231 | `split('_')` gives at least one piece and no piece holds the separator |
| JsString.JoinSplit | cli.js:231-233 | joining the pieces of a split with the same separator gives back the text |
| JsString.SplitJoin | cli.js:231-233 | splitting pieces joined by a separator none of them holds gives back the pieces |
| JsString.SplitLastReplaced | cli.js:231-233 | overwriting the last of several split pieces keeps the text up to and including its last separator |
| JsString.DigitRun | scripts/generate_task_views.cjs:9 | the run `\d+` matches greedily is all digits and cannot be extended |
| JsString.LexLeTotal | scripts/generate_task_views.cjs:51 | any two ids are comparable in the order the sort uses |
| JsString.LexLeTrans | scripts/generate_task_views.cjs:51 | the id order is transitive |
| JsString.LexLeAntisym | scripts/generate_task_views.cjs:51 | two ids each at most the other are equal |
| SeqUtil.FilterMembers | scripts/gen_index.js:14 | `filter` keeps exactly the entries that pass, both ways |
| SeqUtil.ConcatMapAppend | scripts/generate_task_views.cjs:149-151 | appending to a list appends its lines to the accumulated text |
| Sorting.SortBySortedPermutation | scripts/generate_task_views.cjs:51 | the sort by id returns its input reordered, with keys in order |
| Sorting.SortByStable | scripts/generate_task_views.cjs:51 | records that share an id keep their input order |
| Sorting.SortInPlace | scripts/gen_index.js:41 | `files.sort()` leaves the array sorted, in code-point order, and a permutation of what it held |
| Sorting.InsertAt | scripts/gen_index.js:41 | one insertion step extends the sorted prefix by one and permutes the array |
| Sorting.SortedUnique | scripts/gen_index.js:41 | two sorted orderings of the same names are the same sequence |
| Sorting.SortedIsSortByName | scripts/gen_index.js:41 | the in-place sort and the functional sort produce the same order |
| TaskNames.LeadingId | scripts/generate_task_views.cjs:9 | the capture of `/^(\d+)_/` is a non-empty digit run that the name starts with, followed by `_` |
| TaskNames.StatusSegment | scripts/generate_task_views.cjs:10 | the capture of `/_([^_]+)\.md$/` is a non-empty `_`-free segment the name ends with, followed by `.md` |
| TaskNames.StripIdPrefix | scripts/generate_task_views.cjs:188 | removing `^\d+_` takes off exactly the id and its `_`, and nothing when there is no id |
| TaskNames.StripStatusSuffix | scripts/generate_task_views.cjs:188 | removing `_[^_]+\.md$` takes off exactly the status segment, and nothing when there is none |
| TaskNames.LeadingIdOf | scripts/generate_task_views.cjs:9 | a name `<digits>_rest` has exactly those digits as id |
| TaskNames.StripIdPrefixOf | scripts/generate_task_views.cjs:188 | stripping the id of `<digits>_rest` leaves exactly `rest` |
| TaskNames.StatusSegmentOf | scripts/generate_task_views.cjs:10 | a name `<a>_<st>.md` with a non-empty `_`-free `st` has status `st` |
| TaskNames.NoStatusWithoutMd | scripts/generate_task_views.cjs:10 | a name not ending in `.md` has no status |
| TaskViews.FirstHeading | scripts/generate_task_views.cjs:11 | the title line is the first line starting with `# `, or none |
| TaskViews.StripHeadingPrefix | scripts/generate_task_views.cjs:11 | the heading prefix removal leaves the line or a proper suffix of it |
| TaskViews.HeadingPrefixStripped | scripts/generate_task_views.cjs:11 | a heading `# <word> <digits>: rest` gives the title `rest` |
| TaskViews.UnmatchedHeadingKept | scripts/generate_task_views.cjs:11 | a line that `/^# \w+ \d+: /` does not match, such as the heading `# 概要` or `# Task: x`, is kept whole as the title |
| TaskViews.FirstContaining | scripts/generate_task_views.cjs:12 | the priority line is the first line containing the marker, or none |
| TaskViews.RunStart | scripts/generate_task_views.cjs:13 | `.*` can start no earlier than the line-terminator-free run holding the marker |
| TaskViews.LastOccurrenceIn | scripts/generate_task_views.cjs:13 | the greedy `.*` ends at the last marker of that run |
| TaskViews.PriorityAfterLastMarker | scripts/generate_task_views.cjs:12-13 | on a one-line priority line the priority is the trimmed text after the last `優先度:` |
| TaskViews.PhaseFrom | scripts/generate_task_views.cjs:14 | the phase search finds the first `フェーズ` followed by a digit, or proves there is none |
| TaskViews.PhaseOf | scripts/generate_task_views.cjs:14 | the phase is empty or a single ASCII digit |
| TaskViews.PhaseOfFirstMarker | scripts/generate_task_views.cjs:14 | the phase is the digit after the first marker that has one |
| TaskViews.LineAfterMarkerFrom | scripts/generate_task_views.cjs:15-16 | the background line is the first line whose predecessor contains `背景`, or none |
| TaskViews.RemoveBoldKeepsHead | scripts/generate_task_views.cjs:25 | a first character other than `*` survives the `**` removal, in front |
| TaskViews.RemoveBoldClean | scripts/generate_task_views.cjs:25 | after removing every `**` no `**` is left |
| TaskViews.ScanBullets | scripts/generate_task_views.cjs:22-28 | the loop pushes the items of the scanned lines in order and stops at three |
| TaskViews.CollectFeatures | scripts/generate_task_views.cjs:19-29 | the feature loop computes the first three bullets of the window after the marker |
| TaskViews.FeaturesShape | scripts/generate_task_views.cjs:19-38 | at most three features, each the cleaned text of a bullet line of indices implStart+1..implStart+19, with no `**` |
| TaskViews.ExtractTaskInfo | scripts/generate_task_views.cjs:7-41 | `extractTaskInfo`, loop included, is total and yields the record the field functions define |
| TaskViews.NoMarkersNoFields | scripts/generate_task_views.cjs:11-29 | a document without the four markers gives empty title, priority, phase, background and features |
| TaskExports.MdFiles | scripts/generate_task_views.cjs:162 | exactly the files whose name ends in `.md` are read |
| TaskExports.TaskInfos | scripts/generate_task_views.cjs:164-166 | one record per file, in order, each `extractTaskInfo` of that file |
| TaskExports.ExportTasksSpec | scripts/generate_task_views.cjs:162-167 | `tasks.json` holds the records of the `.md` files, sorted by id, ties in directory order |
| TaskExports.SearchEntryOf | scripts/generate_task_views.cjs:182-198 | a search entry agrees with `extractTaskInfo` on id and status, keeps the whole text, and its size is the text's length |
| TaskExports.SearchEntries | scripts/generate_task_views.cjs:182 | one entry per file, in order |
| TaskExports.SearchIndexSpec | scripts/generate_task_views.cjs:177-199 | the index lists each `.md` file's entry once, sorted by id |
| TaskExports.SearchIndexStable | scripts/generate_task_views.cjs:182-199 | index entries that share an id keep the order of the directory listing |
| TaskExports.ConventionalName | scripts/generate_task_views.cjs:187-188 | for `<digits>_<name>_<status>.md` both exports read back the id and status, and the index title is the name with spaces |
| TaskExports.IdOrderIsTextual | scripts/generate_task_views.cjs:51 | ids compare as text: "1" < "10" < "2" |
| TaskExports.ExampleFileName | scripts/generate_task_views.cjs:9-10 | `003_fix_login_bug_todo.md` gives id `003`, status `todo`, title "fix login bug" |
| TaskSummary.GroupByStatus | scripts/generate_task_views.cjs:63-74 | the loop throws exactly when some status names an inherited property; otherwise it fills exactly the four buckets, each with its status's tasks in order |
| TaskSummary.GroupByPhase | scripts/generate_task_views.cjs:97-102 | a bucket exists exactly for each phase label that occurs and holds that label's tasks in order |
| TaskSummary.PriorityEmoji | scripts/generate_task_views.cjs:109-110 | red when the priority mentions 高, else orange for 中, else green |
| TaskSummary.FindById | scripts/generate_task_views.cjs:138-139 | `find` returns the first task with the id, or none exactly when no task has it |
| TaskSummary.AppendFeatures | scripts/generate_task_views.cjs:84-87 | the inner loop writes the feature lines, nothing without features |
| TaskSummary.AppendTodo | scripts/generate_task_views.cjs:79-89 | one block per TODO task, in order |
| TaskSummary.AppendPhaseGroup | scripts/generate_task_views.cjs:108-113 | two lines per backlog task of a phase, in order |
| TaskSummary.NextPhase | scripts/generate_task_views.cjs:106-114 | a phase without a bucket writes nothing, else its heading and lines |
| TaskSummary.AppendBacklog | scripts/generate_task_views.cjs:97-115 | grouping by phase and emitting in the order 1..5, その他 gives the phase sections |
| TaskSummary.AppendGraph | scripts/generate_task_views.cjs:137-143 | one edge line per listed dependency, in list order |
| TaskSummary.AppendLinks | scripts/generate_task_views.cjs:149-151 | one link line per task, in order |
| TaskSummary.RenderSummary | scripts/generate_task_views.cjs:54-151 | the text throws exactly when the grouping does; otherwise the appended text is the summary the section functions define |
| TaskSummary.GenerateTaskSummary | scripts/generate_task_views.cjs:44-157 | `generateTaskSummary` throws exactly when a sorted record has an inherited status, and otherwise renders the sorted records of the `.md` files |
| TaskSummary.SummaryThrowsIff | scripts/generate_task_views.cjs:70-73 | the generator throws exactly when some `.md` file's status segment names an inherited property, such as `toString` |
| TaskSummary.ListedBacklogMembers | scripts/generate_task_views.cjs:105-115 | a backlog task is printed exactly when its phase label is one the order prints |
| TaskSummary.BacklogListsPhasesOneToFive | scripts/generate_task_views.cjs:98-115 | a backlog task is listed exactly when its phase is 1 to 5 or empty; phases 0 and 6-9 appear nowhere |
| TaskSummary.BacklogTextShowsListedOnly | scripts/generate_task_views.cjs:93-115 | the BACKLOG section is the one the tasks under the six printed labels alone would give |
| TaskSummary.UnlistedBacklogIsBareHeading | scripts/generate_task_views.cjs:93-115 | when every backlog task has phase 0 or 6 to 9, the section is its heading alone |
| TaskSummary.EdgeDrawnIff | scripts/generate_task_views.cjs:140-141 | an edge is drawn exactly when tasks with both of its ids exist |
| TaskSummary.GroupsHoldTheirStatus | scripts/generate_task_views.cjs:70-73 | a status bucket holds exactly the tasks with that status |
| TaskSummary.TodoSectionOnlyWhenTodo | scripts/generate_task_views.cjs:77-78 | the TODO section is absent exactly when there is no TODO task |
| TaskSummary.LinksAppend | scripts/generate_task_views.cjs:148-151 | the links section lists every task in the given order |
| GenIndex.MdFiles | scripts/gen_index.js:13-15 | only names ending in `.md` are considered |
| GenIndex.Group | scripts/gen_index.js:18-23 | a group holds exactly the names ending in `_${status}.md` |
| GenIndex.SuffixIsSegment | scripts/gen_index.js:19-22 | for a `_`-free status, the suffix test is having that status segment |
| GenIndex.GroupMembers | scripts/gen_index.js:18-23 | a name is in a group exactly when that group's status is its status segment |
| GenIndex.GroupsDisjoint | scripts/gen_index.js:18-23 | the four groups are pairwise disjoint |
| GenIndex.OtherStatusInNoGroup | scripts/gen_index.js:18-23 | a name with another status or none is in no group |
| GenIndex.CountsAtMostFiles | scripts/gen_index.js:30-33 | the four counts add up to at most the number of names |
| GenIndex.SortedGroup | scripts/gen_index.js:41 | a section lists its group sorted, in code-point order, and as a permutation |
| GenIndex.SortedCopy | scripts/gen_index.js:41 | the in-place array sort gives the group's sorted order |
| GenIndex.AppendLinks | scripts/gen_index.js:41-43 | one `- [f](./tasks/f)` line per name, in array order |
| GenIndex.EmitSection | scripts/gen_index.js:40-43 | a non-empty group writes its heading, then its sorted links |
| GenIndex.NextSection | scripts/gen_index.js:39-44 | an empty group writes nothing |
| GenIndex.GenerateIndex | scripts/gen_index.js:13-45 | the index is the header, then the non-empty sections in the order backlog, todo, review, done |
| GenIndex.NoGroupsHeaderOnly | scripts/gen_index.js:26-45 | with no names of the four statuses the index is the header alone, every count zero |
| Html.EscapeChar | defaults/viewer.js:299-306 | a character is rewritten exactly when it is one of the five special characters |
| Html.EscapeHtmlConcat | defaults/viewer.js:299-306 | the replacement chain distributes over concatenation |
| Html.EscapeHtmlChar | defaults/viewer.js:299-306 | replacing `&` first means no entity is escaped twice: one character becomes its entity |
| Html.EscapeHtmlIsPerChar | defaults/viewer.js:299-306 | the chain of five replacements is a per-character encoding |
| Html.EscapeHtmlHasNoMarkup | defaults/viewer.js:299-306 | escaped text holds no `<`, `>`, `"` or `'` |
| Html.EscapeHtmlRoundTrip | defaults/viewer.js:299-306 | decoding the five entities gives back the input |
| Html.RenderEscaped | defaults/viewer.js:299-306 | a browser shows escaped text as the text itself, whatever follows |
| Html.EscapeRegExpIsLiteral | defaults/viewer.js:294-296 | the escaped query is a literal pattern for the query, and the only one, so the highlight regex matches the query literally |
| Html.TagsOnlyMeans | defaults/viewer.js:309-313 | under the tag grammar every `<` begins `<mark>` or `</mark>` |
| Html.MarkMatchesShape | defaults/viewer.js:312 | inserting marks adds only `<mark>` tags and keeps the text between them |
| Html.MarkEverywhereShape | defaults/viewer.js:312 | the empty query marks every position and adds nothing else |
| Html.MarkMatchesAbsent | defaults/viewer.js:312 | a one-character non-letter query that does not occur marks nothing |
| Html.SafeHighlightShape | defaults/viewer.js:309-313 | `safeHighlight` is injection-safe: its only tags are `<mark>`, and removing them leaves exactly `escapeHtml(text)` |
| Html.AmpQueryExample | defaults/viewer.js:309-313 | `safeHighlight("R&D", "&")` marks the `&` of the entity `&amp;` |
| Html.AmpQueryShowsEntity | defaults/viewer.js:309-313 | the browser then shows `R&amp;D` instead of the title `R&D` |
| Html.HighlightTextRendersText | defaults/viewer.js:309-313 | the corrected highlight is shown as the text itself, for every query |
| Html.HighlightTextStrips | defaults/viewer.js:309-313 | the corrected highlight has only `<mark>` tags and is the escaped text once they are removed |
| Html.HighlightTextShape | defaults/viewer.js:309-313 | the corrected highlight keeps the injection safety of `safeHighlight` |
| Viewer.MatchWindow | defaults/viewer.js:223-228 | the preview window holds the first match: start <= i, i+\|q\| <= end <= length, at most 50 characters either side |
| Viewer.WindowKeepsMatch | defaults/viewer.js:227-229 | the match is still found inside the window |
| Viewer.ContentPreviewShows | defaults/viewer.js:227-233 | the preview is the escaped window between ellipses with only `<mark>` tags added |
| Viewer.SearchedCard | defaults/viewer.js:213-261 | a card is visible exactly when its id, title or status contains the query, or full-text content does; only a content hit gets a preview; the fields are kept |
| Viewer.ClearedCard | defaults/viewer.js:195-204 | an empty query makes a card visible and removes its preview, keeping its fields |
| Viewer.CountVisibleZero | defaults/viewer.js:265-272 | the count is zero exactly when no card is visible |
| Viewer.FieldHtmlShows | defaults/viewer.js:275-290 | a field's HTML is its escaped text with only `<mark>` tags added; a field without the query shows its own text |
| Viewer.CorrectedFieldHtmlShows | defaults/viewer.js:275-290 | with the corrected highlight a field shows its own text for every query, with only `<mark>` tags added |
| Viewer.CorrectedPreviewShows | defaults/viewer.js:227-233 | with the corrected highlight the preview shows the window text between ellipses |
| Viewer.AmpTitleShowsEntity | defaults/viewer.js:275-290 | as written, a card titled `R&D` searched for `&` shows the title `R&amp;D` |
| Viewer.SearchedCardShows | defaults/viewer.js:275-290 | after a search the id and title HTML are the escaped fields with marks added, the preview has no tag but `<mark>`, and a hidden card has no preview |
| Viewer.ClearedCardShows | defaults/viewer.js:201-202 | clearing sets each card's id and title HTML back to the escaped fields, shown as the text itself |
| Viewer.HashMatchesEveryCard | defaults/viewer.js:214 | the query `#` matches every card, through its `#` id |
| Viewer.FoundTextShape | defaults/viewer.js:266-267 | the banner starts with the count and names full-text mode exactly when it is on |
| Viewer.BannerNoMatches | defaults/viewer.js:265-272 | the banner is the no-match text exactly when the count is zero |
| Viewer.SearchedAllCount | defaults/viewer.js:237-239 | `matchCount` is the number of cards that match |
| Viewer.NoMatchesIff | defaults/viewer.js:265-272 | the no-match text appears exactly when no card matches |
| Viewer.ClearForgetsSearch | defaults/viewer.js:193-204 | clearing after a search leaves the cards as if never searched |
| Viewer.SearchedAllShows | defaults/viewer.js:213-262 | searching keeps every card's HTML the escaped fields with marks added |
| Viewer.ClearedAllShows | defaults/viewer.js:195-204 | clearing makes every card visible and showing its own id and title |
| Viewer.CapitalMatchesNothing | defaults/viewer.js:214-224 | a query holding an ASCII capital matches no card, because every field is lowercased first |
| Viewer.RecordQuerySpec | defaults/viewer.js:315-320 | after saving, the head is the query, which occurs once; at most five entries; the rest are the earlier others in order |
| Viewer.RecordQueryDistinct | defaults/viewer.js:315-320 | a history without repeats stays without repeats |
| Viewer.RecordNew | defaults/viewer.js:316-318 | a new query goes in front of a short history |
| Viewer.RecordMovesLast | defaults/viewer.js:316-318 | searching again for the oldest entry moves it to the front |
| Viewer.HistoryExample | defaults/viewer.js:315-320 | searching a, b, a, c, d, e leaves e, d, c, a, b |
| ViewerSession.DropAt | defaults/viewer.js:398 | a trailing `@` is removed and nothing else |
| ViewerSession.ListedFiles | defaults/viewer.js:376-385 | one file name per link ending in `.md` or `.md@`, in order, each the link text without a trailing `@` |
| ViewerSession.ListedFilesMembers | defaults/viewer.js:376-385 | a name is listed exactly when some task link of the listing shows it, up to a trailing `@` |
| ViewerSession.FirstIndex | defaults/viewer.js:364 | `indexOf` finds the first position of the status |
| ViewerSession.NewCardShows | defaults/viewer.js:404-429 | a new card is visible, has no content, shows its own id and title, has an id starting with `#`, and carries its status |
| ViewerSession.LoadedCardsShape | defaults/viewer.js:363-444 | every loaded card is visible, has no content yet, shows its id and title, and has a configured status |
| ViewerSession.LoadedCardsShow | defaults/viewer.js:409-415 | every loaded card, by position, shows its own id and title |
| ViewerSession.StatusEntriesKeys | defaults/viewer.js:432-439 | reading a listing adds the keys of its files and removes none |
| ViewerSession.LoadedEntriesKeep | defaults/viewer.js:432-439 | `loadTasks` never removes a task-data key |
| ViewerSession.DirPathExample | defaults/viewer.js:364 | with statuses backlog, todo the directory of todo is `1_TODO` |
| ViewerSession.ListedNameExample | defaults/viewer.js:398-400 | `003_fix_login_bug_todo.md` has nothing to drop, id `003`, and `fix_login_bug_todo.md` after it |
| ViewerSession.CardTitleExample | defaults/viewer.js:400-402 | in the todo column that name's title is "fix login bug" |
| ViewerSession.NewCardExample | defaults/viewer.js:398-407 | that name becomes the visible card `#003`, "fix login bug", under `1_TODO` |
| ViewerSession.ClearCards | defaults/viewer.js:195-204 | the loop over the cards for an empty query clears every card |
| ViewerSession.SearchCards | defaults/viewer.js:213-262 | the loop over the cards for a query sets each card's visibility and counts the visible ones |
| ViewerSession.AddStatusCards | defaults/viewer.js:396-444 | one card and one task-data entry per listed file, in listing order |
| ViewerSession.ReadListing | defaults/viewer.js:368-449 | one status turn adds that status's cards and data and its file count |
| ViewerSession.ReadListings | defaults/viewer.js:363-450 | the status loop builds all cards status by status, and every card shows its own id and title |
| ViewerSession.FetchedCard | defaults/viewer.js:171-183 | a card with content or without a path is kept; otherwise only its content changes: the file text, `''` when the request fails, nothing on a response that is not ok |
| ViewerSession.FetchMissing | defaults/viewer.js:171-183 | the fallback loop over the cards fetches each card's file as the per-card rule says |
| ViewerSession.FetchedTextIsFound | defaults/viewer.js:171-183 | a card whose fetched file holds a non-empty query is then shown by the full-text search, with a preview |
| ViewerSession.FindCard | defaults/viewer.js:150 | `find` gives the first card with the file name, or none exactly when no card has it |
| ViewerSession.MergeIndex | defaults/viewer.js:149-154 | merging the index keeps the cards and changes only their contents |
| ViewerSession.IndexMergeAsWritten | defaults/viewer.js:149-153 | as written, merging the index changes no card, because no card has a `filename` |
| ViewerSession.IndexedContentNeverHits | defaults/viewer.js:149-153 | so once the index is read, a freshly loaded card never matches by content, even when its entry holds the query |
| ViewerSession.IndexMergeCorrected | defaults/viewer.js:149-153 | merged on the cards' own file names, the first card of each file gets the text of that file's last index entry and every other card keeps its content |
| ViewerSession.ContentAfterLoadShows | defaults/viewer.js:131-187 | loading content keeps the number of cards and every card's HTML, visibility and preview |
| ViewerSession.SearchSession.constructor | defaults/viewer.js:11-16 | the page starts with no cards or data, the stored history, full-text off |
| ViewerSession.SearchSession.Initialize | defaults/viewer.js:607-612 | the first load builds the cards and starts auto-update |
| ViewerSession.SearchSession.LoadTasks | defaults/viewer.js:353-460 | the cards are rebuilt from the listings, task data only grows, the total is the sum of listing lengths; the history and mode are untouched |
| ViewerSession.SearchSession.PerformSearch | defaults/viewer.js:189-273 | an empty query clears and restarts auto-update; any other shows exactly the matching cards, stops auto-update and sets the banner |
| ViewerSession.SearchSession.ShowAll | defaults/viewer.js:193-208 | every card visible with its plain text, the banner hidden, auto-update on |
| ViewerSession.SearchSession.ShowMatches | defaults/viewer.js:210-272 | exactly the matching cards visible, the count in the banner, auto-update off |
| ViewerSession.SearchSession.OnInput | defaults/viewer.js:91-104 | typing searches for the lowercased, trimmed box text |
| ViewerSession.SearchSession.OnEscape | defaults/viewer.js:112-117 | Escape clears the query and shows every card |
| ViewerSession.SearchSession.SaveSearchHistory | defaults/viewer.js:315-320 | the history becomes the recorded one; nothing else changes |
| ViewerSession.SearchSession.OnEnter | defaults/viewer.js:107-111 | Enter saves a non-blank query trimmed but in its typed case, and nothing for a blank one |
| ViewerSession.SearchSession.ReplayHistoryAsWritten | defaults/viewer.js:48-53 | a history click searches the saved text as saved, not lowercased |
| ViewerSession.SearchSession.ReplayHistory | defaults/viewer.js:48-53 | the corrected click searches the lowercased saved text, as typing it did |
| ViewerSession.SearchSession.LoadFullTextContent | defaults/viewer.js:131-187 | a read index skips the load; otherwise the index is merged when it is read, else the missing files are fetched; the index flag records a read; nothing else changes |
| ViewerSession.SearchSession.ToggleFullText | defaults/viewer.js:73-88 | the mode flips; turning it on first loads the content; a non-empty box text is then searched again in the new mode |
| ConfigLoader.DeepMerge | lib/config-loader.js:155-173 | the copy-then-update loop with recursion computes the merge function |
| ConfigLoader.MergedKeys | lib/config-loader.js:156-169 | every key of target and source is in the merge, and no other |
| ConfigLoader.MergedTakesSourceValue | lib/config-loader.js:166-167 | a source value that is not a plain object wins outright |
| ConfigLoader.MergedKeepsTargetValue | lib/config-loader.js:156 | a key only the target has keeps the target's value |
| ConfigLoader.MergedNestedObject | lib/config-loader.js:159-165 | a source object is merged into the target's value when the target has the key, copied otherwise |
| ConfigLoader.MergedNonObjectSource | lib/config-loader.js:156-158 | a source that is not a plain object leaves the target unchanged |
| ConfigLoader.MergedNonObjectTarget | lib/config-loader.js:156-158 | a target that is not a plain object is only spread: a number, boolean or `null` target becomes `{}`; a string or array target becomes its index keys |
| ConfigLoader.MergedEmptySource | lib/config-loader.js:156-172 | merging `{}` into an object copies it |
| ConfigLoader.MergedFlatSource | lib/config-loader.js:166-167 | a source without nested objects overrides key by key, so arrays replace and never concatenate |
| ConfigLoader.MergedIdempotent | lib/config-loader.js:155-173 | merging an object with itself gives it back at every depth |
| ConfigLoader.LoadProjectConfig | lib/config-loader.js:39-53 | the result is an object, and the defaults when there is no readable file |
| ConfigLoader.StatusesOf | lib/config-loader.js:86 | the statuses read are always truthy |
| ConfigLoader.StatusKeys | lib/config-loader.js:95 | `map(s => s.key)` throws exactly when statuses is no array or holds `null`; otherwise one key per status |
| ConfigLoader.DefaultStatusKeys | lib/config-loader.js:94-96 | without a project file the keys are backlog, todo, review, done |
| ConfigLoader.ProjectStatusesReplace | lib/config-loader.js:84-87 | a project's statuses array replaces the defaults, even an empty one |
| ConfigLoader.FalsyStatusesFallBack | lib/config-loader.js:86 | a falsy project `statuses` falls back to the defaults |
| ConfigLoader.ObjectStatusesThrow | lib/config-loader.js:94-96 | an object under `statuses` makes `getStatusKeys` throw |
| ConfigLoader.ColorFor | lib/config-loader.js:128-141 | a status's colour comes from the seven-key table, else grey |
| ConfigLoader.CreateConfigFromStatuses | lib/config-loader.js:120-148 | falsy input gives the defaults; every field other than `statuses` is the default's |
| ConfigLoader.CreatedStatuses | lib/config-loader.js:123-143 | one status per comma piece, in order, key lowercase and label uppercase of the trimmed piece, with the key's colour |
| ConfigLoader.ReadBackUnchanged | lib/config-loader.js:39-53 | a configuration shaped like the defaults is read back unchanged |
| ConfigLoader.CreatedConfigReadBack | lib/config-loader.js:120-148 | a created configuration is read back unchanged |
| ConfigLoader.CreatedStatusKeys | lib/config-loader.js:123-125 | the keys read back from a created configuration are the lowercased trimmed pieces, in order |
| ConfigLoader.CreateExample | lib/config-loader.js:120-148 | `" Doing "` gives the single status doing/DOING in green |
| Cli.NewTask | cli.js:87-96 | the file is `${id}_${name}_${status}.md`, status `todo` by default; it fails exactly when the file exists, else holds the filled template |
| Cli.ReplaceStep | cli.js:202-206 | one placeholder replacement turns exactly that placeholder's occurrences into the value |
| Cli.FillTemplateExpands | cli.js:202-206 | every placeholder of a template becomes its value, `__STATUS__` the uppercased status, the rest kept, when no value can form a placeholder where it stands |
| Cli.FillKeepsPlainText | cli.js:202-206 | a template without placeholders is written as it is |
| Cli.HeadingLineExpands | cli.js:108 | the fallback template's heading line becomes `# タスク<id>: <name>` for a digit id and any name without `__` or a trailing `_` |
| Cli.FindTaskFile | cli.js:223 | the lookup takes the first name starting with `${id}_`, or none exactly when no name does |
| Cli.PrefixIsLeadingId | cli.js:223 | for a numeric id the prefix test is having that id, so `10_x` is never task `1` |
| Cli.StatusCommand | cli.js:223-228 | `status` fails exactly when no name starts with `${id}_` |
| Cli.RenameStatus | cli.js:231-233 | the in-place overwrite of the last split piece computes the rename |
| Cli.RenamedShape | cli.js:231-233 | everything up to the last `_` is kept and the rest becomes `${status}.md` |
| Cli.RenamedEndsWithStatus | cli.js:231-233 | a renamed name holding `_` ends with `_${status}.md` |
| Cli.RenamedIdempotent | cli.js:231-233 | renaming twice to a `_`-free status is renaming once |
| Cli.RenamedTwiceGrows | cli.js:231-233 | renaming twice to a status with `_` grows the name, so the rename is not idempotent in general |
| Cli.RenamedKeepsSegments | cli.js:231-233 | a `_`-free status keeps the number of segments |
| Cli.ListedTasks | cli.js:251-255 | `list` shows exactly the `.md` names, only those ending in `_${status}.md` when a status is given |
| Cli.GroupTasks | cli.js:263-269 | the grouping throws exactly when some name's key is an inherited property name; otherwise it builds each key's names in order and the keys in first-seen order |
| Cli.AddToGroup | cli.js:264-268 | one turn appends the name to its key's group, a new key going last |
| Cli.GroupOrderSpec | cli.js:263-269 | every group key appears once, and exactly the keys of the names appear |
| Cli.GroupOrderGrows | cli.js:263-269 | groups keep their first-encounter order as names are added |
| Cli.InExactlyOneGroup | cli.js:264-268 | each name is in the group of its own key and no other |
| Cli.ListCommand | cli.js:251-273 | no tasks exactly when the filter keeps nothing; a throw exactly when a kept name's key is inherited; else the groups in first-seen order, each holding exactly its key's names in listing order (`Groups`) |
| Cli.NewTaskListed | cli.js:276-277 | a name made by `new` is listed with its id, its name, and its status group |
| Cli.NewTaskRenamed | cli.js:223-233 | a name made by `new` is found under its id and the rename replaces just its status |
| Cli.InheritedStatusCrashesList | cli.js:263-269 | a task made by `new` with the status `toString` makes `list` throw |
| Cli.GetDefaultColor | cli.js:23-35 | the eight-key table, else `#8b949e` |
| Cli.SetupChosenConfig | cli.js:407-434 | a non-empty `--statuses` decides the configuration written |
| Cli.SetupAgreesWithCreate | cli.js:410-417 | `setup --statuses` and `createConfigFromStatuses` agree on fields, keys and labels, in order |
| Cli.ColourTablesDiffer | cli.js:24-34 | the setup colour table and the loader's table disagree on `doing`, `idea` and `blocked` |
| Cli.SetupConfigReadBack | cli.js:407-425 | the configuration `setup --statuses` writes is read back unchanged |

## Left out

- DOM and UI are not modelled: element creation, `innerHTML`/`classList`, listeners, the history dropdown, the modal, and the column building. A card's visibility is a boolean and its HTML is a string.
- Timers are left out: the 300 ms debounce runs the search at once, and the 30 s auto-update is a flag that a search stops and clearing restarts.
- Network fetches are inputs. `loadConfig` gives a status list, a directory listing is a function from path to optional links, the search index is an optional entry list, and a file fetch is a function from path to its outcome.
- `loadFullTextContent`: an index whose JSON has no `tasks` array, which sets the cache and then falls back, is not modelled; the index is either read whole or not at all. The loading overlay is UI.
- Concurrency between handlers is not modelled: the model runs each handler as one step.
- ViewerSession.SearchSession.LoadFullTextContent: the source awaits the content fetches one by one, and a reload in between (the 30 s timer or the `r` key) replaces the cards, so the fetched text lands on discarded cards; the model runs the load as one step.
- localStorage is not modelled. The stored history is the constructor's argument, and it is not written back.
- The order of the three generators is not modelled: the script runs the summary, then the JSON export, then the search index, so when the summary throws (`TaskSummary.SummaryThrowsIff`) neither `tasks.json` nor `tasks_search.json` is written; the model treats the three as independent functions.
- Filesystem and processes are inputs. Directory listings and file contents are parameters, and nothing is written: each generator returns the text it would write. `getTemplatePath`, `ensureTaskDir`, commander parsing, `refresh`, the setup copying and the `package.json` editing are not modelled.
- Clocks and locale are parameters: the date of the summary and of the index, `Date.now` of the search index, and the modification time.
- `loadGlobalConfig` and `saveProjectConfig` are file I/O around values the model already has.
- Markdown-to-HTML in `showTask`, `openTaskModal` (an undefined name on the public API) and keyboard shortcuts are UI.
- The template text `new` falls back to is a parameter of `Cli.NewTask`.
- JSON text layout is not modelled: records are values, not serialised text. JSON numbers are integers in the model's `Json` datatype; no configuration value the core reads is fractional.
- Object key order is not modelled. JavaScript lists integer-like keys first, so `list` with purely numeric status segments prints in another order than `Cli.GroupTasks`. `deepMerge`'s output key order is lost in a map.
- Prototype keys in the `in` test of `deepMerge` are not modelled; only JSON values are. A key such as `toString` counts as present in every JavaScript target, while the model's map does not hold it.
- ConfigLoader.ColorFor: a key that names an inherited property (`constructor`, `toString`, `__proto__`, ...) reads a function or `Object.prototype` from the table, so the written configuration has no `color` or an empty object there; the model gives `#6b7280`.
- Cli.GetDefaultColor: likewise, such a key gives a function or `Object.prototype` in the source and `#8b949e` in the model.
- Unicode is only partly modelled. Case mapping covers ASCII letters only, and `localeCompare` is code-point order, which is exact for digit ids. Lengths count code points where JavaScript counts UTF-16 units: this differs only for characters outside the Basic Multilingual Plane, in `length > 5`, `size` and the preview window offsets of `Viewer.MatchWindow`. The default `files.sort()` of the index generator (`Sorting.SortInPlace`, `GenIndex.SortedGroup`, `GenIndex.SortedCopy`) compares UTF-16 units, and the model compares code points: the two disagree when two names first differ at a character outside the Basic Multilingual Plane on one side and one in U+E000 to U+FFFF on the other, so `1_a😀_todo.md` comes before `1_a（_todo.md` in JavaScript and after it in the model. For names that begin with an id, this needs two names with the same id.
- `$` patterns in `replace` replacements are not expanded. Only `$1` of the highlight is modelled, as the matched text.
- Cli.RenamedIdempotent: proved only for a status without `_`. With `_` the rename is not idempotent: `Cli.RenamedTwiceGrows` proves each rename adds a segment.
- Cli.FillTemplateExpands: holds for well-formed templates (no `__` and no trailing `_` in their text) and for id and name values with no `__` and no trailing `_`; where a placeholder directly follows another, its value must also be non-empty and start with neither `_` nor a capital. The status must have no `_`. `Cli.HeadingLineExpands` applies it to the fallback template's heading, and `Cli.FillKeepsPlainText` covers templates without placeholders.
- ViewerSession.SearchSession.LoadTasks: the count and column texts of the page are not kept. `totalCount` is the sum of the listing lengths, as in the source.

## Findings

| source | as written | input that shows it | evidently intended | confidence | as-written member | corrected member |
|---|---|---|---|---|---|---|
| defaults/viewer.js:309-313 | `safeHighlight` runs the query over the already escaped text, so a query can match inside an entity and `<mark>` splits it | title `R&D`, query `&`: the HTML is `R<mark>&</mark>amp;D` and the browser shows `R&amp;D` | the marks wrap matches of the raw text, and each piece is escaped on its own, so the title still shows as `R&D` | not executed | Viewer.AmpTitleShowsEntity | Viewer.CorrectedFieldHtmlShows |
| defaults/viewer.js:48-53 | a history click searches the saved query as saved (trimmed, not lowercased), while every field is lowercased before the test | type `Login`, press Enter, clear, click the history entry: nothing matches, while typing `Login` found the task | the replayed query is lowercased as the input handler does | not executed | ViewerSession.SearchSession.ReplayHistoryAsWritten | ViewerSession.SearchSession.ReplayHistory |
| defaults/viewer.js:149-153 | the index is merged by `c.filename`, which no card has: `loadTasks` builds cards without it | a page with card `003_a_todo.md` whose index entry holds `login`; full-text search for `login`: the card is hidden | each entry's text goes to the card of its file, so the search finds it | not executed | ViewerSession.IndexMergeAsWritten | ViewerSession.IndexMergeCorrected |

The first finding's as-written model is `Html.SafeHighlight`, which the viewer model uses as the page does (`Viewer.FieldHtml`, `Viewer.ContentPreview`). `Html.AmpQueryExample` and `Html.AmpQueryShowsEntity` give the counterexample on the highlight alone, and `Viewer.AmpTitleShowsEntity` on a card. The corrected definition is `Html.HighlightText`, with `Viewer.CorrectedFieldHtml` and `Viewer.CorrectedPreview` built on it; `Html.HighlightTextRendersText` proves that it shows the text itself for every query. The second finding's counterexample is `Viewer.CapitalMatchesNothing`. The correction relies on `JsString.TrimLower`: replaying `ToLower` of the saved text searches exactly what typing it did. The third finding's as-written merge is `ViewerSession.MergeIndex` with the key `ViewerSession.NoFilename`, which the page model uses; `ViewerSession.IndexedContentNeverHits` shows its consequence. The corrected merge uses `ViewerSession.CardFile`, the file name each card is built from.
