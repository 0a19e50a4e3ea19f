# CSV Gantt chart — a Dafny model

The repository is a browser page that turns a CSV task list into a Gantt
chart. This project models the page's core:

- **Reading the text.** `parseCSV` tokenises the text, honouring quotes,
  doubled quotes and any of the three line-ending conventions.
  `normHeaders` and `findHeaderIndex` locate the columns by their
  synonyms. `toDate`, `fmt`, `fmtMD` and `daysBetween` handle dates at UTC
  midnight.
- **Building the model.** `buildModel` validates the rows and keeps the
  usable tasks. It computes the chart's span, padded by 7 days on the
  left. It resolves the `;`-separated successor numbers to tasks. It
  groups the tasks by category, ordered by `CATEGORY_ORDER` rank and then
  by name, sorting each group's items by viewpoint. It initialises or
  prunes the set of collapsed viewpoints.
- **Rendering.** `render` first builds the row list:
  - category heads;
  - milestone rows;
  - viewpoint heads ordered by their earliest start;
  - task and sub-task rows sorted by start, end and name.

  It then computes the geometry:
  - summary bars with their date labels and midpoint checks;
  - milestone stars;
  - task bars with their status colours, date labels and clamped checks;
  - the vertical and horizontal grid lines;
  - the "lightning" today line, which bends out to the end label of every
    overdue unfinished task.

  `renderHeader` adds the ticks and the month labels, and
  `drawDependencies` draws a curve from each shown task to each of its
  shown successors.
- **Handlers.** The toggles collapse or expand every category or every
  viewpoint, or hide the task rows. The page handlers cover zoom,
  fit-to-width and clicks on the category and viewpoint labels. They
  change the UI state; that state is the class `State.AppState`, whose
  methods and the handler methods update it in place.

Dates are day numbers counted from 1970-01-01 UTC. The calendar is
proleptic Gregorian, with a proved round trip between day numbers and
(year, month, day). Text is `seq<char>`.

The page's environment enters as parameters of the operations that
need it:

- the Japanese collation of `localeCompare` is a comparison function
  `lc`, assumed to be a total preorder;
- the current day is `today`;
- the grid's client width is `clientWidth`;
- the measured right edge of an end label is `labelRight`;
- the existence of the SVG layer is `hasTarget`.

What the page writes into the DOM is returned as values instead:
`Shape`, `ZigTarget`, `PathCmd`, `Tick`, `MonthSeg`, `Curve` and `Row`.

## Model

| member | source | states |
|---|---|---|
| Csv.ParseCSV | js/utils/csv.js:10-30 | the one-pass scanner returns exactly the rows of the tokenizer specification `Parse`; empty text gives no rows; no row returned is blank; every field is trimmed |
| Csv.NormalizeNewlines | js/utils/csv.js:12 | no CR survives normalisation and every character of the result is an input character or LF |
| Csv.DropBlankSpec | js/utils/csv.js:29 | the filter keeps exactly the rows holding a non-empty field, in order |
| Csv.FinishParse | js/utils/csv.js:28-29 | the open row at the end of input is added after the completed rows unless it is blank |
| Csv.ParseTrimmed | js/utils/csv.js:22-23 | every field returned is trimmed |
| CsvProps.LineEndings | js/utils/csv.js:12 | CRLF, lone CR and LF line endings give the same rows |
| CsvProps.NormalizeJoined | js/utils/csv.js:12 | CR-free lines joined by CRLF or by a lone CR normalise to the same lines joined by LF |
| CsvProps.NormalizeIdentity | js/utils/csv.js:12 | text without CR is left unchanged by normalisation |
| CsvProps.NormalizeAppend | js/utils/csv.js:12 | normalisation distributes over a cut that does not split a CR LF pair |
| CsvProps.LexEscaped | js/utils/csv.js:15-19 | inside quotes a doubled quote is one quote character, the closing quote ends the quoted run, and commas and line feeds are content |
| CsvProps.QuotedRowRoundTrip | js/utils/csv.js:10-30 | a row written with every field quoted (quotes doubled) reads back as itself, whatever commas, line feeds and quotes its fields hold |
| CsvProps.UnterminatedQuote | js/utils/csv.js:13-28 | an opening quote never closed swallows the rest of the input, commas and line feeds included, into one field |
| CsvProps.TrailingNewline | js/utils/csv.js:23-29 | a final line feed outside quotes adds no row |
| CsvProps.FieldCount | js/utils/csv.js:22-23 | a line has exactly one field more than unquoted commas: rows are neither padded nor truncated |
| Headers.NormHeaders | js/utils/headers.js:14-22 | the result has one cell per header cell, each normalised |
| Headers.NormHeaderSpec | js/utils/headers.js:16-20 | a normalised header is trimmed, lower-case, has no full-width space and no leading byte-order mark, and normalising it again changes nothing |
| Headers.IndexOf | js/utils/headers.js:34 | `indexOf`: -1 exactly when absent, otherwise the first position holding the value |
| Headers.FindHeaderIndex | js/utils/headers.js:31-38 | the synonym loop returns the specified `HeaderIndex` |
| Headers.HeaderIndexSpec | js/utils/headers.js:31-38 | the result is -1 exactly when no lower-cased synonym occurs; otherwise it is the first column of the earliest synonym that occurs, so synonym order beats column order |
| Headers.PipedAsList | js/utils/headers.js:32 | a `\|`-separated synonym string behaves exactly like the array of its names |
| Seqs.SplitParts | js/model.js:88 | `split` yields one part more than there are separators and no part holds the separator |
| Seqs.SplitJoin | js/utils/headers.js:32 | splitting undoes joining when no part holds the separator |
| Text.Trim | js/utils/csv.js:22 | `trim` gives a trimmed string, no longer than its input, of the input's characters |
| Text.TrimTrimmed | js/utils/headers.js:19 | trimming is idempotent |
| Text.ToLower | js/utils/headers.js:20 | lower-casing keeps the length and leaves no upper-case letter, changing only upper-case letters |
| Text.ToLowerTrimmed | js/utils/headers.js:19-20 | lower-casing keeps a string trimmed and is idempotent |
| Text.ReplaceChar | js/utils/date.js:24 | every `from` becomes `to`, every other character stays |
| Text.NatToStringValue | js/utils/date.js:55 | the decimal form of a number reads back as that number |
| Text.Pad2Value | js/utils/date.js:41-42 | a number below 100 padded to two digits reads back as itself |
| Dates.ToCivil | js/utils/date.js:40-42 | the UTC year, month and day of a day number form a valid date naming that day |
| Dates.CivilRoundTrip | js/utils/date.js:19-21 | a valid date converted to a day number and back is itself |
| Dates.Weekday | js/renderer.js:131 | `getUTCDay` is between 0 and 6 |
| Dates.WeekdayNext | js/renderer.js:131 | the weekday advances by one each day and repeats every seven |
| Dates.ParseIsoDate | js/utils/date.js:25-26 | only the 4-, 7- and 10-character date-only forms are read |
| Dates.ToDate | js/utils/date.js:14-31 | null, undefined, the empty string and an invalid Date give null; a valid Date gives the UTC midnight of its own day |
| Dates.ToDateMidnight | js/utils/date.js:17-22 | a Date already at UTC midnight is returned unchanged |
| Dates.SlashesAsDashes | js/utils/date.js:24 | `YYYY/MM/DD` reads as `YYYY-MM-DD` |
| Dates.ToDatePlain | js/utils/date.js:24-26 | a trimmed text without slashes is read as it is |
| Dates.ReadIsoText | js/utils/date.js:24-30 | four digits, dash, two digits, dash, two digits read as the date they spell when it is valid |
| Dates.FmtRoundTrip | js/utils/date.js:39-44 | `fmt` of a day with a four-digit year gives `YYYY-MM-DD`, which `toDate` reads back as the same day |
| Dates.FmtMDParts | js/utils/date.js:52-56 | `fmtMD` is the month and the day without leading zeros, joined by one slash |
| Dates.DaysBetweenCounts | js/utils/date.js:65-70 | `daysBetween` counts the days between its ends, both included |
| Constants.CatRank | js/constants.js:22 | 9999 exactly for unlisted names; otherwise the first position of the name in `CATEGORY_ORDER` |
| Constants.RankIn | js/constants.js:22 | `indexOf` with 9999 for a miss, on any list shorter than 9999 |
| Constants.ListedFirst | js/constants.js:7-22 | every listed category ranks before every unlisted one, and the milestone category ranks first |
| Constants.ListedRank | js/constants.js:7-22 | the listed categories are distinct, so each ranks at its own position |
| Config.CloneDefaultConfig | js/config.js:13-20 | the default turns viewpoint ordering off with an empty order list |
| Config.Texts | js/config.js:30-36 | the kept texts are trimmed and non-empty |
| Config.TextsMember | js/config.js:30-36 | a text is kept exactly when it is non-empty and some item that is neither null nor undefined trims to it |
| Config.ToStringArray | js/config.js:26-39 | the loop with its `seen` set returns the specified `StringArray` |
| Config.StringArraySpec | js/config.js:26-39 | a non-array gives `[]`; the result has no repeats, only trimmed non-empty texts, exactly the texts of the items, and is in first-occurrence order |
| Config.NormalizeConfig | js/config.js:45-55 | a falsy or non-object input gives the default; `enabled` is true exactly when the raw flag is the boolean `true`; `order` is the string array of the raw order |
| State.AppState.constructor | js/state.js:3-9 | the initial state: an empty model 28 pixels per day wide, nothing collapsed, task rows shown, viewpoints not initialised |
| State.AppState.Install | js/model.js:71-98 | the commit of a build: the new model and collapsed viewpoints, viewpoints marked initialised, other fields untouched |
| Sorting.SortBySpec | js/model.js:55-57 | `Array.prototype.sort` with a consistent comparator yields a sorted permutation of its input |
| Sorting.SortByStable | js/model.js:57 | the sort is stable: elements that tie keep their input order |
| Sorting.KeysInOrderSpec | js/model.js:53-55 | a `Map`'s entries list each key once, exactly the keys of the elements |
| Sorting.MembersSpec | js/model.js:54 | a bucket holds exactly the elements with its key |
| Sorting.BucketBy | js/model.js:53-54 | the `map.has`/`map.set`/`push` loop yields entries in first-insertion order and, per key, the elements with that key in order |
| Tasks.Prefixed | js/model.js:67 | one `cat::name` key per viewpoint name, in order |
| Tasks.SubgroupKeyListSpec | js/toggles.js:35-42 | a key is listed exactly when some group has a task of that viewpoint |
| Tasks.GroupSubKeysSpec | js/toggles.js:36-40 | a group lists a key exactly when one of its tasks has that viewpoint |
| Tasks.MinStart | js/renderer.js:272-277 | the earliest start is present exactly when there are tasks |
| Tasks.MaxEnd | js/renderer.js:444-449 | the latest end is present exactly when there are tasks |
| Tasks.MinStartSpec | js/model.js:49-50 | the earliest start is no later than any start and is some task's start |
| Tasks.MaxEndSpec | js/model.js:49-50 | the latest end is no earlier than any end and is some task's end |
| Tasks.EarliestCheckSpec | js/renderer.js:501-506 | the representative check is present exactly when some task has a check, and is the least check |
| Tasks.ItemSpan | js/renderer.js:476-481 | the `minS`/`maxE` loop returns the earliest start and the latest end |
| Tasks.FirstCheck | js/renderer.js:501-506 | the `repCheck` loop returns the earliest check |
| ModelBuilder.FindColumns | js/model.js:15-27 | the `idx` record is the synonym lookup for each field |
| ModelBuilder.DraftOf | js/model.js:30-45 | the name is the task, else the viewpoint, else the category |
| ModelBuilder.TaskOf | js/model.js:46 | a kept draft gives a named task that does not end before it starts and has no successors yet |
| ModelBuilder.Drafts | js/model.js:30-45 | one draft per data row, in order |
| ModelBuilder.Survivors | js/model.js:30-46 | the filter keeps at most as many tasks as rows |
| ModelBuilder.SurvivorsSpec | js/model.js:46-47 | each survivor is a kept draft numbered by position, named, with start <= end; some survive exactly when some draft passes the filter |
| ModelBuilder.SurvivorsSpans | js/model.js:46 | no survivor ends before it starts |
| ModelBuilder.IdMapSpec | js/model.js:84 | a task number is a key exactly when some task has it, and it maps to the last such task |
| ModelBuilder.BuildIdMap | js/model.js:84 | the loop builds the specified `IdMap` |
| ModelBuilder.Tokens | js/model.js:88 | the successor tokens are trimmed and non-empty |
| ModelBuilder.ResolveIdsSpec | js/model.js:89-92 | a successor is resolved exactly when some token maps to it and it is not the task itself |
| ModelBuilder.Resolved | js/model.js:85-94 | resolution keeps one task per task |
| ModelBuilder.ResolveSuccessors | js/model.js:85-94 | the second pass returns the specified `Resolved` tasks |
| ModelBuilder.ResolveOne | js/model.js:86-93 | the token loop of one task returns its specified successors |
| ModelBuilder.GroupLePreorder | js/model.js:56 | the category comparator (rank, then name) is a total preorder |
| ModelBuilder.SubLePreorder | js/model.js:57 | the viewpoint comparator is a total preorder |
| ModelBuilder.BucketsDistinct | js/model.js:53-54 | one bucket per category key, keys distinct |
| ModelBuilder.GroupFromBucket | js/model.js:55-57 | each group is one bucket with its items reordered |
| ModelBuilder.GroupsPartition | js/model.js:53-57 | the groups partition the tasks: distinct keys, each item filed under its own key, every task in some group |
| ModelBuilder.GroupsOrdered | js/model.js:55-57 | groups are sorted by rank then name, items by viewpoint, stably |
| ModelBuilder.SubgroupKeySet | js/model.js:60-69 | the nested loops with per-group `seen` sets build the specified key set |
| ModelBuilder.AddGroupKeys | js/model.js:61-68 | the loop over one group's tasks adds exactly that group's viewpoint keys |
| ModelBuilder.KeepCollapsed | js/model.js:74-81 | pruning keeps exactly the previously collapsed keys that still exist |
| ModelBuilder.TasksOf | js/model.js:11-47 | a successful validation yields at least one task |
| ModelBuilder.ValidateRows | js/model.js:11-47 | the checks throw the first error met, or return the specified tasks |
| ModelBuilder.MakeModel | js/model.js:49-98 | span, successor resolution and grouping build the specified model |
| ModelBuilder.GroupTasks | js/model.js:53-57 | grouping and sorting build the specified groups |
| ModelBuilder.Rebuild | js/model.js:10-98 | parsing, validation and construction give the specified `Build` result |
| ModelBuilder.BuildModel | js/model.js:10-99 | on error the state is unchanged and the message returned; otherwise the model is replaced keeping the day width, collapsed viewpoints become all keys on the first build and the surviving ones later, and the state invariant is kept |
| ModelBuilder.BuildValid | js/model.js:97-98 | a built model has tasks, keeps the day width and spans its 7 padding days |
| ModelBuilder.TasksSpans | js/model.js:46-47 | validated tasks never end before they start |
| ModelBuilder.SpanOrdered | js/model.js:49-50 | the chart's earliest start is no later than its latest end |
| RenderHelpers.BadgeOf | js/renderer.js:51-55 | the class is empty exactly when the text is; a text appears exactly for the four priorities, and it is the priority |
| RenderHelpers.PrioClassText | js/renderer.js:49-56 | as `BadgeOf` on the trimmed priority (also app.js:91-98) |
| RenderHelpers.PrioClassesDistinct | js/renderer.js:51-55 | distinct priorities get distinct classes |
| RenderHelpers.StatusColor | js/renderer.js:65-72 | grey exactly for done, white exactly for not started, yellow exactly for delayed, green otherwise (also app.js:42-49) |
| RenderHelpers.ByStartThenNameOrder | js/renderer.js:109-119 | the comparator orders by start, then end, then name |
| RenderHelpers.ByStartThenNamePreorder | js/renderer.js:109-119 | with a consistent collation the comparator is a total preorder |
| RenderHelpers.WeekBoundaries | js/renderer.js:131 | week boundaries repeat every seven days and any seven consecutive days hold exactly one |
| RenderHelpers.MonthBoundaries | js/renderer.js:132 | month boundaries are exactly the firsts of months |
| RenderHelpers.FirstIsBoundary | js/renderer.js:132 | the first of every month is a month boundary |
| RenderHelpers.NonEmpty | js/renderer.js:155 | `.filter(Boolean)` keeps only non-empty parts |
| RenderHelpers.DepthOfTaskNo | js/renderer.js:152-156 | the depth is at most one more than the number of dots |
| RenderHelpers.DepthOfJoin | js/renderer.js:152-156 | `n` non-empty parts joined by dots have depth `n` |
| RenderHelpers.DepthOfParts | js/renderer.js:152-155 | a number of space-free dot-separated parts has as depth the number of non-empty parts, so empty parts such as in `1..2` are not counted |
| RenderHelpers.LatestEndSome | js/renderer.js:187-188 | the reduction yields a date exactly when some task qualifies |
| RenderHelpers.LatestEndMax | js/renderer.js:187-188 | the reduction yields the latest qualifying end |
| RenderHelpers.FindSnapDate | js/renderer.js:182-189 | present exactly when some depth-3 unfinished task ends before today; then the latest such end, before today |
| Rows.BucketLePreorder | js/renderer.js:279-284 | the viewpoint comparator (earliest start, then name) is a total preorder |
| Rows.SubBucketsSpec | js/renderer.js:260-278 | the viewpoint buckets are distinct, non-empty, hold exactly their viewpoint's tasks, and cover every task |
| Rows.SortedBucketsSpec | js/renderer.js:269-284 | the displayed viewpoints are a sorted permutation of the buckets |
| Rows.LeavesSpec | js/renderer.js:305-315 | leaf rows carry their tasks in order under their category |
| Rows.MembersBool | js/renderer.js:301-302 | the two filters split a viewpoint's tasks in two |
| Rows.LeafRowsItems | js/renderer.js:303-316 | under a viewpoint head come its task rows, then its sub-task rows |
| Rows.LeafRowsSorted | js/renderer.js:301-302 | each run of leaves is sorted by start, end and name |
| Rows.NamedNone | js/renderer.js:312-315 | without a task name there are no task rows to show |
| Rows.PlainPartCover | js/renderer.js:302 | sub-task rows hold exactly the tasks without a task name |
| Rows.TaskPartCover | js/renderer.js:301 | task rows hold exactly the tasks with a task name |
| Rows.LeavesPermute | js/renderer.js:301-302 | with task rows shown, the leaves are a permutation of the viewpoint's tasks |
| Rows.BucketRowsSpec | js/renderer.js:287-296 | one viewpoint contributes its own head and no category head |
| Rows.BucketKeys | js/renderer.js:288 | one `cat::name` key per viewpoint, in order |
| Rows.BucketsRowsHeads | js/renderer.js:287-317 | the viewpoint heads of a category come one per viewpoint, in display order |
| Rows.BucketsRowsCat | js/renderer.js:287-317 | every row of a category's viewpoints carries that category |
| Rows.GroupRowsSpec | js/renderer.js:242-244 | a category contributes exactly its own head, all its rows carry it, and a collapsed one contributes only its head |
| Rows.RowsHeads | js/renderer.js:242-243 | the category heads are the groups, one each, in order |
| Rows.CollapsedHidden | js/renderer.js:244 | no row but a head belongs to a collapsed category |
| Rows.MilestoneRowsSpec | js/renderer.js:247-253 | an open milestone category lists its tasks in order as milestone rows only |
| Rows.SortedBucketKeys | js/renderer.js:269-288 | sorting the viewpoints does not change their keys |
| Rows.GroupSubHeads | js/renderer.js:287-293 | an open category has a viewpoint head for exactly its tasks' viewpoint keys, the keys the toggles use |
| Rows.PushLeaves | js/renderer.js:248-251 | one leaf row pushed per task |
| Rows.AnyTask | js/renderer.js:290-291 | `withTask` is true exactly when some task has a task name |
| Rows.EarliestStart | js/renderer.js:272-277 | the `minS` loop returns the earliest start |
| Rows.MakeSubBuckets | js/renderer.js:260-278 | `bySub` and its entries give the specified buckets |
| Rows.PushLeafRows | js/renderer.js:303-316 | the leaves of an open viewpoint are pushed as specified |
| Rows.PushBucket | js/renderer.js:287-316 | one viewpoint's rows are pushed as specified |
| Rows.PushBuckets | js/renderer.js:287-317 | a category's viewpoints' rows are pushed as specified |
| Rows.PushGroup | js/renderer.js:242-317 | one category's rows are pushed as specified |
| Rows.SequenceRows | js/renderer.js:242-318 | the row list of the current state is the specified `RowsOf` |
| Layout.DrawSummary | js/renderer.js:442-519 | a category or viewpoint row draws the specified summary shapes |
| Layout.DrawLeaf | js/renderer.js:521-616 | a leaf row draws the specified shapes and today-line candidate |
| Layout.DrawTask | js/renderer.js:539-616 | a task or sub-task row draws its bar and, when the task has a midpoint check, the check after it, as specified |
| Layout.TaskZig | js/renderer.js:587-602 | a task or sub-task row records one today-line candidate at its row band unless its normalised status is done |
| Layout.LeafBarFields | js/renderer.js:539-582 | a bar starts at its start day's offset, is the clamped span wide, sits at the row's bar top, takes its status colour and has its date labels at both ends at the bar's centre |
| Layout.LeafCheckFields | js/renderer.js:604-616 | the check sits at its day clamped onto the bar, 15 px below the bar's centre |
| Layout.TaskCheckClamped | js/renderer.js:604-609 | the check stays on its bar and sits exactly at the check day when that day is on the bar |
| Layout.BarEnd | js/renderer.js:541-547 | a bar is at least 6 px wide and, past that minimum, ends 2 px short of its last day's right edge |
| Layout.LeafShapesPlaced | js/renderer.js:521-616 | every shape of a leaf row carries its row, fits the row's kind and stays inside the row's band |
| Layout.DrawRows | js/renderer.js:441-618 | the bar loop draws every row's shapes and candidates |
| Layout.ShapesPlaced | js/renderer.js:441-618 | every shape belongs to an existing row, fits its kind and stays inside its band |
| Layout.EveryLeafDrawn | js/renderer.js:539-586 | every task and sub-task row draws its bar |
| Layout.TaskBarGeometry | js/renderer.js:539-616 | a bar starts at its start day and, when wider than 6 px, ends 2 px short of its end day; labels sit at its ends; the check is clamped onto the bar and exact when on it |
| Layout.SummaryCovers | js/renderer.js:442-467 | a summary bar starts no later and ends no earlier than any of its tasks' bars |
| Layout.ZigsSpec | js/renderer.js:588-602 | candidates are exactly the unfinished task and sub-task rows, one per row |
| Layout.ZigsInRowOrder | js/renderer.js:588-602 | candidates come in row order |
| Layout.ZigsInBand | js/renderer.js:594-600 | each candidate lies in its row's band inside the chart |
| Layout.TargetsFiltered | js/renderer.js:632-634 | the sort after the filter keeps the filter's order |
| Layout.TargetsSpec | js/renderer.js:632-634 | the targets are exactly the unfinished leaf rows ending before today |
| Layout.DrawBite | js/renderer.js:670-691 | one target's commands are the specified ones |
| Layout.BuildLightning | js/renderer.js:662-695 | the path is the specified `LightningPath` |
| Layout.LightningStaysLeft | js/renderer.js:667-695 | the path never goes right of the today line |
| Layout.EveryTargetBitten | js/renderer.js:678-687 | the path bends out to every target's end label at its bar's centre |
| Layout.SegDescends | js/renderer.js:670-691 | one target's commands go down inside its band |
| Layout.LightningDescends | js/renderer.js:662-695 | for well-placed targets the path runs top to bottom without climbing |
| Layout.TargetsWellPlaced | js/renderer.js:592-634 | the targets the rows yield are well placed, so the path descends |
| Grid.DaysWhereSpec | js/renderer.js:411-421 | the chosen days are exactly the days in range that pass the test, in increasing order |
| Grid.DayModeEveryDay | js/renderer.js:412 | in day mode every day gets a line |
| Grid.WeekModeOnePerWeek | js/renderer.js:412 | in week mode every seven consecutive days hold exactly one line, on a Sunday |
| Grid.DayLoop | js/renderer.js:410-421 | the day loop places one element per passing day |
| Grid.DrawVLines | js/renderer.js:410-421 | the vertical lines are at `d * dayWidth` for the boundary days |
| Grid.DrawHLines | js/renderer.js:424-429 | one horizontal line at the bottom of every row |
| Header.DrawTicks | js/renderer.js:750-781 | the tick loop gives the specified ticks |
| Header.TicksSpec | js/renderer.js:750-781 | the ticks are exactly the boundaries among the days and the two guard days, left to right |
| Header.TicksMatchGrid | js/renderer.js:752-755 | the grid's lines are the first ticks, at the same days and x |
| Header.TickLabel | app.js:107-112 | the tick text for the three modes and empty for any other |
| Header.IsFirst | js/renderer.js:787-788 | the first-of-month test for a chart day |
| Header.SegsUpTo | js/renderer.js:786-798 | the closed month segments end no later than the last day closed |
| Header.DrawMonthLabels | js/renderer.js:784-800 | the month loop as written gives the specified segments |
| Header.SegsContiguous | js/renderer.js:786-798 | the month segments tile the days left to right |
| Header.SegsStartOnFirst | js/renderer.js:786-798 | every segment after the first starts on a first of a month |
| Header.SegsNoFirstInside | js/renderer.js:786-798 | no first of a month falls inside a segment |
| Header.SegsNoFirstAfter | js/renderer.js:786-798 | no first of a month falls after the last closed segment |
| Header.SegsReachEnd | js/renderer.js:786-798 | the segments reach exactly to the end of the guard days |
| Header.MonthStartDuplicated | js/renderer.js:786-798 | as written, a chart opening on a first gets an empty label and then the same month again |
| Header.MonthLabelsDuplicateFirst | js/renderer.js:784-800 | the same for the month labels of the header |
| Header.FixedSegsPositive | js/renderer.js:786-798 | with day 0 not closing, no segment is empty |
| Header.MonthSegsFixedSpec | js/renderer.js:784-800 | the intended labels start at 0, tile the days up to the guard end, are non-empty, start on firsts and hold no first inside |
| Deps.DrawDependencies | js/deps.js:6-84 | nothing without a target; otherwise the specified curves |
| Deps.GeomMapSpec | js/deps.js:29-47 | the geometry map holds exactly the tasks of leaf rows, each at the last row showing it |
| Deps.GeomKeysSpec | js/deps.js:50 | the map's entries visit each task once |
| Deps.GeomLoop | js/deps.js:29-47 | the geometry loop builds the specified map, recording each task once in first-set order |
| Deps.CurvesFromLoop | js/deps.js:53-80 | the inner loop draws the specified curves of one task, in successor order |
| Deps.GeomIsBar | js/deps.js:37-44 | a task's geometry is its drawn bar, centred in its row |
| Deps.CurveShape | js/deps.js:57-69 | a curve joins the source's right end to the target's left end, control points symmetric and at least 10 px in |
| Deps.CurvesFromSpec | js/deps.js:53-56 | one curve per successor with geometry, in order |
| Deps.CurvesOverSpec | js/deps.js:50-52 | the curves of every mapped task |
| Deps.DependenciesSpec | js/deps.js:49-83 | a curve exactly for each shown task and shown successor |
| Toggles.ToggleAll | js/toggles.js:15-31 | "collapse all" gives the specified collapsed categories and touches nothing else |
| Toggles.SubgroupKeys | js/toggles.js:35-42 | the key loop returns the specified key list |
| Toggles.GroupKeys | js/toggles.js:36-40 | the loop over one group's tasks yields that group's keys in first-seen order |
| Toggles.ToggleSubs | js/toggles.js:33-50 | "collapse viewpoints" gives the specified collapsed viewpoints and touches nothing else |
| Toggles.ToggleTasks | js/toggles.js:52-59 | the task rows flag is negated and nothing else changes |
| Toggles.ToggleTasksTwice | js/toggles.js:54 | two presses restore the task rows flag |
| Toggles.NonEmptyMembers | js/toggles.js:18-19 | the category list keeps exactly the non-empty `data-cat` values |
| Toggles.ToggledCatsSpec | js/toggles.js:20-25 | all expand exactly when all were collapsed; otherwise exactly the shown categories are collapsed |
| Toggles.ToggleAllTwice | js/toggles.js:20-25 | two presses swap between all collapsed and all expanded |
| Toggles.LabelCats | js/toggles.js:18-19 | the non-empty `data-cat` values of the category labels drawn from the rows are exactly the groups' categories, whatever is collapsed |
| Toggles.ToggleAllOnRows | js/toggles.js:17-25 | on the drawn chart, "collapse all" expands everything when every category was collapsed, otherwise collapses exactly the groups' categories, and a second press then expands them all |
| Toggles.ToggledSubsSpec | js/toggles.js:43-45 | all expand exactly when all were collapsed; otherwise every key is added and none removed |
| Toggles.ToggleSubsTwice | js/toggles.js:43-45 | from a partial state two presses expand everything |
| App.SetZoom | app.js:86-89 | the day width becomes the zoom's width and nothing else changes |
| App.ZoomWidthSpec | app.js:87 | 28 px for day, 12 for week, 7 otherwise, never below 4 |
| App.RoundDivNearest | app.js:192 | `Math.round(a / b)` is the nearest integer, halves rounded up |
| App.FitWidthSpec | app.js:192 | the fitted width is at least 4; above 4 the days fill the container within half a day |
| App.OnFitClick | app.js:187-195 | no change without tasks; otherwise the fitted width for the grid, or 800 px, and the invariant is kept |
| App.FitDivisor | app.js:191 | a built model spans at least 8 days, so the division is defined |
| App.FlipSpec | app.js:170-171 | a flip changes one member only, and twice restores the set |
| App.OnLabelsClick | app.js:166-181 | a category label flips its category, a viewpoint label its key, anything else nothing |
| App.OnLabelsClickTwice | app.js:166-181 | two clicks on the same label restore both sets |

## Left out

- The DOM is not modelled: element creation, class names, styles, the label pane (js/renderer.js:320-361), header spacers, widths and padding, scroll synchronisation and `fixBottomSync`. Shapes and commands are returned as values instead.
- The render guard and the redraw calls after each handler are left out; every handler models only its state change.
- The CSS custom properties `--cat-bar-h`, `--bar-h` and `--labels-w` are taken at their fallback values 12, 20 and 360.
- The clock is the parameter `today`. The measured label edge (`getBoundingClientRect`) is the function parameter `labelRight`.
- `localeCompare(…, 'ja')` is the parameter `lc`, assumed to be a total preorder. Japanese collation itself is not modelled.
- `loadConfig` fetches over the network and is left out; `normalizeConfig` and its helpers are modelled.
- The `window.*` overrides of the renderer helpers are left out; the built-in versions are modelled.
- Dates.ToDate: only the ECMAScript date-only string forms are read. The implementation-specific fallbacks of `new Date(string)` (local-time forms such as `2024-1-5`, date-times, month names) are read as invalid. Out-of-range months or days are invalid rather than rolled over.
- Text.ToLower: only ASCII letters are lower-cased; other case mappings are not modelled.
- Config.ToText: JSON numbers are integers written in full decimal. Non-integral numbers (`1.5`), the exponent form JavaScript uses from 1e21 up (`1e+21`) and the precision lost above 2^53 are not modelled.
- The SVG path strings are not built. Curves and path commands are values, with `Math.round` on halves explicit. The arrow-head marker is a constant definition and is not modelled.
- Deps.DrawDependencies: tasks are keyed by their position in the model instead of by object identity. The `!t.start || !t.end` guard never fires, since every task in the model has both dates.
- The `todayEl.hidden` assignments (js/renderer.js:639-644) are left out: the element ends up hidden in every case.
- js/model.js:6 imports `catRank` from js/config.js, which does not export it, so the module as shipped fails to load. The model uses the `catRank` of js/constants.js:22, which is evidently what was meant.
- The toggle button labels (`updateToggleAllBtn` and `updateGlobalButtons`, js/toggles.js:61-86) and `anyExpanded` only read the state for the button text, and are left out.
- Month-mode grid lines are stated only through `IsBoundary` (firsts of months). No separate lemma counts them.

## Findings

| source | as written | input that shows it | evidently intended | confidence | as-written member | corrected member |
|---|---|---|---|---|---|---|
| js/renderer.js:786-798 | the month-label loop closes a label on every day that is a first of a month, day 0 included, and then restarts at day 0 | a chart whose padded first day is a first, e.g. the earliest task starts 2024-03-08, so the chart opens on 2024-03-01 in day or week zoom | the first label runs from day 0 to the next first, with no zero-width label and no repeat of the month | not executed | Header.MonthLabelsDuplicateFirst | Header.MonthSegsFixedSpec |
