# Periodic PARA: the query and rollup core, in Dafny

This project models the part of the Obsidian plugin "Periodic PARA" that
computes what its "by time" and "by tag" views show. The rest of the plugin
is host glue.

- **Task filter** (`task.dfy`, module `Task`). The recursive predicate decides
  whether a checklist item, or anything nested under it, falls in a date
  window. The date is the `✅ YYYY-MM-DD` completion marker in done mode, or
  the first `YYYY-MM-DD` of the note path in record mode. Items under the
  habit header are excluded. The module also builds the `where` clause of
  the by-tag task query.
- **Project rollup** (`project.dfy`, module `Project`).
  - Duration tokens `<h>hr<m>` are parsed, added with `timeAdd` and compared
    with `timePercent`.
  - `filter` walks the daily notes of a date range and cuts out the project
    section of each one. Per project it totals the time of the project's
    lines, keeps projects in first-seen order and folds each day's total
    line into a running total. Finally it rewrites every entry as
    `part/total=percent`.
  - `listByTime` prints one numbered `[[path|folder]] time` line per
    project.
- **Area rollup** (`area.dfy`, module `Area`). `filter` walks the four
  quarterly notes `{year}-Q1.md` … `{year}-Q4.md` and collects the distinct
  link targets of their area sections in first-seen order. `listByTime`
  prints them as numbered links.
- **File helpers** (`file.dfy`, module `File`):
  - `get` applies the folder-substring constraint to a resolved note;
  - `hasCommonPrefix` is a literal prefix test on tags;
  - `tags` normalises the front-matter `tags` field;
  - `list` builds the numbered README index of a folder's sub-folders,
    with an optional tag filter.

Supporting modules:

- `patterns.dfy` (`Patterns`) holds hand-written search functions for the
  regular expressions the code applies: `\d+hr(\d+)?`, `open(.*)close`, the
  section pattern `# {header}([\s\S]+?)\n#` and `\d\d\d\d-\d\d-\d\d`. Each
  comes with a lemma saying that it returns exactly the leftmost match,
  stated as a predicate over positions.
- `markdown.dfy` (`Markdown`) builds on them: the section cut, the link
  target of a line, the middle of a path between two slashes, and the
  numbered link lines.
- `text.dfy`, `lists.dfy` and `wrappers.dfy` provide:
  - string search, split and join, and `trim`;
  - decimal digits and the printing of numbers;
  - the "push if not already included" idiom;
  - `Option`.

Pure code is modelled as functions; the source's imperative code becomes
methods. `Project.filter` is a `while (true)` loop with a `break` that
mutates a list and a dictionary. It is modelled as the method
`Project.Filter` with the helper methods `VisitDay`, `CountSection` and
`ShowAll`. Each is proved equal to a day-by-day specification
(`RollupThrough`, `CountLines`, `Display`), and the promised properties are
proved about that specification. `Area.filter` is modelled the same way
(`Area.Filter` and `CollectSection` against `Dedup(AreaStream(…))`), and so
are both `listByTime` loops.

The environment becomes plain inputs:

- the vault's link resolution is a map from link text to note (`File.Doc`);
- the daily note of each day is a map from day number to note;
- front matter is a map from path to `FrontMatterTags`;
- the link text Obsidian generates for a file is a function parameter;
- the two-decimal percentage is a function parameter.

Behaviour the model keeps exactly as the code has it, including where a
plain reading of the plugin's description suggests otherwise:

- The minute carry of `timeAdd` is `Number((min / 60).toFixed(0))`, which
  rounds rather than floors. So `0hr45 + 0hr45` is `2hr30`, and `timeAdd`
  is not associative (`Project.TimeAddRoundsUp`).
- The habit test trims both header texts and then compares them exactly,
  so case matters.
- A habit-section item is dropped before its children are looked at, so a
  kept child does not keep it (`Task.HabitParentHidesKeptChild`).
- An item without a date is also dropped before its children are consulted.
- A line that holds both a project link and a duration becomes the day's
  total *and* is still counted as a project line.
- All project links that do not resolve are counted under the key `''`.
- A project read on a single line keeps that line's token as written, not
  normalised (`1hr90` stays `1hr90`; `Project.TimeForSingle`).
- When a range has a single day with a note, the total is that day's total
  line verbatim (`timeAdd('', line)` is `line`), not a normalised token
  (`Project.SingleDayTotal`).
- The section pattern is not anchored to a line start, so `## Header` opens
  the section too (`Markdown.SubheaderAlsoMatches`).
- The section ends at the first later `\n#`, and it reads as no lines at
  all when none follows (`Markdown.LastSectionIsLost`).
- The areas collected are link targets, not resolved paths.
- `list` sorts the folder's children with the default comparator on
  objects, which leaves their order unchanged. The unanchored README
  pattern `(.*\.)?README\.md` holds exactly when the path contains
  `README.md`.

## Model

| member | source | states |
|---|---|---|
| Task.DateText | src/periodic/Task.ts:169-185 | A date is found exactly when the text holds `✅ ` followed by a date shape (done mode), or the path holds a date shape (record mode); the result is a 10-character date shape |
| Task.DateTextLeftmost | src/periodic/Task.ts:169-185 | The date is the one after the leftmost `✅ ` that a date shape follows (done mode), or the leftmost date shape of the path (record mode) |
| Task.ParseDate | src/periodic/Task.ts:187 | A `YYYY-MM-DD` text reads as a year below 10000 and a month and day below 100 |
| Task.FormatParsedDate | src/periodic/Task.ts:187 | Writing the date read from a date text back, zero-padded, gives that text again |
| Task.ParseFormattedDate | src/periodic/Task.ts:187 | Every date whose fields fit their widths is written as a date text that reads back as that date |
| Task.InWindow | src/periodic/Task.ts:189-192 | Without bounds every date is in the window; a date in a window with a bound is a valid date, and each given bound is valid |
| Task.SingleDayWindow | src/periodic/Task.ts:189-192 | A window whose two bounds are the same valid day holds exactly that day |
| Task.Matches | src/periodic/Task.ts:151-205 | Always false when neither bound is given, for a habit-section item, and for an item without a date, whatever its children; true when the item passes those exits and qualifies on its own |
| Task.MatchesHasWitness | src/periodic/Task.ts:194-204 | A kept item has a chain of child indices down to an item that qualifies on its own, every item on the chain passing the early exits |
| Task.WitnessMatches | src/periodic/Task.ts:194-204 | An item with such a chain below it is kept |
| Task.MatchesIffWitness | src/periodic/Task.ts:151-205 | An item is kept if and only if such a chain exists |
| Task.MatchesMonotone | src/periodic/Task.ts:187-202 | Widening the window (same mode, no tighter bound) never drops a kept item |
| Task.KeptOnRecordDate | src/periodic/Task.ts:178-202 | In record mode with only a `from` bound, an item outside the habit section whose path date is that bound is kept |
| Task.HabitParentHidesKeptChild | src/periodic/Task.ts:163-167 | An item under `Habit` whose only child lies under `Log` and is kept on its own is itself dropped |
| Task.RecordDateOfExamplePath | src/periodic/Task.ts:180-187 | The path `2024-01-02.md` yields the date text `2024-01-02`, read as 2 January 2024 |
| Task.TagWhere | src/periodic/Task.ts:114-128 | No clause is built exactly when the note has no tags |
| Task.WhereIsDisjunction | src/periodic/Task.ts:122-128 | With tags, the clause is the `contains(tags, "#t")` tests in tag order, separated by ` OR `, followed by one space |
| Task.JoinPieces | src/periodic/Task.ts:122-128 | Joining the per-tag pieces (test, space, `OR` except after the last) with spaces gives the ` OR `-separated tests plus a trailing space |
| Project.TimeToken | src/para/Project.ts:108 | Empty exactly when the line holds no duration token; otherwise a slice of the line at which a token match starts |
| Project.TimeTokenSpec | src/para/Project.ts:108 | The token starts at the leftmost position where digits followed by `hr` begin and spans all those digits, `hr` and every digit after it |
| Project.ParseTime | src/para/Project.ts:22-24 | A text without a duration token reads as 0 hours 0 minutes |
| Project.ParseTimeSpec | src/para/Project.ts:22-24 | Of that leftmost token, the hours are the decimal value of the digits before `hr` and the minutes that of the digits after it, 0 when there are none |
| Project.ParseFormat | src/para/Project.ts:22-34 | The written token `{h}hr{m}` holds a token and reads back as exactly `(h, m)` |
| Project.TimeAdd | src/para/Project.ts:13-20 | An empty operand returns the other operand verbatim |
| Project.Carry | src/para/Project.ts:29-30 | The carry is the number of hours nearest to the summed minutes, a half hour rounding up |
| Project.SumTime | src/para/Project.ts:25-34 | The written minutes are the summed minutes modulo 60, so below 60; the written hours are at least the summed hours |
| Project.TimeAddReads | src/para/Project.ts:22-34 | Two non-empty operands give a token that reads back as the summed hours and minutes with the carry applied |
| Project.SumTimeTotal | src/para/Project.ts:25-34 | After an overflow the minutes are below 60; the written total is the exact total plus one hour exactly when the minutes overflow with a remainder of 30 or more |
| Project.TimeAddTotal | src/para/Project.ts:13-35 | For non-empty operands the result is a token that reads back as the carried sum, keeps minutes below 60, and totals the operands' minutes plus 60 exactly when the rounding carry overshoots |
| Project.TimeAddCommutes | src/para/Project.ts:13-35 | `timeAdd(a, b) == timeAdd(b, a)` for all operands |
| Project.TimeAddRoundsUp | src/para/Project.ts:29-32 | `0hr45 + 0hr45` is `2hr30`; `(0hr45 + 0hr45) + 0hr15` is `2hr45` but `0hr45 + (0hr45 + 0hr15)` is `1hr45` |
| Project.TimePercent | src/para/Project.ts:37-53 | `''` exactly when either operand is empty; otherwise the percentage of the two minute totals followed by `%` |
| Project.DayTotalIsLastTimed | src/para/Project.ts:79-95 | The day's total is the whole text of the last section line holding a duration token, or `0hr0` when none does |
| Project.SingleDayTotal | src/para/Project.ts:79-120 | With one day in range, the total is that day's last timed line itself |
| Project.CountLinesProjects | src/para/Project.ts:87-118 | Counting a section appends exactly the keys of its project lines not yet listed, in first-seen order |
| Project.CountLinesKeysAgree | src/para/Project.ts:110-117 | Counting lines keeps the project list and the keys of the time map equal as sets |
| Project.CountLinesSpent | src/para/Project.ts:105-113 | Counting a section adds to each key's time, with `timeAdd`, the tokens of that key's lines in line order |
| Project.CountStep | src/para/Project.ts:87-118 | Counting one more line applies that line to the counts of the lines before it |
| Project.CountSection | src/para/Project.ts:87-118 | The loop over a section's lines yields the specified counts and the day's total |
| Project.VisitDay | src/para/Project.ts:72-122 | One day of the walk: a day without a note under the folder changes nothing, otherwise its section is counted and its total folded in |
| Project.RollupProjects | src/para/Project.ts:71-129 | The project list is the distinct keys of all project lines of the range, in day order then line order, first occurrence kept |
| Project.RollupKeysAgree | src/para/Project.ts:110-117 | Every listed project has a time entry and every time entry's key is listed |
| Project.RollupInvariants | src/para/Project.ts:71-129 | The project list has no duplicates, equals the time map's keys as a set, holds exactly the keys read and keeps first-seen order |
| Project.RollupWithoutNotes | src/para/Project.ts:64-76 | A range with no note under the folder yields no projects, no time entries and the total `''` |
| Project.DayDoc | src/para/Project.ts:72-76 | A day has a note exactly when its daily note exists and, with a folder given, the note's path contains the folder; it is then that note |
| Project.RollupSpent | src/para/Project.ts:105-120 | The time of each project key (`''` for one never read) is `timeAdd` folded from `''` over the tokens of that key's lines, in day order then line order |
| Project.TimeForSingle | src/para/Project.ts:108-113 | A key read on exactly one line keeps that line's token verbatim |
| Project.Shown | src/para/Project.ts:133-138 | An empty entry stays `''`; a non-empty one starts with `{part}/{total}=` and ends with `%` when the total is non-empty |
| Project.Display | src/para/Project.ts:132-139 | The rewrite keeps the set of keys of the time map |
| Project.ShowAll | src/para/Project.ts:132-139 | The in-place loop over the keys rewrites every entry as specified |
| Project.Filter | src/para/Project.ts:55-146 | Visits each day from `from` to `to` once in order, and returns the specified project list and total and the rewritten time map |
| Project.ListByTime | src/para/Project.ts:165-175 | Line `i` is `{i+1}. [[{project}\|{middle}]] {entry}`, one per project in list order |
| Project.LineReadsBack | src/para/Project.ts:168-173 | The link target of a printed project line is the project path again, whatever the shown entry holds (including a whole project line shown as a single day's total) |
| Area.QuarterLink | src/para/Area.ts:20-26 | The quarter link is the year, `-Q`, the digit whose value is the quarter number, and `.md` |
| Area.LineAreas | src/para/Area.ts:39-48 | Every area read from a line is non-empty, holds no `\|` and lies on one line |
| Area.AreaStream | src/para/Area.ts:24-53 | The areas of quarters 1..n in quarter order, with the same shape guarantees |
| Area.CollectSection | src/para/Area.ts:34-49 | The loop over a section adds its new areas in line order |
| Area.Filter | src/para/Area.ts:9-58 | The result is the distinct areas of the four quarter notes, first occurrence kept |
| Area.AreaListShape | src/para/Area.ts:24-57 | The area list has no duplicates, holds exactly the areas read, keeps first-seen order and has no empty name |
| Area.ListByTime | src/para/Area.ts:73-81 | Line `i` is `{i+1}. [[{area}\|{middle}]]`, one per area in list order |
| Area.ReadsBack | src/para/Area.ts:73-80 | The link target of a printed area line is the area again |
| File.Get | src/periodic/File.ts:103-113 | Without a folder the resolved note is returned unchanged; with one, it is returned exactly when its path contains the folder, otherwise nothing |
| File.StartsWithAny | src/periodic/File.ts:29-33 | True exactly when the tag starts with one of the prefixes |
| File.HasCommonPrefix | src/periodic/File.ts:27-36 | True exactly when some tag of the first list starts with some tag of the second; false when either list is empty |
| File.CommonPrefixExamples | src/periodic/File.ts:17-26 | `#work/project-1` and `#work2` match `#work`; `#life`, and `#work` against `#work/project-1`, do not |
| File.Tags | src/periodic/File.ts:120-134 | No tags or an empty string give `[]`; a string `s` gives `[s]`; a list is returned unchanged |
| File.TagsOf | src/periodic/File.ts:121-127 | A path the index does not know has no tags |
| File.FirstReadme | src/periodic/File.ts:61-63 | The first child whose path contains `README.md`, or none when no child does |
| File.IndexLink | src/periodic/File.ts:56-85 | A sub-folder contributes `[[link\|name]]` exactly when the tag condition is empty or shares a prefix with its README's tags, and its README is a file |
| File.KeptLinks | src/periodic/File.ts:52-87 | Every kept link comes from a sub-folder, and there are at most as many links as children; no sub-folders means no links |
| File.KeptLinksRank | src/periodic/File.ts:52-87 | The index holds one link per kept sub-folder; the link of a kept child sits at the number of kept children before it, so a later kept child's link comes strictly later |
| File.Numbered | src/periodic/File.ts:88 | Entry `i` becomes `{i+1}. {entry}` |
| File.List | src/periodic/File.ts:48-94 | `No files in {folder}` when the path is not a folder; `''` for a folder with no kept sub-folder |
| File.ListLines | src/periodic/File.ts:83-90 | Split on newlines, the index has one line per kept sub-folder, numbered 1..n consecutively |
| Markdown.SectionTextSpec | src/para/Project.ts:77-85 | The capture exists exactly when some header occurrence is followed, at least one character later, by `\n#`; it starts at the leftmost such occurrence and ends at the first `\n#` |
| Markdown.SectionLinesSpec | src/para/Area.ts:35-38 | No lines without a match; otherwise lines free of `\n` that join back to the capture |
| Markdown.LastSectionIsLost | src/para/Area.ts:30-38 | When no `\n#` follows the first header occurrence, the section yields no lines |
| Markdown.SubheaderAlsoMatches | src/para/Project.ts:77-85 | `## H\nx\n#` with header `H` yields the lines `''` and `x` |
| Markdown.CutAtBar | src/para/Area.ts:44-45 | The target is the text up to its first `\|`, and it holds no `\|` |
| Markdown.LinkTargetSpec | src/para/Area.ts:44-45 | A target exists exactly when some `[[` is closed by a `]]` on the line; it is the text after the leftmost `[[` that can be closed, up to the last `]]` on that line, cut at its first `\|` |
| Markdown.LinkTargetShape | src/para/Area.ts:44-45 | A target lies on one line and holds no `\|` |
| Markdown.LineLink | src/para/Area.ts:40-46 | A line names a link exactly when it is non-empty and its target exists and is non-empty; that link is the target |
| Markdown.LinkTargetInLine | src/para/Project.ts:96-99 | A line holding a written `[[target\|display]]` with no `[` before it yields `target`, whatever follows it on the line |
| Markdown.NumberedLinkTarget | src/para/Area.ts:78-80 | A numbered link line `{n}. [[target\|display]]…` yields `target`, whatever follows the link |
| Markdown.MiddleSpec | src/para/Area.ts:76-79 | `''` without two slashes on one line; otherwise the text after the leftmost slash that a later one closes on its line, up to the last slash of that line; always a single line |
| Patterns.TimeAtIsRegex | src/para/Project.ts:63 | `\d+hr` matches at a position exactly when the greedy digit run there is followed by `hr` |
| Patterns.FindTimeSpec | src/para/Project.ts:92 | The search returns the leftmost position where a duration token matches, or none when there is none |
| Patterns.MatchTimeSpec | src/para/Project.ts:22-24 | The match of `(\d+)hr(\d+)?` is the leftmost one; its hours are the whole digit run before `hr`, its minutes the whole (possibly empty) run after it |
| Patterns.GreedySpanSpec | src/para/Area.ts:44 | The leftmost `open` that a `close` on the same line follows, paired with the last such `close` |
| Patterns.GreedyGroupSpec | src/para/Area.ts:44 | The group exists exactly when the pattern matches; it is the text after the leftmost `open` that can be closed, up to the last `close` on the same line |
| Patterns.OnlySpan | src/para/Area.ts:44 | A span with no `open` before it and no `close` after it is the match |
| Patterns.SectionSpanSpec | src/para/Area.ts:30-35 | The section match is the leftmost header occurrence with the nearest `\n#` at least one character later |
| Lists.AddNew | src/para/Area.ts:46-48 | Afterwards the list holds exactly the old values and the pushed one, keeps the old list as a prefix, grows by one exactly when the value was absent, and a list without duplicates keeps none |
| Lists.DedupOntoAppend | src/para/Area.ts:24-53 | Collecting the areas of one quarter after another is collecting over their concatenation |
| Lists.DedupOntoShape | src/para/Project.ts:115-117 | The collected list extends the old one, has no duplicates and holds exactly the old values and the new ones |
| Lists.DedupFirstSeen | src/para/Area.ts:46-48 | The collected values have no duplicates, are exactly the stream's values and are ordered by first occurrence |
| Lists.FilterMapRank | src/periodic/File.ts:56-87 | Mapping and dropping empty results keeps one value per element that yields one, the value of element `i` after those of the elements before it |
| Lists.FilterMapFrom | src/periodic/File.ts:56-87 | Every kept value is yielded by some element |
| Lists.LastWhereLast | src/para/Project.ts:92-95 | When the line at `i` is the last one holding a token, the day's total is that line |
| Lists.LastWhereNone | src/para/Project.ts:79-95 | With no line holding a token, the day's total keeps its initial value |
| Text.Trim | src/periodic/Task.ts:165 | The result is a slice of the input with no JavaScript white space at either end |
| Text.SplitJoin | src/para/Project.ts:84 | Splitting joined lines that hold no separator gives the lines back |

## Left out

- Calendar arithmetic is left out. Days are integers stepped by one, and each day's note comes from a map keyed by day. The `moment` formatting of `YYYY-MM-DD.md` links and the parsing of the `from`/`to` strings are not modelled.
- Task dates are `(year, month, day)` triples. An impossible calendar date compares false against any bound, as `moment` comparisons with an invalid date do. The `!targetDate` guard never fires (a `moment` object is truthy), so it is not modelled.
- Project.Filter: requires `from <= to`. The source's `while (true)` loop stops only when the day string equals `to`, so it never stops when `from` is later.
- `Promise.all` is left out. The per-note closures are modelled as running one after another in day or quarter order. In the plugin, completion order (and with it first-seen order and the non-associative total) depends on I/O timing.
- Project.TimePercent: the two-decimal percentage (a float division with `toFixed(2)`, unguarded against a zero total) is a function parameter. Only the empty-operand guards and the `%` suffix are modelled.
- The `Notice` raised by `list` for a sub-folder without a README, and all rendering, are left out. This covers `MarkdownRenderer`, `renderError`, Dataview's `taskList`, and composing and running the Dataview `TASK` query around the `where` clause.
- `doneListByTime`, `recordListByTime`, `src/main.ts` and the period resolution in `src/periodic/Date.ts` are not part of this model.
- The header is placed in the section pattern literally. A header holding regular-expression metacharacters would change the pattern in the source; the model does not capture that.
- Strings are sequences of characters. JavaScript's UTF-16 code units (in `text.length > 1` and in `.`, which matches one code unit) are not distinguished from code points.
- Hours and minutes are unbounded naturals. JavaScript `Number` loses precision above 2^53; that is not modelled.
- `fileToLinktext` (the link text for a README) is a function parameter.
- Link resolution (`getFirstLinkpathDest`, File.ts:104) is abstracted as a map lookup from link text to note (`File.Resolve`). Obsidian's shortest-path matching of link text against vault paths is not modelled.
- The front-matter `tags` field is absent, a string, or a list of strings. Other YAML value types are not modelled.
