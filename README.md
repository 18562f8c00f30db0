# Toggl → Notion daily summary, modelled in Dafny

This project models the core of a small service. The service reads the
day's Toggl time entries and summarises them per project. It writes the
summary into a Notion journal page as a heading and a three-column table.
It also keeps the journal's "Tasks" relation up to date, and appends
free-text bullets with a bookmark, embed or video.

The model has eight modules: five that define the operations and three
that hold the lemmas about them.

- `Wrappers`: `Option` and `Result`.
- `Grouping`: grouping by key in first-seen order, the way a JavaScript
  `Map` filled in a loop groups its values. It also proves that the group
  sums add up to the total.
- `Digits`: decimal rendering and parsing, two-digit padding, `join` and the `split` that undoes it.
- `Toggl`: `app/api/toggl/client.ts`. This covers the JST day window,
  project naming, `summarizeByProject` (a loop over a map plus an
  insertion-order list, proved equal to a grouping specification),
  `formatTime` and `formatDuration`. `TogglProperties` and
  `TogglFormatProperties` hold the lemmas: one summary per name in
  first-seen order, contents, totals, and formatter round trips.
- `Notion`: the pure parts of `app/api/notion/client.ts`, listed below.
  `NotionProperties` holds their lemmas.
  - The task-relation merge of `updateJournalTasks`, as a loop.
  - `findProjectPages`, as a fold over the names.
  - The heading, time range, table and per-description merge of
    `appendTogglSummaryToPage`. The merge is a loop.
  - The rich-text and children assembly of `appendTextToPage`, also as a
    loop.

Instants are integer milliseconds since the epoch. Durations and seconds
are naturals once running entries are dropped. Each network call becomes
an input:
- `getProjects` is a function from a workspace id to a project list.
- The Notion title query is a function from a project name to a
  `QueryResult`.
- Each Notion write is replaced by the payload the operation would send.

## Model

| member | source | states |
|---|---|---|
| Toggl.TodayWindow | app/api/toggl/client.ts:50-58 | the window lasts exactly 24 hours, starts at a JST midnight, and contains the current instant |
| Toggl.TodayWindowUnique | app/api/toggl/client.ts:50-58 | no other JST midnight start has the current instant inside its 24-hour window |
| Toggl.ProjectMapOf | app/api/toggl/client.ts:83 | every key maps to the name of a listed project with that id; `ProjectMapOfKeys` and `ProjectMapOfLastWins` give the keys and which name wins |
| Toggl.ProjectMapOfKeys | app/api/toggl/client.ts:83 | every listed project id is a key, and every key is a listed id |
| Toggl.ProjectMapOfLastWins | app/api/toggl/client.ts:83 | an id maps to the name of its last occurrence in the list |
| Toggl.ProjectName | app/api/toggl/client.ts:91-93 | a null or 0 project id gives "No Project"; a known id gives the mapped name; an unknown id gives "Unknown" |
| Toggl.RecordOf | app/api/toggl/client.ts:105-110 | a record keeps the entry's seconds, start and stop; its description is the entry's own when that is non-empty and "(no description)" when it is empty, so it is never empty |
| Toggl.Kept | app/api/toggl/client.ts:89 | an entry is kept exactly when it is in the input and its duration is not negative |
| Toggl.OfProject | app/api/toggl/client.ts:87-101 | the entries of a project are exactly the non-running input entries whose resolved name is that project |
| Toggl.RecordsOfEntries | app/api/toggl/client.ts:105-110 | one record per entry, in order |
| Toggl.SummarizeByProject | app/api/toggl/client.ts:75-114 | an empty entry list gives no summaries; otherwise the loop's result equals the grouping specification `Summaries` over the first entry's workspace projects |
| Toggl.AppendRunning | app/api/toggl/client.ts:89 | a running entry adds no name and no record |
| Toggl.AppendKept | app/api/toggl/client.ts:91-110 | a non-running entry adds its resolved name and its record at the end |
| Toggl.SummaryForSnoc | app/api/toggl/client.ts:103-110 | adding an entry to a project adds its seconds to that project's total and its record to that project's list, and leaves other projects alone |
| Toggl.NameInserted | app/api/toggl/client.ts:95-101 | inserting an empty summary for an unseen name keeps the map in step with the insertion order |
| Toggl.RecordAdded | app/api/toggl/client.ts:103-110 | updating the name's summary keeps every summary equal to its specification |
| Toggl.FormatTime | app/api/toggl/client.ts:119-124 | the result is five characters with ':' in the middle |
| Toggl.FormatDuration | app/api/toggl/client.ts:129-136 | the result ends in 'm' and contains 'h' exactly when there is at least one whole hour |
| TogglProperties.ResolvedNamesMembers | app/api/toggl/client.ts:87-93 | a name occurs among the resolved names exactly when some non-running entry resolves to it |
| TogglProperties.SummaryNames | app/api/toggl/client.ts:95-113 | the summaries' names are the resolved names in first-seen order |
| TogglProperties.SummariesDistinct | app/api/toggl/client.ts:95-101 | no two summaries share a project name |
| TogglProperties.SummaryNamesSound | app/api/toggl/client.ts:87-101 | every summary names the project of some non-running entry |
| TogglProperties.SummaryNamesComplete | app/api/toggl/client.ts:87-101 | every non-running entry's project has a summary |
| TogglProperties.SummariesInFirstSeenOrder | app/api/toggl/client.ts:95-113 | summaries appear in the order of their project's first non-running entry |
| TogglProperties.SelectRecords | app/api/toggl/client.ts:103-110 | the records grouped under a name are the records of that project's entries, in encounter order |
| TogglProperties.SelectSeconds | app/api/toggl/client.ts:104 | selecting seconds by name equals taking the seconds of the selected records |
| TogglProperties.SummaryContents | app/api/toggl/client.ts:103-110 | each summary lists exactly its project's non-running entries as records, and its total is the sum of their seconds |
| TogglProperties.SummaryRecordsNotRunning | app/api/toggl/client.ts:89-110 | every listed record comes from an input entry with a non-negative duration |
| Toggl.TotalSeconds | app/api/notion/client.ts:174 | no summary's total exceeds the day's total; `TotalSecondsIsSum` and `SummariesTotal` give its value |
| TogglProperties.TotalSecondsIsSum | app/api/notion/client.ts:174 | the `reduce` total is the sum of the summaries' totals |
| TogglProperties.RecordSecondsTotal | app/api/toggl/client.ts:87-110 | the seconds of all records add up to the durations of the non-running entries |
| TogglProperties.SummariesTotal | app/api/toggl/client.ts:87-114 | the summaries' totals add up to the durations of the non-running entries, so running timers count nowhere |
| TogglFormatProperties.FormatDurationRoundTrip | app/api/toggl/client.ts:129-136 | parsing the rendered duration gives back the whole hours and the remaining whole minutes |
| TogglFormatProperties.FormatDurationSameMinutes | app/api/toggl/client.ts:129-136 | two durations render the same exactly when they have the same number of whole minutes |
| TogglFormatProperties.FormatDurationExamples | app/api/toggl/client.ts:129-136 | 0 gives "0m", 59 gives "0m", 60 gives "1m" and 1500 gives "25m" |
| TogglFormatProperties.FormatDurationFortyMinutes | app/api/toggl/client.ts:129-136 | 2400 gives "40m" |
| TogglFormatProperties.FormatDurationHourExamples | app/api/toggl/client.ts:129-136 | 3600 gives "1h 0m" and 3725 gives "1h 2m" |
| TogglFormatProperties.ParseHoursAndMinutes | app/api/toggl/client.ts:133 | the "Hh Mm" form parses back to its two numbers |
| TogglFormatProperties.ParseMinutesOnly | app/api/toggl/client.ts:135 | the "Mm" form parses back to zero hours and its minutes |
| TogglFormatProperties.FormatTimeIsJstClock | app/api/toggl/client.ts:119-124 | the rendered time parses as hours below 24 and minutes below 60, and these are the time of day of the instant shifted by nine hours |
| TogglFormatProperties.TodayWindowStartsAtMidnight | app/api/toggl/client.ts:50-58 | the day window's start renders as "00:00" |
| Grouping.FirstSeen | app/api/toggl/client.ts:95-101 | the distinct keys, with the same members as the input |
| Grouping.FirstSeenOrder | app/api/toggl/client.ts:95-113 | distinct keys follow the order of their first occurrence |
| Grouping.GroupSums | app/api/toggl/client.ts:104 | one sum per key, each the sum of the values under that key |
| Grouping.GroupSumsTotal | app/api/toggl/client.ts:104 | the per-key sums over the distinct keys add up to the sum of all values |
| Digits.DecimalRoundTrip | app/api/toggl/client.ts:133-135 | parsing a number's decimal rendering gives the number back |
| Digits.Pad2 | app/api/toggl/client.ts:123 | `padStart(2, "0")` of a number below 100 is two digits that parse back to it |
| Notion.CombineTaskIds | app/api/notion/client.ts:93-100 | the `forEach`/`push` loop computes `AppendNew` of the existing ids and the new ids |
| Notion.UpdateJournalTasks | app/api/notion/client.ts:78-103 | the update fails with "Journal does not have a Tasks relation property" exactly when "Tasks" is missing or not a relation; otherwise the new relation is the merge of the existing ids with the task ids |
| NotionProperties.AppendNewKeepsExisting | app/api/notion/client.ts:93 | the existing ids come first, unchanged and in order |
| NotionProperties.AppendNewMembers | app/api/notion/client.ts:96-100 | an id is in the result exactly when it was already related or is among the new ids |
| NotionProperties.AppendNewAddsOnlyFresh | app/api/notion/client.ts:97-98 | every appended id differs from all ids before it, so no id is added twice and none repeats an existing one |
| NotionProperties.AppendNewAllPresent | app/api/notion/client.ts:97 | adding ids that are all present changes nothing |
| NotionProperties.AppendNewIdempotent | app/api/notion/client.ts:93-100 | running the merge again with the same tasks gives the same relation |
| NotionProperties.AppendNewIsFirstSeen | app/api/notion/client.ts:93-100 | with distinct existing ids, the result is the first occurrences of the existing ids followed by the new ids |
| NotionProperties.UpdateJournalTasksSpec | app/api/notion/client.ts:87-103 | the relation keeps its ids first, contains every task's id, and holds nothing else |
| Notion.QueriedNames | app/api/notion/client.ts:137-145 | a query is issued exactly for the given names other than "No Project" and "Unknown", and none at all without a project database |
| Notion.PagesFound | app/api/notion/client.ts:141-160 | a name is mapped exactly when it is not a sentinel and its query returned a page, and then to the id of the first page |
| Notion.ProjectPages | app/api/notion/client.ts:134-165 | the map is empty without a project database; keys are given non-sentinel names whose query found a page, mapped to the first page's id; with a database every such name is a key |
| NotionProperties.ProjectPagesUsesOnlyQueried | app/api/notion/client.ts:137-160 | the page map depends only on the answers for the queried names, so the sentinels are never looked up |
| NotionProperties.FailedLookupOnlyDropsName | app/api/notion/client.ts:146-159 | a failing query removes only its own name from the map |
| Notion.AllEntries | app/api/notion/client.ts:182 | every flattened entry belongs to some summary; `AllEntriesMembers` gives the converse |
| Notion.TimeRange | app/api/notion/client.ts:182-187 | the range is empty or 12 characters long; `TimeRangeShown` says when it is shown and `TimeRangeBounds` what it shows |
| Notion.HeadingText | app/api/notion/client.ts:237 | the heading starts with "⏱ Toggl (", and ends with the duration's final 'm', then ')', then the time range; `HeadingShowsDayTotal` gives the duration shown |
| Notion.ProjectCell | app/api/notion/client.ts:204-206 | one rich-text item: a page mention of the mapped id exactly when the name is mapped to a non-empty id, and the name as plain text otherwise; `ProjectCellFromLookup` ties it to the queries |
| Notion.DetailLine | app/api/notion/client.ts:215 | a line is "• ", then the description, then " (", then `FormatDuration` of its seconds, then ")" |
| Notion.DetailsText | app/api/notion/client.ts:214-216 | the details are empty exactly when the project has no entries; `MergedDescriptionsSpec`, `MergedTotal` and `ReviewPrExample` give the merged lines |
| Digits.Join | app/api/notion/client.ts:216 | joining no lines gives ""; otherwise the result is at least as long as its last line; `JoinSplit` gives its content |
| Digits.JoinSplit | app/api/notion/client.ts:214-216 | splitting the joined text on a one-character separator that no line contains gives back every line, in order |
| NotionProperties.DetailsTextLines | app/api/notion/client.ts:214-216 | when no description contains a line break, the details cell splits on "\n" into exactly the merged detail lines, in first-seen order |
| NotionProperties.DetailLineHasNoLineBreak | app/api/notion/client.ts:215 | a detail line contains a line break only if its description does, since a rendered duration never does |
| Notion.MediaBlocks | app/api/notion/client.ts:305-339 | at most three blocks, each a bookmark, embed or video; `MediaBlocksSpec` gives which ones and their order |
| Notion.Stops | app/api/notion/client.ts:184 | the stop instants are exactly those of the entries that have a stop |
| Notion.Min | app/api/notion/client.ts:185 | `Math.min` of a non-empty list is a member no larger than any member |
| Notion.Max | app/api/notion/client.ts:186 | `Math.max` of a non-empty list is a member no smaller than any member |
| NotionProperties.AllEntriesMembers | app/api/notion/client.ts:182 | the flattened entries are exactly the entries of some summary |
| NotionProperties.TimeRangeShown | app/api/notion/client.ts:182-187 | the time range is non-empty exactly when some entry has a stop |
| NotionProperties.TimeRangeBounds | app/api/notion/client.ts:182-187 | when some entry has a stop, the time range is " " + the earliest start + "-" + the latest stop, as JST clock times (`SpansEntries`: both bounds are attained by entries and are the extremes) |
| NotionProperties.TimeRangeText | app/api/notion/client.ts:183-187 | with a stop present there is a start too, and the range is the formatted `Math.min` of the starts and `Math.max` of the stops |
| NotionProperties.MinMaxSpan | app/api/notion/client.ts:183-186 | the minimum start and the maximum stop are attained by entries and bound all of them |
| NotionProperties.HeadingShowsDayTotal | app/api/notion/client.ts:174-237 | for the day's summaries, the heading shows the duration of all non-running entries, then the time range |
| NotionProperties.EmptyDayBlocks | app/api/notion/client.ts:174-250 | with no summaries, the heading is "⏱ Toggl (0m)" and the table holds only the header row |
| Notion.TogglSummaryChildren | app/api/notion/client.ts:231-251 | the children are a heading and then a table 3 wide with a column header and no row header, whose header row is followed by one row per summary |
| NotionProperties.TogglSummaryChildrenRow | app/api/notion/client.ts:170-251 | in the children sent for the day, the heading carries the day's heading text, and row i + 1 holds summary i's project cell (a mention of the first page found by its name's query when that id is non-empty, plain text otherwise), its formatted total and its details |
| NotionProperties.SummaryTableRow | app/api/notion/client.ts:202-229 | row i + 1 has exactly three cells for summary i: its project cell, its formatted total and its details, so rows follow summary order |
| NotionProperties.ProjectCellFromLookup | app/api/notion/client.ts:203-206 | the project cell is a mention of the first page found when that id is non-empty, and plain text of the name otherwise (always for sentinels or without a database) |
| Notion.MergeByDescription | app/api/notion/client.ts:209-213 | the `Map` loop computes the first-seen description merge `MergedEntries` |
| Notion.MergeStep | app/api/notion/client.ts:211-212 | one `set(key, (get(key) ?? 0) + seconds)` keeps the key order and per-key sums |
| NotionProperties.MergedDescriptionsSpec | app/api/notion/client.ts:209-216 | one merged line per distinct description, and every entry's description has one |
| NotionProperties.MergedInFirstSeenOrder | app/api/notion/client.ts:209-216 | merged lines follow the first occurrence of their description |
| NotionProperties.MergedTotal | app/api/notion/client.ts:209-213 | merging loses no time: the merged seconds add up to the entries' seconds |
| NotionProperties.DetailsAddUpToRowTime | app/api/notion/client.ts:209-226 | in each row of the day's table, the detail seconds add up to the row's total |
| NotionProperties.MergedSameDescription | app/api/notion/client.ts:209-213 | two entries with the same description merge into one line with their combined seconds |
| NotionProperties.ReviewPrExample | app/api/notion/client.ts:209-216 | "Review PR" entries of 600 and 900 seconds give the single line "• Review PR (25m)" |
| Notion.BuildRichText | app/api/notion/client.ts:291-302 | the push loop computes `Interleaved` of the segments and links |
| NotionProperties.InterleavedSpec | app/api/notion/client.ts:291-302 | the rich text has one item per segment plus one per segment with a link; segment i sits after i segments and min(i, links) links; link i directly follows segment i |
| Notion.AppendTextBlock | app/api/notion/client.ts:259-354 | the single bulleted item carries the interleaved rich text only when the text is truthy, with the media blocks as its children |
| NotionProperties.MediaBlocksSpec | app/api/notion/client.ts:305-339 | children come in the order bookmark, embed, video; each is present exactly when its option is set and, for embed and video, non-empty; a missing caption becomes ""; nothing else is in the list, and its length is the number of options given |

## Left out

- Network I/O is not modelled: `togglFetch`, `getProjects` and every Notion query, update and append. Their results are inputs, and the payloads are outputs.
- `getAuthHeader` is not modelled. It reads the environment and calls `Buffer` base64 encoding.
- `getLatestJournalPage` and `getTodayTasks` are not modelled. They are Notion queries.
- The concurrent `Promise.all` in `findProjectPages` is modelled as a sequential fold. The lookup is a function of the name alone, so the order of the writes does not matter.
- ISO `Date` parsing and printing are not modelled; instants are milliseconds.
- Toggl.TodayWindow: the yyyy-mm-dd string and its re-parse as `T00:00:00+09:00` are modelled as a floor to the JST day, which is what the round trip computes. The civil calendar is not modelled.
- The URL regex, the `<URL>` placeholder split and the emoji table lookup in `appendTextToPage` are not modelled. The text segments and URLs are inputs (`TextSplit`).
- Negative, fractional, NaN and very large numbers are not modelled. Seconds are naturals and instants are integers.
- A JavaScript entry's `stop` is a string, so it is falsy when empty. The model has it as an optional instant.
- `summarizeByProject` mutates a summary object inside the map. The model replaces the map's value with the updated summary.
- The route files are not part of this model. They are HTTP glue around these operations.
- NotionProperties.DetailsTextLines: a description that itself contains a line break is not covered, because the cell's text then cannot be split back into its lines.
- Notion.AppendNew: its own contract only states that the result is no shorter than the existing list. Its meaning is proved in the `NotionProperties.AppendNew*` lemmas.
