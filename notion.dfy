/** The Notion side (app/api/notion/client.ts): the journal's task-relation
    merge, the project-page lookup, the Toggl summary fragment (heading and
    table) and the text/media block. Every Notion API call is left to the
    caller: lookups arrive as a function from a project name to what the query
    returned, and each operation returns the payload the source sends. */
module Notion {

  import opened Wrappers
  import opened Grouping
  import opened Digits
  import opened Toggl

  // ---------------------------------------------------------------------------
  // Blocks, as far as this code builds them

  datatype RichText =
    | Text(content: string)
    | Link(content: string, url: string)
    | PageMention(pageId: string)

  datatype TableRow = TableRow(cells: seq<seq<RichText>>)

  datatype Block =
    | Heading3(richText: seq<RichText>)
    | Table(tableWidth: nat, hasColumnHeader: bool, hasRowHeader: bool, rows: seq<TableRow>)
    | Bookmark(url: string, caption: seq<RichText>)
    | Embed(url: string)
    | ExternalVideo(url: string)
    | BulletedListItem(richText: seq<RichText>, children: seq<Block>)

  // ---------------------------------------------------------------------------
  // updateJournalTasks

  datatype PropertyValue = RelationProperty(ids: seq<string>) | OtherProperty(kind: string)

  datatype Page = Page(id: string, properties: map<string, PropertyValue>)

  const TasksProperty: string := "Tasks"
  const NoTasksRelation: string := "Journal does not have a Tasks relation property"

  /** `acc` followed by each element of `ids` that is not yet present, in order. */
  function AppendNew<T(==)>(acc: seq<T>, ids: seq<T>): (r: seq<T>)
    ensures |acc| <= |r|
  {
    if ids == [] then acc
    else
      var prior := AppendNew(acc, ids[..|ids| - 1]);
      var id := ids[|ids| - 1];
      if id in prior then prior else prior + [id]
  }

  function PageIds(pages: seq<Page>): (ids: seq<string>)
    ensures |ids| == |pages|
  {
    seq(|pages|, i requires 0 <= i < |pages| => pages[i].id)
  }

  /** The `forEach`/`push` loop that appends each new task id not yet present. */
  method CombineTaskIds(existingTaskIds: seq<string>, newTaskIds: seq<string>) returns (combined: seq<string>)
    ensures combined == AppendNew(existingTaskIds, newTaskIds)
  {
    combined := existingTaskIds;
    for i := 0 to |newTaskIds|
      invariant combined == AppendNew(existingTaskIds, newTaskIds[..i])
    {
      var id := newTaskIds[i];
      assert newTaskIds[..i + 1][..i] == newTaskIds[..i];
      if id !in combined {
        combined := combined + [id];
      }
    }
    assert newTaskIds[..|newTaskIds|] == newTaskIds;
  }

  /** The relation ids the journal's "Tasks" property is set to, or the error
      thrown when that property is missing or is not a relation. */
  method UpdateJournalTasks(journal: Page, tasksToAdd: seq<Page>) returns (r: Result<seq<string>, string>)
    ensures r.Failure? <==>
      TasksProperty !in journal.properties || !journal.properties[TasksProperty].RelationProperty?
    ensures r.Failure? ==> r.error == NoTasksRelation
    ensures r.Success? ==>
      r.value == AppendNew(journal.properties[TasksProperty].ids, PageIds(tasksToAdd))
  {
    if TasksProperty !in journal.properties || !journal.properties[TasksProperty].RelationProperty? {
      return Failure(NoTasksRelation);
    }
    var existingTaskIds := journal.properties[TasksProperty].ids;
    var newTaskIds := PageIds(tasksToAdd);
    var combinedTaskIds := CombineTaskIds(existingTaskIds, newTaskIds);
    r := Success(combinedTaskIds);
  }

  // ---------------------------------------------------------------------------
  // findProjectPages

  /** What the title query for one project name returned. */
  datatype QueryResult = QueryResults(pageIds: seq<string>) | QueryFailed

  /** The two fallback names of `summarizeByProject`, never looked up. */
  predicate IsSentinel(name: string) {
    name == NoProject || name == UnknownProject
  }

  /** The names a query is issued for. */
  function QueriedNames(names: seq<string>, databaseConfigured: bool): (queried: seq<string>)
    ensures forall n :: n in queried <==> databaseConfigured && n in names && !IsSentinel(n)
  {
    if !databaseConfigured || names == [] then []
    else
      var rest := QueriedNames(names[..|names| - 1], databaseConfigured);
      var n := names[|names| - 1];
      assert forall x :: x in names <==> x in names[..|names| - 1] || x == n;
      if IsSentinel(n) then rest else rest + [n]
  }

  /** The lookup found a page for `name`: the query succeeded with a result. */
  predicate Found(lookup: string -> QueryResult, name: string) {
    lookup(name).QueryResults? && |lookup(name).pageIds| > 0
  }

  /** The fan-out over names, taken one name at a time: a name gets the id of the
      first page its query returned; a failed or empty query leaves it out. */
  function PagesFound(names: seq<string>, lookup: string -> QueryResult): (pages: map<string, string>)
    ensures forall n :: n in pages ==>
      n in names && !IsSentinel(n) && Found(lookup, n) && pages[n] == lookup(n).pageIds[0]
    ensures forall n :: n in names && !IsSentinel(n) && Found(lookup, n) ==> n in pages
  {
    if names == [] then map[]
    else
      var pages := PagesFound(names[..|names| - 1], lookup);
      var name := names[|names| - 1];
      assert forall x :: x in names <==> x in names[..|names| - 1] || x == name;
      if IsSentinel(name) then pages
      else
        match lookup(name)
        case QueryFailed => pages
        case QueryResults(ids) => if |ids| > 0 then pages[name := ids[0]] else pages
  }

  /** `findProjectPages`: an empty map when no project database is configured. */
  function ProjectPages(names: seq<string>, databaseConfigured: bool, lookup: string -> QueryResult): (pages: map<string, string>)
    ensures !databaseConfigured ==> pages == map[]
    ensures forall n :: n in pages ==>
      n in names && !IsSentinel(n) && Found(lookup, n) && pages[n] == lookup(n).pageIds[0]
    ensures databaseConfigured ==>
      forall n :: n in names && !IsSentinel(n) && Found(lookup, n) ==> n in pages
  {
    if !databaseConfigured then map[] else PagesFound(names, lookup)
  }

  // ---------------------------------------------------------------------------
  // appendTogglSummaryToPage: heading

  /** `summaries.flatMap(s => s.entries)`. */
  function AllEntries(summaries: seq<ProjectSummary>): (all: seq<EntryRecord>)
    ensures forall e :: e in all ==> exists i :: 0 <= i < |summaries| && e in summaries[i].entries
  {
    if summaries == [] then []
    else AllEntries(summaries[..|summaries| - 1]) + summaries[|summaries| - 1].entries
  }

  function Starts(entries: seq<EntryRecord>): (starts: seq<int>)
    ensures |starts| == |entries|
  {
    seq(|entries|, i requires 0 <= i < |entries| => entries[i].start)
  }

  /** The stop instants of the entries that have one, in order. */
  function Stops(entries: seq<EntryRecord>): (stops: seq<int>)
    ensures |stops| <= |entries|
    ensures forall t :: t in stops <==> exists e :: e in entries && e.stop == Some(t)
  {
    if entries == [] then []
    else
      var e := entries[|entries| - 1];
      var rest := Stops(entries[..|entries| - 1]);
      assert forall x :: x in entries <==> x in entries[..|entries| - 1] || x == e;
      match e.stop
      case None => rest
      case Some(t) => rest + [t]
  }

  /** `Math.min(...xs)` on a non-empty list. */
  function Min(xs: seq<int>): (m: int)
    requires |xs| > 0
    ensures m in xs && forall x :: x in xs ==> m <= x
  {
    if |xs| == 1 then xs[0]
    else
      var rest := Min(xs[..|xs| - 1]);
      assert forall x :: x in xs <==> x in xs[..|xs| - 1] || x == xs[|xs| - 1];
      if xs[|xs| - 1] < rest then xs[|xs| - 1] else rest
  }

  /** `Math.max(...xs)` on a non-empty list. */
  function Max(xs: seq<int>): (m: int)
    requires |xs| > 0
    ensures m in xs && forall x :: x in xs ==> x <= m
  {
    if |xs| == 1 then xs[0]
    else
      var rest := Max(xs[..|xs| - 1]);
      assert forall x :: x in xs <==> x in xs[..|xs| - 1] || x == xs[|xs| - 1];
      if xs[|xs| - 1] > rest then xs[|xs| - 1] else rest
  }

  /** " HH:MM-HH:MM" from the earliest start to the latest stop, or "" when a
      bound is missing (an empty string is falsy). */
  function TimeRange(summaries: seq<ProjectSummary>): (range: string)
    ensures |range| == 0 || |range| == 12
  {
    var all := AllEntries(summaries);
    var starts := Starts(all);
    var stops := Stops(all);
    var overallStart := if |starts| > 0 then FormatTime(Min(starts)) else "";
    var overallEnd := if |stops| > 0 then FormatTime(Max(stops)) else "";
    if overallStart != "" && overallEnd != "" then " " + overallStart + "-" + overallEnd else ""
  }

  const HeadingPrefix: string := "\U{23F1} Toggl ("

  function HeadingText(summaries: seq<ProjectSummary>): (text: string)
    ensures |text| >= |HeadingPrefix| + 2 + |TimeRange(summaries)|
    ensures text[..|HeadingPrefix|] == HeadingPrefix
    ensures text[|text| - |TimeRange(summaries)| - 2] == 'm' && text[|text| - |TimeRange(summaries)| - 1] == ')'
    ensures text[|text| - |TimeRange(summaries)|..] == TimeRange(summaries)
  {
    var duration, range := FormatDuration(TotalSeconds(summaries)), TimeRange(summaries);
    var text := (HeadingPrefix + duration) + ([')'] + range);
    assert text[|HeadingPrefix + duration| - 1] == duration[|duration| - 1];
    text
  }

  // ---------------------------------------------------------------------------
  // appendTogglSummaryToPage: table

  function HeaderRow(): TableRow {
    TableRow([[Text("Project")], [Text("Time")], [Text("Details")]])
  }

  /** A page mention when the name resolved to a (truthy) page id, else its text. */
  function ProjectCell(name: string, projectPages: map<string, string>): (cell: seq<RichText>)
    ensures |cell| == 1
    ensures cell[0].PageMention? <==> name in projectPages && projectPages[name] != ""
    ensures cell[0].PageMention? ==> cell[0].pageId == projectPages[name]
    ensures !cell[0].PageMention? ==> cell[0] == Text(name)
  {
    if name in projectPages && projectPages[name] != "" then [PageMention(projectPages[name])]
    else [Text(name)]
  }

  function Descriptions(entries: seq<EntryRecord>): (descs: seq<string>)
    ensures |descs| == |entries|
  {
    seq(|entries|, i requires 0 <= i < |entries| => entries[i].description)
  }

  /** The entries merged by exact description: one (description, seconds) pair
      per distinct description, in order of first occurrence. */
  function MergedEntries(entries: seq<EntryRecord>): seq<(string, nat)> {
    var descs := Descriptions(entries);
    var secs := SecondsOf(entries);
    var order := FirstSeen(descs);
    seq(|order|, i requires 0 <= i < |order| => (order[i], Sum(Select(descs, secs, order[i]))))
  }

  /** The loop state: `order` lists the keys of `merged` by first insertion and
      each key maps to the seconds of its description so far. */
  ghost predicate MergedSoFar(descs: seq<string>, secs: seq<nat>, order: seq<string>, merged: map<string, nat>)
    requires |descs| == |secs|
  {
    && order == FirstSeen(descs)
    && (forall d :: d in merged <==> d in order)
    && (forall d :: d in merged ==> merged[d] == Sum(Select(descs, secs, d)))
  }

  lemma MergeStep(descs: seq<string>, secs: seq<nat>, order: seq<string>, merged: map<string, nat>, d: string, s: nat)
    requires |descs| == |secs|
    requires MergedSoFar(descs, secs, order, merged)
    ensures MergedSoFar(descs + [d], secs + [s],
      if d in merged then order else order + [d],
      merged[d := (if d in merged then merged[d] else 0) + s])
  {
    assert (descs + [d])[..|descs|] == descs;
    if d !in merged {
      SelectAbsent(descs, secs, d);
    }
    forall d' | d' in merged[d := (if d in merged then merged[d] else 0) + s]
      ensures merged[d := (if d in merged then merged[d] else 0) + s][d'] == Sum(Select(descs + [d], secs + [s], d'))
    {
      SelectSnoc(descs, secs, d, s, d');
      SumAppend(Select(descs, secs, d'), [s]);
    }
  }

  /** The descriptions and seconds of a prefix one entry longer. */
  lemma EntrySnoc(entries: seq<EntryRecord>, i: nat)
    requires i < |entries|
    ensures Descriptions(entries[..i + 1]) == Descriptions(entries[..i]) + [entries[i].description]
    ensures SecondsOf(entries[..i + 1]) == SecondsOf(entries[..i]) + [entries[i].seconds]
  {
    assert entries[..i + 1] == entries[..i] + [entries[i]];
  }

  /** `Array.from(mergedEntries.entries())`: the pairs in key-insertion order. */
  function MapEntries(order: seq<string>, merged: map<string, nat>): seq<(string, nat)>
    requires forall d :: d in order ==> d in merged
  {
    seq(|order|, j requires 0 <= j < |order| => (order[j], merged[order[j]]))
  }

  /** Once every entry is merged, the map's entries are `MergedEntries`. */
  lemma MergedAtEnd(entries: seq<EntryRecord>, order: seq<string>, merged: map<string, nat>)
    requires MergedSoFar(Descriptions(entries), SecondsOf(entries), order, merged)
    ensures forall d :: d in order ==> d in merged
    ensures MapEntries(order, merged) == MergedEntries(entries)
  {
  }

  /** The `mergedEntries` loop: `set(key, (get(key) ?? 0) + seconds)`; a JavaScript
      `Map` keeps a key at the position of its first insertion. */
  method MergeByDescription(entries: seq<EntryRecord>) returns (merged: seq<(string, nat)>)
    ensures merged == MergedEntries(entries)
  {
    var order: seq<string> := [];
    var mergedEntries: map<string, nat> := map[];
    for i := 0 to |entries|
      invariant MergedSoFar(Descriptions(entries[..i]), SecondsOf(entries[..i]), order, mergedEntries)
    {
      var entry := entries[i];
      var key := entry.description;
      MergeStep(Descriptions(entries[..i]), SecondsOf(entries[..i]), order, mergedEntries, key, entry.seconds);
      if key !in mergedEntries {
        order := order + [key];
      }
      mergedEntries := mergedEntries[key := (if key in mergedEntries then mergedEntries[key] else 0) + entry.seconds];
      EntrySnoc(entries, i);
    }
    assert entries[..|entries|] == entries;
    MergedAtEnd(entries, order, mergedEntries);
    merged := MapEntries(order, mergedEntries);
  }

  /** One detail line: a bullet, the description and its duration in parentheses. */
  function DetailLine(description: string, seconds: nat): (line: string)
    ensures |line| >= |description| + 6
    ensures line[0] == '•' && line[1] == ' ' && line[2..|description| + 2] == description
    ensures line[|description| + 2] == ' ' && line[|description| + 3] == '('
    ensures line[|description| + 4..|line| - 1] == FormatDuration(seconds)
    ensures line[|line| - 2] == 'm' && line[|line| - 1] == ')'
  {
    var duration := FormatDuration(seconds);
    var line := ("• " + description) + (" (" + duration + ")");
    assert line[|line| - 2] == duration[|duration| - 1];
    assert line[|description| + 4..|line| - 1] == duration;
    line
  }

  function DetailLines(merged: seq<(string, nat)>): (lines: seq<string>)
    ensures |lines| == |merged|
  {
    seq(|merged|, i requires 0 <= i < |merged| => DetailLine(merged[i].0, merged[i].1))
  }

  function DetailsText(entries: seq<EntryRecord>): (text: string)
    ensures text == "" <==> entries == []
  {
    var merged := MergedEntries(entries);
    var lines := DetailLines(merged);
    if entries == [] then
      assert lines == [];
      Join(lines, "\n")
    else
      assert Descriptions(entries)[0] in FirstSeen(Descriptions(entries));
      Join(lines, "\n")
  }

  function DataRow(summary: ProjectSummary, projectPages: map<string, string>): TableRow {
    TableRow([
      ProjectCell(summary.projectName, projectPages),
      [Text(FormatDuration(summary.totalSeconds))],
      [Text(DetailsText(summary.entries))]])
  }

  function DataRows(summaries: seq<ProjectSummary>, projectPages: map<string, string>): (rows: seq<TableRow>)
    ensures |rows| == |summaries|
  {
    seq(|summaries|, i requires 0 <= i < |summaries| => DataRow(summaries[i], projectPages))
  }

  /** The three-column table with a column header row. */
  function SummaryTable(summaries: seq<ProjectSummary>, projectPages: map<string, string>): Block {
    Table(3, true, false, [HeaderRow()] + DataRows(summaries, projectPages))
  }

  /** The heading and the table appended to the page, given the page map. */
  function SummaryBlocks(summaries: seq<ProjectSummary>, projectPages: map<string, string>): seq<Block> {
    [Heading3([Text(HeadingText(summaries))]), SummaryTable(summaries, projectPages)]
  }

  function ProjectNames(summaries: seq<ProjectSummary>): (names: seq<string>)
    ensures |names| == |summaries|
  {
    seq(|summaries|, i requires 0 <= i < |summaries| => summaries[i].projectName)
  }

  /** `appendTogglSummaryToPage` up to the append call: the children it sends,
      a heading and then a three-column table whose header row is followed by
      one row per summary. */
  function TogglSummaryChildren(summaries: seq<ProjectSummary>, databaseConfigured: bool,
                                lookup: string -> QueryResult): (blocks: seq<Block>)
    ensures |blocks| == 2 && blocks[0].Heading3? && blocks[1].Table?
    ensures blocks[1].tableWidth == 3 && blocks[1].hasColumnHeader && !blocks[1].hasRowHeader
    ensures |blocks[1].rows| == |summaries| + 1 && blocks[1].rows[0] == HeaderRow()
  {
    SummaryBlocks(summaries, ProjectPages(ProjectNames(summaries), databaseConfigured, lookup))
  }

  // ---------------------------------------------------------------------------
  // appendTextToPage

  datatype BookmarkInput = BookmarkInput(url: string, caption: Option<string>)

  datatype Input = Input(
    text: Option<string>,
    embed: Option<string>,
    video: Option<string>,
    bookmark: Option<BookmarkInput>)

  /** The text after emoji replacement, cut at its URLs: the pieces between the
      URLs and the URLs themselves. */
  datatype TextSplit = TextSplit(segments: seq<string>, urls: seq<string>)

  /** JavaScript truthiness of an optional string. */
  predicate Truthy(s: Option<string>) {
    s.Some? && s.value != ""
  }

  /** Segment i, then link i when there is one. */
  function Interleaved(segments: seq<string>, urls: seq<string>): seq<RichText> {
    if segments == [] then []
    else
      var i := |segments| - 1;
      Interleaved(segments[..i], urls) + [Text(segments[i])] + (if i < |urls| then [Link(urls[i], urls[i])] else [])
  }

  /** The `texts.forEach` loop that pushes each segment and, if present, its link. */
  method BuildRichText(segments: seq<string>, urls: seq<string>) returns (richText: seq<RichText>)
    ensures richText == Interleaved(segments, urls)
  {
    richText := [];
    for index := 0 to |segments|
      invariant richText == Interleaved(segments[..index], urls)
    {
      assert segments[..index + 1][..index] == segments[..index];
      richText := richText + [Text(segments[index])];
      if index < |urls| {
        richText := richText + [Link(urls[index], urls[index])];
      }
    }
    assert segments[..|segments|] == segments;
  }

  /** The position of a media block among the children; 3 for any other block. */
  function MediaRank(b: Block): nat {
    match b
    case Bookmark(_, _) => 0
    case Embed(_) => 1
    case ExternalVideo(_) => 2
    case _ => 3
  }

  /** Bookmark, embed and video blocks, each when its option is given. */
  function MediaBlocks(opts: Input): (m: seq<Block>)
    ensures |m| <= 3
    ensures forall i :: 0 <= i < |m| ==> MediaRank(m[i]) < 3
  {
    (match opts.bookmark
     case None => []
     case Some(b) => [Bookmark(b.url, [Text(if Truthy(b.caption) then b.caption.value else "")])])
    + (if Truthy(opts.embed) then [Embed(opts.embed.value)] else [])
    + (if Truthy(opts.video) then [ExternalVideo(opts.video.value)] else [])
  }

  /** `appendTextToPage` up to the append call: the one bulleted item it sends. */
  method AppendTextBlock(opts: Input, split: TextSplit) returns (item: Block)
    ensures item == BulletedListItem(
      if Truthy(opts.text) then Interleaved(split.segments, split.urls) else [],
      MediaBlocks(opts))
  {
    var richText: seq<RichText> := [];
    var children: seq<Block> := [];
    if Truthy(opts.text) {
      richText := BuildRichText(split.segments, split.urls);
    }
    if opts.bookmark.Some? {
      var caption := if Truthy(opts.bookmark.value.caption) then opts.bookmark.value.caption.value else "";
      children := children + [Bookmark(opts.bookmark.value.url, [Text(caption)])];
    }
    if Truthy(opts.embed) {
      children := children + [Embed(opts.embed.value)];
    }
    if Truthy(opts.video) {
      children := children + [ExternalVideo(opts.video.value)];
    }
    item := BulletedListItem(richText, children);
  }
}
