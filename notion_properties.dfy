/** What the Notion payloads promise: the task merge keeps the journal's tasks
    and adds each new one once, the page lookup only ever maps looked-up
    project names to the first page found, the summary table has one row per
    project with the right cells, merged details add up to the row's time, and
    the text block interleaves segments and links. */
module NotionProperties {

  import opened Wrappers
  import opened Grouping
  import opened Digits
  import opened Toggl
  import opened TogglProperties
  import opened TogglFormatProperties
  import opened Notion

  // ---------------------------------------------------------------------------
  // updateJournalTasks

  /** The journal's existing relation ids come first, unchanged. */
  lemma {:induction false} AppendNewKeepsExisting<T>(acc: seq<T>, ids: seq<T>)
    ensures AppendNew(acc, ids)[..|acc|] == acc
    decreases |ids|
  {
    if ids != [] {
      AppendNewKeepsExisting(acc, ids[..|ids| - 1]);
    }
  }

  /** An id is in the result exactly when it was already related or is added. */
  lemma {:induction false} AppendNewMembers<T>(acc: seq<T>, ids: seq<T>)
    ensures forall x :: x in AppendNew(acc, ids) <==> x in acc || x in ids
    decreases |ids|
  {
    if ids != [] {
      var init := ids[..|ids| - 1];
      AppendNewMembers(acc, init);
      assert forall x :: x in ids <==> x in init || x == ids[|ids| - 1];
    }
  }

  /** Every appended id is new: it differs from every id before it, so it is
      neither an existing id nor a repeat of another appended one. */
  lemma {:induction false} AppendNewAddsOnlyFresh<T>(acc: seq<T>, ids: seq<T>)
    ensures forall i, j :: 0 <= j < i < |AppendNew(acc, ids)| && |acc| <= i ==>
      AppendNew(acc, ids)[j] != AppendNew(acc, ids)[i]
    decreases |ids|
  {
    if ids != [] {
      var prior := AppendNew(acc, ids[..|ids| - 1]);
      AppendNewAddsOnlyFresh(acc, ids[..|ids| - 1]);
      assert forall i, j :: 0 <= j < i < |prior| && |acc| <= i ==> prior[j] != prior[i];
      var id := ids[|ids| - 1];
      var r := AppendNew(acc, ids);
      assert r == if id in prior then prior else prior + [id];
      if id !in prior {
        forall i, j | 0 <= j < i < |r| && |acc| <= i
          ensures r[j] != r[i]
        {
          assert r[j] == prior[j] && prior[j] in prior;
          if i < |prior| {
            assert r[i] == prior[i];
            assert prior[j] != prior[i];
          } else {
            assert r[i] == id;
          }
        }
      }
    }
  }

  /** Adding ids that are all already related changes nothing. */
  lemma {:induction false} AppendNewAllPresent<T>(acc: seq<T>, ids: seq<T>)
    requires forall x :: x in ids ==> x in acc
    ensures AppendNew(acc, ids) == acc
    decreases |ids|
  {
    if ids != [] {
      assert forall x :: x in ids[..|ids| - 1] ==> x in ids;
      AppendNewAllPresent(acc, ids[..|ids| - 1]);
      assert ids[|ids| - 1] in ids;
    }
  }

  /** Running the update twice with the same tasks gives the same relation. */
  lemma AppendNewIdempotent<T>(acc: seq<T>, ids: seq<T>)
    ensures AppendNew(AppendNew(acc, ids), ids) == AppendNew(acc, ids)
  {
    AppendNewMembers(acc, ids);
    AppendNewAllPresent(AppendNew(acc, ids), ids);
  }

  lemma {:induction false} FirstSeenOfDistinct<T(!new)>(s: seq<T>)
    requires Distinct(s)
    ensures FirstSeen(s) == s
    decreases |s|
  {
    if s != [] {
      var init := s[..|s| - 1];
      FirstSeenOfDistinct(init);
      assert s[|s| - 1] !in init;
      assert init + [s[|s| - 1]] == s;
    }
  }

  /** With no duplicates among the existing ids, the result is the existing
      ids followed by the new ones, each kept at its first occurrence. */
  lemma {:induction false} AppendNewIsFirstSeen<T(!new)>(acc: seq<T>, ids: seq<T>)
    requires Distinct(acc)
    ensures AppendNew(acc, ids) == FirstSeen(acc + ids)
    decreases |ids|
  {
    if ids == [] {
      assert acc + ids == acc;
      FirstSeenOfDistinct(acc);
    } else {
      var init, id := ids[..|ids| - 1], ids[|ids| - 1];
      AppendNewIsFirstSeen(acc, init);
      assert acc + ids == (acc + init) + [id];
      FirstSeenSnoc(acc + init, id);
    }
  }

  /** Extending the keys by one adds that key at the end unless it was seen. */
  lemma FirstSeenSnoc<T(!new)>(keys: seq<T>, k: T)
    ensures FirstSeen(keys + [k]) == if k in FirstSeen(keys) then FirstSeen(keys) else FirstSeen(keys) + [k]
  {
    assert (keys + [k])[..|keys|] == keys;
  }

  /** The update fails exactly without a "Tasks" relation; otherwise the
      relation keeps its ids and gains those of the tasks not yet in it. */
  lemma UpdateJournalTasksSpec(journal: Page, tasksToAdd: seq<Page>)
    requires TasksProperty in journal.properties && journal.properties[TasksProperty].RelationProperty?
    ensures var existing := journal.properties[TasksProperty].ids;
      var r := AppendNew(existing, PageIds(tasksToAdd));
      && r[..|existing|] == existing
      && (forall t :: t in tasksToAdd ==> t.id in r)
      && (forall x :: x in r ==> x in existing || exists t :: t in tasksToAdd && t.id == x)
  {
    var existing := journal.properties[TasksProperty].ids;
    var ids := PageIds(tasksToAdd);
    AppendNewKeepsExisting(existing, ids);
    AppendNewMembers(existing, ids);
    forall t | t in tasksToAdd
      ensures t.id in ids
    {
      var k :| 0 <= k < |tasksToAdd| && tasksToAdd[k] == t;
      assert ids[k] == t.id;
    }
    forall x | x in ids
      ensures exists t :: t in tasksToAdd && t.id == x
    {
      var k :| 0 <= k < |ids| && ids[k] == x;
      assert tasksToAdd[k] in tasksToAdd;
    }
  }

  // ---------------------------------------------------------------------------
  // findProjectPages

  lemma {:induction false} PagesFoundUsesOnlyQueried(names: seq<string>, lookup1: string -> QueryResult,
                                                     lookup2: string -> QueryResult)
    requires forall n :: n in names && !IsSentinel(n) ==> lookup1(n) == lookup2(n)
    ensures PagesFound(names, lookup1) == PagesFound(names, lookup2)
    decreases |names|
  {
    if names != [] {
      assert forall n :: n in names[..|names| - 1] ==> n in names;
      PagesFoundUsesOnlyQueried(names[..|names| - 1], lookup1, lookup2);
      assert names[|names| - 1] in names;
    }
  }

  /** The page map depends on nothing but the answers for the names queried:
      the sentinel names are never looked up, nor is anything without a
      configured database. */
  lemma ProjectPagesUsesOnlyQueried(names: seq<string>, databaseConfigured: bool,
                                    lookup1: string -> QueryResult, lookup2: string -> QueryResult)
    requires forall n :: n in QueriedNames(names, databaseConfigured) ==> lookup1(n) == lookup2(n)
    ensures ProjectPages(names, databaseConfigured, lookup1) == ProjectPages(names, databaseConfigured, lookup2)
  {
    if databaseConfigured {
      PagesFoundUsesOnlyQueried(names, lookup1, lookup2);
    }
  }

  /** A failed query only leaves its own name out of the page map. */
  lemma FailedLookupOnlyDropsName(names: seq<string>, databaseConfigured: bool,
                                  lookup: string -> QueryResult, failing: string -> QueryResult, name: string)
    requires failing(name) == QueryFailed
    requires forall n :: n != name ==> failing(n) == lookup(n)
    ensures ProjectPages(names, databaseConfigured, failing) ==
            ProjectPages(names, databaseConfigured, lookup) - {name}
  {
    var pages := ProjectPages(names, databaseConfigured, lookup);
    var dropped := ProjectPages(names, databaseConfigured, failing);
    assert dropped.Keys == pages.Keys - {name};
  }

  // ---------------------------------------------------------------------------
  // appendTogglSummaryToPage: heading

  lemma {:induction false} AllEntriesMembers(summaries: seq<ProjectSummary>, e: EntryRecord)
    ensures e in AllEntries(summaries) <==> exists i :: 0 <= i < |summaries| && e in summaries[i].entries
    decreases |summaries|
  {
    if summaries != [] {
      var init := summaries[..|summaries| - 1];
      AllEntriesMembers(init, e);
      assert forall i :: 0 <= i < |init| ==> init[i] == summaries[i];
      if e in summaries[|summaries| - 1].entries {
        assert e in AllEntries(summaries);
      }
    }
  }

  lemma StartsMembers(entries: seq<EntryRecord>, t: int)
    ensures t in Starts(entries) <==> exists e :: e in entries && e.start == t
  {
    if exists e :: e in entries && e.start == t {
      var e :| e in entries && e.start == t;
      var k :| 0 <= k < |entries| && entries[k] == e;
      assert Starts(entries)[k] == t;
    }
  }

  /** The time range is shown exactly when some entry has a stop time. */
  lemma TimeRangeShown(summaries: seq<ProjectSummary>)
    ensures TimeRange(summaries) != "" <==> exists e :: e in AllEntries(summaries) && e.stop.Some?
  {
    var all := AllEntries(summaries);
    var stops := Stops(all);
    if |stops| > 0 {
      assert stops[0] in stops;
    }
    if exists e :: e in all && e.stop.Some? {
      var e :| e in all && e.stop.Some?;
      assert e.stop.value in stops;
      assert |Starts(all)| > 0;
    }
  }

  /** `lo` is the earliest start and `hi` the latest stop among the entries. */
  ghost predicate SpansEntries(all: seq<EntryRecord>, lo: int, hi: int) {
    && (exists e :: e in all && e.start == lo)
    && (forall e :: e in all ==> lo <= e.start)
    && (exists e :: e in all && e.stop == Some(hi))
    && (forall e :: e in all && e.stop.Some? ==> e.stop.value <= hi)
  }

  /** When shown, the time range runs from the earliest start to the latest
      stop, in JST clock time. */
  lemma TimeRangeBounds(summaries: seq<ProjectSummary>)
    requires exists e :: e in AllEntries(summaries) && e.stop.Some?
    ensures exists lo, hi ::
      && TimeRange(summaries) == " " + FormatTime(lo) + "-" + FormatTime(hi)
      && SpansEntries(AllEntries(summaries), lo, hi)
  {
    var all := AllEntries(summaries);
    var e :| e in all && e.stop.Some?;
    assert e.stop.value in Stops(all);
    TimeRangeText(summaries);
    var lo, hi := Min(Starts(all)), Max(Stops(all));
    MinMaxSpan(all);
    assert TimeRange(summaries) == " " + FormatTime(lo) + "-" + FormatTime(hi) && SpansEntries(all, lo, hi);
  }

  /** The minimum start and maximum stop are attained and are the extremes. */
  lemma MinMaxSpan(all: seq<EntryRecord>)
    requires |Stops(all)| > 0
    ensures |Starts(all)| > 0 && SpansEntries(all, Min(Starts(all)), Max(Stops(all)))
  {
    var starts, stops := Starts(all), Stops(all);
    assert |starts| > 0;
    var lo, hi := Min(starts), Max(stops);
    StartsMembers(all, lo);
    forall e' | e' in all
      ensures lo <= e'.start
    {
      StartsMembers(all, e'.start);
    }
    forall e' | e' in all && e'.stop.Some?
      ensures e'.stop.value <= hi
    {
      assert e'.stop.value in stops;
    }
  }

  /** With a stop present, the time range is the formatted minimum start and
      maximum stop. */
  lemma TimeRangeText(summaries: seq<ProjectSummary>)
    requires |Stops(AllEntries(summaries))| > 0
    ensures |Starts(AllEntries(summaries))| > 0
    ensures TimeRange(summaries) ==
      " " + FormatTime(Min(Starts(AllEntries(summaries)))) + "-" + FormatTime(Max(Stops(AllEntries(summaries))))
  {
  }

  /** The heading shows the day's total tracked time, running timers excluded. */
  lemma HeadingShowsDayTotal(entries: seq<TimeEntry>, projectMap: map<int, string>)
    ensures var s := Summaries(entries, projectMap);
      HeadingText(s) == HeadingPrefix + FormatDuration(NonRunningSeconds(entries)) + ")" + TimeRange(s)
  {
    SummariesTotal(entries, projectMap);
  }

  /** A day without entries: "0m" and no time range, and a table holding only
      its header row. */
  lemma EmptyDayBlocks(projectPages: map<string, string>)
    ensures SummaryBlocks([], projectPages) ==
      [Heading3([Text(HeadingPrefix + "0m)")]), Table(3, true, false, [HeaderRow()])]
  {
    FormatDurationExamples();
    assert TotalSeconds([]) == 0;
    assert Starts(AllEntries([])) == [];
    assert TimeRange([]) == "";
    assert HeadingText([]) == HeadingPrefix + "0m)";
    assert [HeaderRow()] + DataRows([], projectPages) == [HeaderRow()];
  }

  // ---------------------------------------------------------------------------
  // appendTogglSummaryToPage: table

  /** Row i + 1 shows summary i in three cells: the project cell, the
      formatted total and the details. */
  lemma SummaryTableRow(summaries: seq<ProjectSummary>, projectPages: map<string, string>, i: nat)
    requires i < |summaries|
    ensures var rows := SummaryTable(summaries, projectPages).rows;
      && |rows| == |summaries| + 1
      && rows[i + 1].cells == [
           ProjectCell(summaries[i].projectName, projectPages),
           [Text(FormatDuration(summaries[i].totalSeconds))],
           [Text(DetailsText(summaries[i].entries))]]
  {
    var data := DataRows(summaries, projectPages);
    assert SummaryTable(summaries, projectPages).rows == [HeaderRow()] + data;
    assert ([HeaderRow()] + data)[i + 1] == data[i];
  }

  /** A row's project cell mentions the first page the name's query found when
      that id is non-empty; otherwise, and always for the sentinel names or
      without a project database, it is the name as plain text. */
  lemma ProjectCellFromLookup(summaries: seq<ProjectSummary>, databaseConfigured: bool,
                              lookup: string -> QueryResult, i: nat)
    requires i < |summaries|
    ensures var name := summaries[i].projectName;
      ProjectCell(name, ProjectPages(ProjectNames(summaries), databaseConfigured, lookup)) ==
        (if databaseConfigured && !IsSentinel(name) && Found(lookup, name) && lookup(name).pageIds[0] != ""
         then [PageMention(lookup(name).pageIds[0])] else [Text(name)])
  {
    assert ProjectNames(summaries)[i] == summaries[i].projectName;
  }

  /** The children sent for the day: the heading carries the day's text, and
      row i + 1 of the table shows summary i with the project cell the page
      lookup gives, its formatted total and its details. */
  lemma TogglSummaryChildrenRow(summaries: seq<ProjectSummary>, databaseConfigured: bool,
                                lookup: string -> QueryResult, i: nat)
    requires i < |summaries|
    ensures var blocks := TogglSummaryChildren(summaries, databaseConfigured, lookup);
      var name := summaries[i].projectName;
      && blocks[0] == Heading3([Text(HeadingText(summaries))])
      && blocks[1].rows[i + 1].cells == [
           if databaseConfigured && !IsSentinel(name) && Found(lookup, name) && lookup(name).pageIds[0] != ""
           then [PageMention(lookup(name).pageIds[0])] else [Text(name)],
           [Text(FormatDuration(summaries[i].totalSeconds))],
           [Text(DetailsText(summaries[i].entries))]]
  {
    var pages := ProjectPages(ProjectNames(summaries), databaseConfigured, lookup);
    SummaryTableRow(summaries, pages, i);
    ProjectCellFromLookup(summaries, databaseConfigured, lookup, i);
  }

  // ---------------------------------------------------------------------------
  // appendTogglSummaryToPage: details

  function MergedSeconds(merged: seq<(string, nat)>): (secs: seq<nat>)
    ensures |secs| == |merged|
  {
    seq(|merged|, i requires 0 <= i < |merged| => merged[i].1)
  }

  function MergedDescriptions(merged: seq<(string, nat)>): (descs: seq<string>)
    ensures |descs| == |merged|
  {
    seq(|merged|, i requires 0 <= i < |merged| => merged[i].0)
  }

  /** One merged line per distinct description, and a line for every
      description that occurs among the entries. */
  lemma MergedDescriptionsSpec(entries: seq<EntryRecord>)
    ensures var keys := MergedDescriptions(MergedEntries(entries));
      && Distinct(keys)
      && (forall d :: d in keys <==> d in Descriptions(entries))
  {
    assert MergedDescriptions(MergedEntries(entries)) == FirstSeen(Descriptions(entries));
  }

  /** Merged lines follow the first occurrence of their description. */
  lemma MergedInFirstSeenOrder(entries: seq<EntryRecord>)
    ensures var m := MergedEntries(entries);
      var descs := Descriptions(entries);
      forall i, j :: 0 <= i < j < |m| ==> IndexOf(descs, m[i].0) < IndexOf(descs, m[j].0)
  {
    var descs := Descriptions(entries);
    forall i, j | 0 <= i < j < |MergedEntries(entries)|
      ensures IndexOf(descs, MergedEntries(entries)[i].0) < IndexOf(descs, MergedEntries(entries)[j].0)
    {
      FirstSeenOrder(descs, i, j);
    }
  }

  /** Merging loses no time: the merged seconds add up to the entries' seconds. */
  lemma MergedTotal(entries: seq<EntryRecord>)
    ensures Sum(MergedSeconds(MergedEntries(entries))) == SumSeconds(entries)
  {
    var descs := Descriptions(entries);
    var secs := SecondsOf(entries);
    assert MergedSeconds(MergedEntries(entries)) == GroupSums(descs, secs, FirstSeen(descs));
    GroupSumsTotal(descs, secs);
  }

  /** In each row of the day's table, the details add up to the row's time. */
  lemma DetailsAddUpToRowTime(entries: seq<TimeEntry>, projectMap: map<int, string>)
    ensures var s := Summaries(entries, projectMap);
      forall i :: 0 <= i < |s| ==> Sum(MergedSeconds(MergedEntries(s[i].entries))) == s[i].totalSeconds
  {
    var s := Summaries(entries, projectMap);
    SummaryContents(entries, projectMap);
    forall i | 0 <= i < |s|
      ensures Sum(MergedSeconds(MergedEntries(s[i].entries))) == s[i].totalSeconds
    {
      MergedTotal(s[i].entries);
    }
  }

  function ReviewPrEntries(): seq<EntryRecord> {
    [EntryRecord("Review PR", 600, 0, Some(600000)),
     EntryRecord("Review PR", 900, 3600000, Some(4500000))]
  }

  /** Two entries with the same description merge into one line carrying
      their combined seconds. */
  lemma MergedSameDescription(e1: EntryRecord, e2: EntryRecord)
    requires e1.description == e2.description
    ensures MergedEntries([e1, e2]) == [(e1.description, e1.seconds + e2.seconds)]
  {
    var entries := [e1, e2];
    var d := e1.description;
    var descs := Descriptions(entries);
    assert descs == [d, d];
    assert FirstSeen(descs) == [d] by {
      assert descs[..1] == [d] && descs[..1][..0] == [];
      assert FirstSeen(descs[..1]) == [d];
    }
    var secs := SecondsOf(entries);
    assert secs == [e1.seconds, e2.seconds];
    assert Select(descs, secs, d) == secs by {
      assert descs[..1] == [d] && secs[..1] == [e1.seconds];
      assert descs[..1][..0] == [] && secs[..1][..0] == [];
    }
    assert Sum(secs) == e1.seconds + e2.seconds by {
      assert secs[..1] == [e1.seconds] && secs[..1][..0] == [];
      assert Sum(secs[..1]) == e1.seconds;
    }
  }

  /** A rendered duration is digits, 'h', ' ' and 'm' only: never a line break. */
  lemma DurationHasNoLineBreak(seconds: nat)
    ensures '\n' !in FormatDuration(seconds)
  {
    var h, m := DecimalString(seconds / 3600), DecimalString((seconds % 3600) / 60);
    assert '\n' !in h && '\n' !in m;
  }

  /** A detail line breaks no line unless its description does. */
  lemma DetailLineHasNoLineBreak(description: string, seconds: nat)
    requires '\n' !in description
    ensures '\n' !in DetailLine(description, seconds)
  {
    DurationHasNoLineBreak(seconds);
    assert DetailLine(description, seconds) == ("• " + description) + (" (" + FormatDuration(seconds) + ")");
  }

  /** The merged descriptions are among the entries' descriptions. */
  lemma MergedDescriptionOccurs(entries: seq<EntryRecord>, k: nat)
    requires k < |MergedEntries(entries)|
    ensures exists j :: 0 <= j < |entries| && entries[j].description == MergedEntries(entries)[k].0
  {
    MergedDescriptionsSpec(entries);
    var d := MergedEntries(entries)[k].0;
    assert d == MergedDescriptions(MergedEntries(entries))[k];
    assert d in Descriptions(entries);
    var j :| 0 <= j < |entries| && Descriptions(entries)[j] == d;
  }

  /** When no description holds a line break, the details cell splits on
      "\n" into exactly the merged detail lines, in order. */
  lemma DetailsTextLines(entries: seq<EntryRecord>)
    requires entries != []
    requires forall i :: 0 <= i < |entries| ==> '\n' !in entries[i].description
    ensures Split(DetailsText(entries), '\n') == DetailLines(MergedEntries(entries))
  {
    var merged := MergedEntries(entries);
    var lines := DetailLines(merged);
    forall k | 0 <= k < |lines|
      ensures '\n' !in lines[k]
    {
      MergedDescriptionOccurs(entries, k);
      DetailLineHasNoLineBreak(merged[k].0, merged[k].1);
    }
    assert Descriptions(entries)[0] in FirstSeen(Descriptions(entries));
    JoinSplit(lines, '\n');
  }

  /** Two "Review PR" entries of 10 and 15 minutes are shown as the single
      details line "• Review PR (25m)". */
  lemma ReviewPrExample()
    ensures DetailsText(ReviewPrEntries()) == "• Review PR (25m)"
  {
    MergedSameDescription(ReviewPrEntries()[0], ReviewPrEntries()[1]);
    assert [ReviewPrEntries()[0], ReviewPrEntries()[1]] == ReviewPrEntries();
    assert FormatDuration(1500) == "25m" by {
      FormatDurationExamples();
    }
    assert DetailLine("Review PR", 1500) == "• Review PR (25m)";
    assert DetailLines([("Review PR", 1500)]) == [DetailLine("Review PR", 1500)];
  }

  // ---------------------------------------------------------------------------
  // appendTextToPage

  function Smaller(a: nat, b: nat): nat {
    if a < b then a else b
  }

  /** Segment i sits after the i segments and min(i, |urls|) links before it;
      link i directly follows segment i; nothing else is in the rich text. */
  lemma {:induction false} InterleavedSpec(segments: seq<string>, urls: seq<string>)
    ensures var r := Interleaved(segments, urls);
      && |r| == |segments| + Smaller(|segments|, |urls|)
      && (forall i :: 0 <= i < |segments| ==> r[i + Smaller(i, |urls|)] == Text(segments[i]))
      && (forall i :: 0 <= i < |segments| && i < |urls| ==> r[2 * i + 1] == Link(urls[i], urls[i]))
    decreases |segments|
  {
    if segments != [] {
      var n := |segments| - 1;
      InterleavedSpec(segments[..n], urls);
      var prior := Interleaved(segments[..n], urls);
      var r := Interleaved(segments, urls);
      assert r[..|prior|] == prior;
      forall i | 0 <= i < n
        ensures r[i + Smaller(i, |urls|)] == Text(segments[i])
      {
        assert segments[..n][i] == segments[i];
      }
    }
  }

  /** The media blocks keep the order bookmark, embed, video, each present
      exactly when its option is set (a falsy embed or video string is
      skipped), and a bookmark without caption gets an empty one. */
  lemma MediaBlocksSpec(opts: Input)
    ensures var m := MediaBlocks(opts);
      && (opts.bookmark.Some? <==> |m| > 0 && m[0].Bookmark?)
      && (opts.bookmark.Some? ==>
            m[0] == Bookmark(opts.bookmark.value.url,
                             [Text(if opts.bookmark.value.caption.Some? then opts.bookmark.value.caption.value else "")]))
      && (forall u :: Embed(u) in m <==> opts.embed == Some(u) && u != "")
      && (forall u :: ExternalVideo(u) in m <==> opts.video == Some(u) && u != "")
      && (forall i, j :: 0 <= i < j < |m| ==> MediaRank(m[i]) < MediaRank(m[j]))
      && (forall b :: b in m ==> MediaRank(b) < 3)
      && |m| == (if opts.bookmark.Some? then 1 else 0) + (if Truthy(opts.embed) then 1 else 0)
                  + (if Truthy(opts.video) then 1 else 0)
  {
  }
}
