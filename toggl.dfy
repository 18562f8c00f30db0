/** The Toggl side of the daily summary (app/api/toggl/client.ts): the UTC+9
    day window, project-name resolution, the per-project aggregation loop and
    the two formatters. Network calls are parameters: `projectsOf` stands for
    the workspace project list that `getProjects` fetches. Instants are integer
    milliseconds since the epoch; durations are whole seconds. */
module Toggl {

  import opened Wrappers
  import opened Grouping
  import opened Digits

  const MinuteMs: int := 60 * 1000
  const HourMs: int := 60 * MinuteMs
  const DayMs: int := 24 * HourMs
  /** Japan Standard Time is UTC+9. */
  const JstOffsetMs: int := 9 * HourMs

  const NoProject: string := "No Project"
  const UnknownProject: string := "Unknown"
  const NoDescription: string := "(no description)"

  /** A Toggl time entry. `duration` is negative while the timer runs;
      `projectId` is `None` for a JSON `null`. */
  datatype TimeEntry = TimeEntry(
    id: int,
    description: string,
    start: int,
    stop: Option<int>,
    duration: int,
    projectId: Option<int>,
    workspaceId: int)

  datatype TogglProject = TogglProject(id: int, name: string)

  /** One line of a project summary. */
  datatype EntryRecord = EntryRecord(description: string, seconds: nat, start: int, stop: Option<int>)

  datatype ProjectSummary = ProjectSummary(projectName: string, totalSeconds: nat, entries: seq<EntryRecord>)

  /** A half-open query window `[start, end)`. */
  datatype Window = Window(start: int, end: int)

  // ---------------------------------------------------------------------------
  // getTodayTimeEntries: the JST day window

  /** The window of the current JST calendar day: midnight JST to the next one. */
  function TodayWindow(nowMs: int): (w: Window)
    ensures w.end == w.start + DayMs
    ensures (w.start + JstOffsetMs) % DayMs == 0
    ensures w.start <= nowMs < w.end
  {
    var jstDay := (nowMs + JstOffsetMs) / DayMs;
    var start := jstDay * DayMs - JstOffsetMs;
    Window(start, start + DayMs)
  }

  /** There is exactly one JST midnight at most 24h before `nowMs`. */
  lemma TodayWindowUnique(nowMs: int, start: int)
    requires (start + JstOffsetMs) % DayMs == 0
    requires start <= nowMs < start + DayMs
    ensures TodayWindow(nowMs).start == start
  {
  }

  // ---------------------------------------------------------------------------
  // Project names

  /** `new Map(projects.map(p => [p.id, p.name]))`. */
  function ProjectMapOf(projects: seq<TogglProject>): (m: map<int, string>)
    ensures forall id :: id in m ==> exists i :: 0 <= i < |projects| && projects[i].id == id && projects[i].name == m[id]
  {
    if projects == [] then map[]
    else
      var p := projects[|projects| - 1];
      ProjectMapOf(projects[..|projects| - 1])[p.id := p.name]
  }

  /** The map has exactly the projects' ids as keys. */
  lemma {:induction false} ProjectMapOfKeys(projects: seq<TogglProject>)
    ensures forall i :: 0 <= i < |projects| ==> projects[i].id in ProjectMapOf(projects)
    ensures forall id :: id in ProjectMapOf(projects) ==> exists i :: 0 <= i < |projects| && projects[i].id == id
  {
    if projects != [] {
      var init := projects[..|projects| - 1];
      var p := projects[|projects| - 1];
      ProjectMapOfKeys(init);
      assert forall i :: 0 <= i < |init| ==> init[i] == projects[i];
      forall id | id in ProjectMapOf(projects)
        ensures exists i :: 0 <= i < |projects| && projects[i].id == id
      {
        if id != p.id {
          var i :| 0 <= i < |init| && init[i].id == id;
          assert projects[i].id == id;
        } else {
          assert projects[|projects| - 1].id == id;
        }
      }
    }
  }

  /** A repeated id keeps the name of its last occurrence. */
  lemma {:induction false} ProjectMapOfLastWins(projects: seq<TogglProject>)
    ensures forall i :: 0 <= i < |projects| && LastWithId(projects, i) ==>
      projects[i].id in ProjectMapOf(projects) && ProjectMapOf(projects)[projects[i].id] == projects[i].name
  {
    if projects != [] {
      var init := projects[..|projects| - 1];
      ProjectMapOfLastWins(init);
      forall i | 0 <= i < |projects| - 1 && LastWithId(projects, i)
        ensures projects[i].id in ProjectMapOf(projects) && ProjectMapOf(projects)[projects[i].id] == projects[i].name
      {
        assert init[i] == projects[i];
        assert LastWithId(init, i);
      }
    }
  }

  /** No project after index `i` has the same id. */
  predicate LastWithId(projects: seq<TogglProject>, i: nat)
    requires i < |projects|
  {
    forall j :: i < j < |projects| ==> projects[j].id != projects[i].id
  }

  /** The display name of an entry's project: a truthy id (not null, not 0)
      resolves through the map or falls back to "Unknown"; otherwise "No Project". */
  function ProjectName(projectId: Option<int>, projectMap: map<int, string>): (name: string)
    ensures (projectId.None? || projectId.value == 0) ==> name == NoProject
    ensures projectId.Some? && projectId.value != 0 && projectId.value in projectMap ==>
      name == projectMap[projectId.value]
    ensures projectId.Some? && projectId.value != 0 && projectId.value !in projectMap ==>
      name == UnknownProject
  {
    match projectId
    case None => NoProject
    case Some(id) =>
      if id == 0 then NoProject
      else if id in projectMap then projectMap[id] else UnknownProject
  }

  // ---------------------------------------------------------------------------
  // summarizeByProject: the specification

  /** The entry as it is recorded in a summary; an empty description is replaced. */
  function RecordOf(e: TimeEntry): (r: EntryRecord)
    requires e.duration >= 0
    ensures r.seconds == e.duration && r.start == e.start && r.stop == e.stop
    ensures r.description != ""
    ensures e.description != "" ==> r.description == e.description
    ensures e.description == "" ==> r.description == NoDescription
  {
    EntryRecord(if e.description == "" then NoDescription else e.description, e.duration, e.start, e.stop)
  }

  /** The entries that are not running, in order. */
  function Kept(entries: seq<TimeEntry>): (kept: seq<TimeEntry>)
    ensures forall e :: e in kept <==> e in entries && e.duration >= 0
  {
    if entries == [] then []
    else
      var rest := Kept(entries[..|entries| - 1]);
      var e := entries[|entries| - 1];
      assert forall x :: x in entries <==> x in entries[..|entries| - 1] || x == e;
      if e.duration < 0 then rest else rest + [e]
  }

  /** The resolved project name of every non-running entry, in order. */
  function ResolvedNames(entries: seq<TimeEntry>, projectMap: map<int, string>): (names: seq<string>)
    ensures |names| == |Kept(entries)|
  {
    var kept := Kept(entries);
    seq(|kept|, i requires 0 <= i < |kept| => ProjectName(kept[i].projectId, projectMap))
  }

  /** The record of every non-running entry, in order. */
  function Records(entries: seq<TimeEntry>): (recs: seq<EntryRecord>)
    ensures |recs| == |Kept(entries)|
  {
    var kept := Kept(entries);
    seq(|kept|, i requires 0 <= i < |kept| => RecordOf(kept[i]))
  }

  function SecondsOf(recs: seq<EntryRecord>): (secs: seq<nat>)
    ensures |secs| == |recs|
  {
    seq(|recs|, i requires 0 <= i < |recs| => recs[i].seconds)
  }

  /** The summary of the group of records whose resolved name is `name`. */
  function SummaryFor(names: seq<string>, recs: seq<EntryRecord>, name: string): ProjectSummary
    requires |names| == |recs|
  {
    ProjectSummary(name, Sum(Select(names, SecondsOf(recs), name)), Select(names, recs, name))
  }

  /** One summary per distinct resolved name, in order of first appearance. */
  function Summaries(entries: seq<TimeEntry>, projectMap: map<int, string>): (summaries: seq<ProjectSummary>)
  {
    var names := ResolvedNames(entries, projectMap);
    var recs := Records(entries);
    var order := FirstSeen(names);
    seq(|order|, i requires 0 <= i < |order| => SummaryFor(names, recs, order[i]))
  }

  /** `summaries.reduce((sum, s) => sum + s.totalSeconds, 0)`. */
  function TotalSeconds(summaries: seq<ProjectSummary>): (total: nat)
    ensures forall i :: 0 <= i < |summaries| ==> summaries[i].totalSeconds <= total
  {
    if summaries == [] then 0
    else TotalSeconds(summaries[..|summaries| - 1]) + summaries[|summaries| - 1].totalSeconds
  }

  function SumSeconds(recs: seq<EntryRecord>): nat {
    Sum(SecondsOf(recs))
  }

  /** The sum of the durations of the entries that are not running. */
  function NonRunningSeconds(entries: seq<TimeEntry>): nat {
    if entries == [] then 0
    else
      var e := entries[|entries| - 1];
      NonRunningSeconds(entries[..|entries| - 1]) + (if e.duration < 0 then 0 else e.duration)
  }

  /** The non-running entries that resolve to `name`, in order. */
  function OfProject(entries: seq<TimeEntry>, projectMap: map<int, string>, name: string): (r: seq<TimeEntry>)
    ensures forall e :: e in r ==> e in entries && e.duration >= 0 && ProjectName(e.projectId, projectMap) == name
    ensures forall e :: e in entries && e.duration >= 0 && ProjectName(e.projectId, projectMap) == name ==> e in r
  {
    if entries == [] then []
    else
      var e := entries[|entries| - 1];
      var rest := OfProject(entries[..|entries| - 1], projectMap, name);
      assert forall x :: x in entries[..|entries| - 1] ==> x in entries;
      assert forall x :: x in entries ==> x in entries[..|entries| - 1] || x == e;
      if e.duration >= 0 && ProjectName(e.projectId, projectMap) == name then rest + [e] else rest
  }

  function RecordsOfEntries(entries: seq<TimeEntry>): (recs: seq<EntryRecord>)
    requires forall e :: e in entries ==> e.duration >= 0
    ensures |recs| == |entries|
    ensures forall i :: 0 <= i < |entries| ==> recs[i] == RecordOf(entries[i])
  {
    if entries == [] then []
    else RecordsOfEntries(entries[..|entries| - 1]) + [RecordOf(entries[|entries| - 1])]
  }

  // ---------------------------------------------------------------------------
  // formatTime and formatDuration

  /** `formatTime`: the instant as "HH:MM" on a UTC+9 clock, zero-padded. */
  function FormatTime(t: int): (r: string)
    ensures |r| == 5 && r[2] == ':'
  {
    var jstMsOfDay := (t + JstOffsetMs) % DayMs;
    var hours := jstMsOfDay / HourMs;
    var minutes := (jstMsOfDay % HourMs) / MinuteMs;
    Pad2(hours) + ":" + Pad2(minutes)
  }

  /** `formatDuration`: "{h}h {m}m", or "{m}m" when there are no whole hours. */
  function FormatDuration(seconds: nat): (r: string)
    ensures |r| > 1 && r[|r| - 1] == 'm'
    ensures 'h' in r <==> seconds >= 3600
  {
    var hours := seconds / 3600;
    var minutes := (seconds % 3600) / 60;
    if hours > 0 then DecimalString(hours) + "h " + DecimalString(minutes) + "m"
    else DecimalString(minutes) + "m"
  }

  // ---------------------------------------------------------------------------
  // summarizeByProject: the loop

  /** The loop state: `order` holds the keys of `summaryMap` in insertion order
      and each summary is that of its group among `names`/`recs`. */
  ghost predicate Grouped(names: seq<string>, recs: seq<EntryRecord>,
                          order: seq<string>, summaryMap: map<string, ProjectSummary>)
    requires |names| == |recs|
  {
    && order == FirstSeen(names)
    && (forall n :: n in summaryMap <==> n in order)
    && (forall n :: n in summaryMap ==> summaryMap[n] == SummaryFor(names, recs, n))
  }

  /** Groups the non-running entries by resolved project name. An empty list
      returns at once, before the project list is fetched; otherwise the project
      list is that of the first entry's workspace. */
  method SummarizeByProject(entries: seq<TimeEntry>, projectsOf: int -> seq<TogglProject>)
    returns (summaries: seq<ProjectSummary>)
    ensures |entries| == 0 ==> summaries == []
    ensures |entries| > 0 ==>
      summaries == Summaries(entries, ProjectMapOf(projectsOf(entries[0].workspaceId)))
  {
    if |entries| == 0 {
      return [];
    }
    var workspaceId := entries[0].workspaceId;
    var projectMap := ProjectMapOf(projectsOf(workspaceId));
    var order: seq<string> := [];
    var summaryMap: map<string, ProjectSummary> := map[];
    ghost var names: seq<string> := [];
    ghost var recs: seq<EntryRecord> := [];
    for i := 0 to |entries|
      invariant names == ResolvedNames(entries[..i], projectMap)
      invariant recs == Records(entries[..i])
      invariant Grouped(names, recs, order, summaryMap)
    {
      var entry := entries[i];
      assert entries[..i + 1] == entries[..i] + [entry];
      if entry.duration < 0 {
        AppendRunning(entries[..i], entry, projectMap);
        continue;
      }
      var projectName := ProjectName(entry.projectId, projectMap);
      ghost var order0, summaryMap0 := order, summaryMap;
      if projectName !in summaryMap {
        summaryMap := summaryMap[projectName := ProjectSummary(projectName, 0, [])];
        order := order + [projectName];
      }
      NameInserted(names, recs, projectName, order0, summaryMap0, order, summaryMap);
      var summary := summaryMap[projectName];
      RecordAdded(names, recs, projectName, RecordOf(entry), order, summaryMap);
      summaryMap := summaryMap[projectName := AddRecord(summary, RecordOf(entry))];
      AppendKept(entries[..i], entry, projectMap);
      names, recs := names + [projectName], recs + [RecordOf(entry)];
    }
    assert entries[..|entries|] == entries;
    summaries := seq(|order|, j requires 0 <= j < |order| => summaryMap[order[j]]);
  }

  /** Appending a running entry changes nothing. */
  lemma AppendRunning(prefix: seq<TimeEntry>, e: TimeEntry, projectMap: map<int, string>)
    requires e.duration < 0
    ensures ResolvedNames(prefix + [e], projectMap) == ResolvedNames(prefix, projectMap)
    ensures Records(prefix + [e]) == Records(prefix)
  {
    assert (prefix + [e])[..|prefix|] == prefix;
  }

  /** Appending a non-running entry appends its name and its record. */
  lemma AppendKept(prefix: seq<TimeEntry>, e: TimeEntry, projectMap: map<int, string>)
    requires e.duration >= 0
    ensures ResolvedNames(prefix + [e], projectMap) ==
            ResolvedNames(prefix, projectMap) + [ProjectName(e.projectId, projectMap)]
    ensures Records(prefix + [e]) == Records(prefix) + [RecordOf(e)]
  {
    assert (prefix + [e])[..|prefix|] == prefix;
    assert Kept(prefix + [e]) == Kept(prefix) + [e];
  }

  /** `summary.totalSeconds += entry.duration; summary.entries.push(...)`. */
  function AddRecord(summary: ProjectSummary, r: EntryRecord): ProjectSummary {
    summary.(totalSeconds := summary.totalSeconds + r.seconds, entries := summary.entries + [r])
  }

  lemma SummaryForSnoc(names: seq<string>, recs: seq<EntryRecord>, name: string, r: EntryRecord, n: string)
    requires |names| == |recs|
    ensures SummaryFor(names + [name], recs + [r], n) ==
      if n == name then AddRecord(SummaryFor(names, recs, n), r) else SummaryFor(names, recs, n)
  {
    assert SecondsOf(recs + [r]) == SecondsOf(recs) + [r.seconds];
    SelectSnoc(names, recs, name, r, n);
    SelectSnoc(names, SecondsOf(recs), name, r.seconds, n);
    SumAppend(Select(names, SecondsOf(recs), n), [r.seconds]);
  }

  /** Between the two halves of an iteration: the name of the current entry
      has its summary, still without the entry. */
  ghost predicate Pending(names: seq<string>, recs: seq<EntryRecord>, name: string,
                          order: seq<string>, summaryMap: map<string, ProjectSummary>)
    requires |names| == |recs|
  {
    && order == FirstSeen(names + [name])
    && (forall n :: n in summaryMap <==> n in order)
    && (forall n :: n in summaryMap ==> summaryMap[n] == SummaryFor(names, recs, n))
  }

  /** Creating an empty summary for a name seen for the first time. */
  lemma NameInserted(names: seq<string>, recs: seq<EntryRecord>, name: string,
                     order: seq<string>, summaryMap: map<string, ProjectSummary>,
                     order': seq<string>, summaryMap': map<string, ProjectSummary>)
    requires |names| == |recs|
    requires Grouped(names, recs, order, summaryMap)
    requires name in summaryMap ==> order' == order && summaryMap' == summaryMap
    requires name !in summaryMap ==>
      order' == order + [name] && summaryMap' == summaryMap[name := ProjectSummary(name, 0, [])]
    ensures Pending(names, recs, name, order', summaryMap')
  {
    assert (names + [name])[..|names|] == names;
    if name !in summaryMap {
      SelectAbsent(names, recs, name);
      SelectAbsent(names, SecondsOf(recs), name);
    }
  }

  /** Adding the current entry's record to its summary completes the iteration. */
  lemma RecordAdded(names: seq<string>, recs: seq<EntryRecord>, name: string, r: EntryRecord,
                    order: seq<string>, summaryMap: map<string, ProjectSummary>)
    requires |names| == |recs|
    requires Pending(names, recs, name, order, summaryMap)
    ensures name in summaryMap
    ensures Grouped(names + [name], recs + [r], order, summaryMap[name := AddRecord(summaryMap[name], r)])
  {
    assert name in names + [name];
    var summaryMap' := summaryMap[name := AddRecord(summaryMap[name], r)];
    forall n | n in summaryMap'
      ensures summaryMap'[n] == SummaryFor(names + [name], recs + [r], n)
    {
      SummaryForSnoc(names, recs, name, r, n);
    }
  }
}
