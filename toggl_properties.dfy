/** What `summarizeByProject` promises, proved about its specification
    `Toggl.Summaries` (which `Toggl.SummarizeByProject` is proved to compute). */
module TogglProperties {

  import opened Wrappers
  import opened Grouping
  import opened Toggl

  /** A name is among the resolved names iff some non-running entry resolves to it. */
  lemma ResolvedNamesMembers(entries: seq<TimeEntry>, projectMap: map<int, string>, name: string)
    ensures name in ResolvedNames(entries, projectMap) <==>
      exists k :: 0 <= k < |entries| && entries[k].duration >= 0 && ProjectName(entries[k].projectId, projectMap) == name
  {
    var kept := Kept(entries);
    var names := ResolvedNames(entries, projectMap);
    if name in names {
      var i :| 0 <= i < |names| && names[i] == name;
      assert kept[i] in kept;
      var k :| 0 <= k < |entries| && entries[k] == kept[i];
    }
    if exists k :: 0 <= k < |entries| && entries[k].duration >= 0 && ProjectName(entries[k].projectId, projectMap) == name {
      var k :| 0 <= k < |entries| && entries[k].duration >= 0 && ProjectName(entries[k].projectId, projectMap) == name;
      assert entries[k] in kept;
      var i :| 0 <= i < |kept| && kept[i] == entries[k];
      assert names[i] == name;
    }
  }

  /** The summaries' names are those of `FirstSeen`, position by position. */
  lemma SummaryNames(entries: seq<TimeEntry>, projectMap: map<int, string>)
    ensures var s := Summaries(entries, projectMap);
      var order := FirstSeen(ResolvedNames(entries, projectMap));
      |s| == |order| && forall i :: 0 <= i < |s| ==> s[i].projectName == order[i]
  {
  }

  /** No two summaries share a project name. */
  lemma SummariesDistinct(entries: seq<TimeEntry>, projectMap: map<int, string>)
    ensures var s := Summaries(entries, projectMap);
      forall i, j :: 0 <= i < j < |s| ==> s[i].projectName != s[j].projectName
  {
    SummaryNames(entries, projectMap);
  }

  /** Every summary is named after some non-running entry's project. */
  lemma SummaryNamesSound(entries: seq<TimeEntry>, projectMap: map<int, string>)
    ensures var s := Summaries(entries, projectMap);
      forall i :: 0 <= i < |s| ==>
        exists k :: 0 <= k < |entries| && entries[k].duration >= 0 &&
          ProjectName(entries[k].projectId, projectMap) == s[i].projectName
  {
    var s := Summaries(entries, projectMap);
    var order := FirstSeen(ResolvedNames(entries, projectMap));
    SummaryNames(entries, projectMap);
    forall i | 0 <= i < |s|
      ensures exists k :: 0 <= k < |entries| && entries[k].duration >= 0 &&
                ProjectName(entries[k].projectId, projectMap) == s[i].projectName
    {
      ResolvedNamesMembers(entries, projectMap, order[i]);
    }
  }

  /** Every non-running entry's project has a summary. */
  lemma SummaryNamesComplete(entries: seq<TimeEntry>, projectMap: map<int, string>)
    ensures var s := Summaries(entries, projectMap);
      forall k :: 0 <= k < |entries| && entries[k].duration >= 0 ==>
        exists i :: 0 <= i < |s| && s[i].projectName == ProjectName(entries[k].projectId, projectMap)
  {
    var s := Summaries(entries, projectMap);
    var order := FirstSeen(ResolvedNames(entries, projectMap));
    SummaryNames(entries, projectMap);
    forall k | 0 <= k < |entries| && entries[k].duration >= 0
      ensures exists i :: 0 <= i < |s| && s[i].projectName == ProjectName(entries[k].projectId, projectMap)
    {
      var n := ProjectName(entries[k].projectId, projectMap);
      ResolvedNamesMembers(entries, projectMap, n);
      var i :| 0 <= i < |order| && order[i] == n;
      assert s[i].projectName == n;
    }
  }

  /** Summaries come in the order in which their names first appear among the
      non-running entries. */
  lemma SummariesInFirstSeenOrder(entries: seq<TimeEntry>, projectMap: map<int, string>)
    ensures var s := Summaries(entries, projectMap);
      var names := ResolvedNames(entries, projectMap);
      forall i, j :: 0 <= i < j < |s| ==> IndexOf(names, s[i].projectName) < IndexOf(names, s[j].projectName)
  {
    var s := Summaries(entries, projectMap);
    var names := ResolvedNames(entries, projectMap);
    SummaryNames(entries, projectMap);
    forall i, j | 0 <= i < j < |s|
      ensures IndexOf(names, s[i].projectName) < IndexOf(names, s[j].projectName)
    {
      FirstSeenOrder(names, i, j);
    }
  }

  /** Selecting the records of one name gives the records of that project's
      non-running entries, in encounter order. */
  lemma {:induction false} SelectRecords(entries: seq<TimeEntry>, projectMap: map<int, string>, name: string)
    ensures Select(ResolvedNames(entries, projectMap), Records(entries), name) ==
            RecordsOfEntries(OfProject(entries, projectMap, name))
    decreases |entries|
  {
    if entries != [] {
      var init, e := entries[..|entries| - 1], entries[|entries| - 1];
      assert entries == init + [e];
      SelectRecords(init, projectMap, name);
      assert entries[..|entries| - 1] == init;
      var group := OfProject(init, projectMap, name);
      if e.duration < 0 {
        AppendRunning(init, e, projectMap);
        assert OfProject(entries, projectMap, name) == group;
      } else {
        AppendKept(init, e, projectMap);
        SelectSnoc(ResolvedNames(init, projectMap), Records(init), ProjectName(e.projectId, projectMap), RecordOf(e), name);
        if ProjectName(e.projectId, projectMap) == name {
          assert OfProject(entries, projectMap, name) == group + [e];
          assert (group + [e])[..|group|] == group;
        } else {
          assert OfProject(entries, projectMap, name) == group;
        }
      }
    }
  }

  /** Selecting commutes with taking the seconds of records. */
  lemma {:induction false} SelectSeconds(names: seq<string>, recs: seq<EntryRecord>, name: string)
    requires |names| == |recs|
    ensures Select(names, SecondsOf(recs), name) == SecondsOf(Select(names, recs, name))
    decreases |names|
  {
    if names != [] {
      var names0, recs0 := names[..|names| - 1], recs[..|recs| - 1];
      assert SecondsOf(recs)[..|recs| - 1] == SecondsOf(recs0);
      SelectSeconds(names0, recs0, name);
    }
  }

  /** Each summary lists exactly the records of its project's non-running
      entries, in encounter order, and its total is the sum of their seconds. */
  lemma SummaryContents(entries: seq<TimeEntry>, projectMap: map<int, string>)
    ensures var s := Summaries(entries, projectMap);
      forall i :: 0 <= i < |s| ==>
        && s[i].entries == RecordsOfEntries(OfProject(entries, projectMap, s[i].projectName))
        && s[i].totalSeconds == SumSeconds(s[i].entries)
  {
    var s := Summaries(entries, projectMap);
    forall i | 0 <= i < |s|
      ensures s[i].entries == RecordsOfEntries(OfProject(entries, projectMap, s[i].projectName))
      ensures s[i].totalSeconds == SumSeconds(s[i].entries)
    {
      SelectRecords(entries, projectMap, s[i].projectName);
      SelectSeconds(ResolvedNames(entries, projectMap), Records(entries), s[i].projectName);
    }
  }

  /** Running entries contribute nothing: every recorded line is the record of a
      non-running entry of the input. */
  lemma SummaryRecordsNotRunning(entries: seq<TimeEntry>, projectMap: map<int, string>)
    ensures var s := Summaries(entries, projectMap);
      forall i, r :: 0 <= i < |s| && r in s[i].entries ==>
        exists e :: e in entries && e.duration >= 0 && RecordOf(e) == r
  {
    var s := Summaries(entries, projectMap);
    SummaryContents(entries, projectMap);
    forall i, r | 0 <= i < |s| && r in s[i].entries
      ensures exists e :: e in entries && e.duration >= 0 && RecordOf(e) == r
    {
      var group := OfProject(entries, projectMap, s[i].projectName);
      var k :| 0 <= k < |group| && RecordOf(group[k]) == r;
      assert group[k] in group;
    }
  }

  /** Summing per-summary totals, the way the heading's total is taken. */
  lemma {:induction false} TotalSecondsIsSum(summaries: seq<ProjectSummary>)
    ensures TotalSeconds(summaries) ==
            Sum(seq(|summaries|, i requires 0 <= i < |summaries| => summaries[i].totalSeconds))
    decreases |summaries|
  {
    if summaries != [] {
      var init := summaries[..|summaries| - 1];
      TotalSecondsIsSum(init);
      var all := seq(|summaries|, i requires 0 <= i < |summaries| => summaries[i].totalSeconds);
      assert all[..|all| - 1] == seq(|init|, i requires 0 <= i < |init| => init[i].totalSeconds);
    }
  }

  lemma {:induction false} RecordSecondsTotal(entries: seq<TimeEntry>)
    ensures Sum(SecondsOf(Records(entries))) == NonRunningSeconds(entries)
    decreases |entries|
  {
    if entries != [] {
      var init, e := entries[..|entries| - 1], entries[|entries| - 1];
      assert entries == init + [e];
      RecordSecondsTotal(init);
      if e.duration < 0 {
        AppendRunning(init, e, map[]);
      } else {
        AppendKept(init, e, map[]);
        assert SecondsOf(Records(entries)) == SecondsOf(Records(init)) + [e.duration];
        SumAppend(SecondsOf(Records(init)), [e.duration]);
      }
    }
  }

  /** The summaries' totals add up to the durations of all non-running entries. */
  lemma SummariesTotal(entries: seq<TimeEntry>, projectMap: map<int, string>)
    ensures TotalSeconds(Summaries(entries, projectMap)) == NonRunningSeconds(entries)
  {
    var s := Summaries(entries, projectMap);
    var names := ResolvedNames(entries, projectMap);
    var secs := SecondsOf(Records(entries));
    assert TotalSeconds(s) == Sum(GroupSums(names, secs, FirstSeen(names))) by {
      TotalSecondsIsSum(s);
      assert seq(|s|, i requires 0 <= i < |s| => s[i].totalSeconds) == GroupSums(names, secs, FirstSeen(names));
    }
    GroupSumsTotal(names, secs);
    RecordSecondsTotal(entries);
  }
}

/** The two formatters of app/api/toggl/client.ts, each with the parser that
    reads its output back. */
module TogglFormatProperties {

  import opened Wrappers
  import opened Digits
  import opened Toggl

  /** Whole hours and the minutes past them are the whole minutes, split. */
  lemma MinutesSplitSeconds(x: nat)
    ensures x / 3600 == (x / 60) / 60
    ensures (x % 3600) / 60 == (x / 60) % 60
  {
  }

  lemma MinutesSplitMs(x: nat)
    ensures x / HourMs == (x / MinuteMs) / 60
    ensures (x % HourMs) / MinuteMs == (x / MinuteMs) % 60
  {
  }

  /** Reads "{h}h {m}m" or "{m}m" back as (hours, minutes). */
  function ParseDuration(s: string): Option<(nat, nat)> {
    if |s| < 2 || s[|s| - 1] != 'm' then None
    else
      var body := s[..|s| - 1];
      match Find(body, 'h')
      case None =>
        if AllDigits(body) then Some((0, ParseDecimal(body))) else None
      case Some(k) =>
        if k > 0 && k + 2 < |body| && body[k + 1] == ' ' && AllDigits(body[..k]) && AllDigits(body[k + 2..])
        then Some((ParseDecimal(body[..k]), ParseDecimal(body[k + 2..])))
        else None
  }

  /** In "{h}h {m}" the first 'h' follows the digits of h, then a space, then m. */
  lemma HoursBody(h: string, m: string)
    requires |h| > 0 && AllDigits(h) && |m| > 0
    ensures var body := h + "h " + m;
      && Find(body, 'h') == Some(|h|)
      && |h| + 2 < |body| && body[|h| + 1] == ' '
      && body[..|h|] == h && body[|h| + 2..] == m
  {
    var body := h + "h " + m;
    assert body == h + ['h'] + (" " + m);
    assert 'h' !in h;
    FindAfterPrefix(h, 'h', " " + m);
  }

  lemma ParseHoursAndMinutes(hours: nat, minutes: nat)
    ensures ParseDuration(DecimalString(hours) + "h " + DecimalString(minutes) + "m") == Some((hours, minutes))
  {
    var h, m := DecimalString(hours), DecimalString(minutes);
    var s := h + "h " + m + "m";
    assert s[..|s| - 1] == h + "h " + m;
    HoursBody(h, m);
    DecimalRoundTrip(hours);
    DecimalRoundTrip(minutes);
  }

  lemma ParseMinutesOnly(minutes: nat)
    ensures ParseDuration(DecimalString(minutes) + "m") == Some((0, minutes))
  {
    var m := DecimalString(minutes);
    DecimalRoundTrip(minutes);
    assert (m + "m")[..|m|] == m;
    assert 'h' !in m;
  }

  /** `formatDuration` loses nothing but the seconds past the last whole minute. */
  lemma FormatDurationRoundTrip(seconds: nat)
    ensures ParseDuration(FormatDuration(seconds)) == Some((seconds / 3600, (seconds % 3600) / 60))
  {
    if seconds / 3600 > 0 {
      ParseHoursAndMinutes(seconds / 3600, (seconds % 3600) / 60);
    } else {
      ParseMinutesOnly((seconds % 3600) / 60);
    }
  }

  /** Two durations render alike exactly when they have the same whole minutes. */
  lemma FormatDurationSameMinutes(a: nat, b: nat)
    ensures FormatDuration(a) == FormatDuration(b) <==> a / 60 == b / 60
  {
    MinutesSplitSeconds(a);
    MinutesSplitSeconds(b);
    if FormatDuration(a) == FormatDuration(b) {
      FormatDurationRoundTrip(a);
      FormatDurationRoundTrip(b);
      assert a / 60 == 60 * (a / 3600) + (a % 3600) / 60;
      assert b / 60 == 60 * (b / 3600) + (b % 3600) / 60;
    }
  }

  /** Sample renderings. */
  lemma FormatDurationExamples()
    ensures FormatDuration(0) == "0m"
    ensures FormatDuration(59) == "0m"
    ensures FormatDuration(60) == "1m"
    ensures FormatDuration(1500) == "25m"
  {
    assert DecimalString(25) == "25";
  }

  lemma FormatDurationFortyMinutes()
    ensures FormatDuration(2400) == "40m"
  {
    assert DecimalString(40) == "40";
  }

  lemma FormatDurationHourExamples()
    ensures FormatDuration(3600) == "1h 0m"
    ensures FormatDuration(3725) == "1h 2m"
  {
    assert DecimalString(1) == "1";
  }

  /** Reads "HH:MM" back as (hours, minutes). */
  function ParseClock(s: string): Option<(nat, nat)> {
    if |s| == 5 && s[2] == ':' && AllDigits(s[..2]) && AllDigits(s[3..])
    then Some((ParseDecimal(s[..2]), ParseDecimal(s[3..])))
    else None
  }

  /** `formatTime` shows the minute of the UTC+9 day that the instant falls in. */
  lemma FormatTimeIsJstClock(t: int)
    ensures ParseClock(FormatTime(t)).Some?
    ensures var c := ParseClock(FormatTime(t)).value;
      c.0 < 24 && c.1 < 60 && 60 * c.0 + c.1 == ((t + JstOffsetMs) % DayMs) / MinuteMs
  {
    var x := (t + JstOffsetMs) % DayMs;
    var hours, minutes := x / HourMs, (x % HourMs) / MinuteMs;
    var r := FormatTime(t);
    assert r[..2] == Pad2(hours) && r[3..] == Pad2(minutes);
    MinutesSplitMs(x);
  }

  /** The window's start is shown as midnight. */
  lemma TodayWindowStartsAtMidnight(nowMs: int)
    ensures FormatTime(TodayWindow(nowMs).start) == "00:00"
  {
    var w := TodayWindow(nowMs);
    assert (w.start + JstOffsetMs) % DayMs == 0;
  }
}
