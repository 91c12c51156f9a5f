/**
 * The hours-based student overview: its 12-step grade scale, the per-subject
 * statistics, the totals, the overall pass/fail status and the log list
 * grouped by day.
 */
module ViewStudentModal {
  import opened Wrappers
  import opened Models
  import JsValues
  import Calendar
  import Seqs
  import DailyLogController

  /** `calculateGPAFromPercent`, the letter-grade scale with plus and minus steps. */
  function Scale12(pct: real): (g: real)
    ensures g in {0.0, 1.0, 1.3, 1.7, 2.0, 2.3, 2.7, 3.0, 3.3, 3.7, 4.0}
    ensures pct >= 93.0 <==> g == 4.0
    ensures pct < 65.0 <==> g == 0.0
  {
    if pct >= 97.0 then 4.0
    else if pct >= 93.0 then 4.0
    else if pct >= 90.0 then 3.7
    else if pct >= 87.0 then 3.3
    else if pct >= 83.0 then 3.0
    else if pct >= 80.0 then 2.7
    else if pct >= 77.0 then 2.3
    else if pct >= 73.0 then 2.0
    else if pct >= 70.0 then 1.7
    else if pct >= 67.0 then 1.3
    else if pct >= 65.0 then 1.0
    else 0.0
  }

  /** A higher percentage never gives a lower grade point, and all lie in [0, 4]. */
  lemma Scale12Monotone(p: real, q: real)
    requires p <= q
    ensures 0.0 <= Scale12(p) <= Scale12(q) <= 4.0
  {
  }

  /** This scale and the server's coarse one disagree, for instance at 85%. */
  lemma ScalesDiffer()
    ensures Scale12(85.0) == 3.0 && DailyLogController.PercentageToGpa(85.0) == 3.0
    ensures Scale12(88.0) == 3.3 && DailyLogController.PercentageToGpa(88.0) == 3.0
    ensures Scale12(62.0) == 0.0 && DailyLogController.PercentageToGpa(62.0) == 1.0
  {
  }

  /** `student?.grade <= 5`: the stored grade string compared as a number; no grade is not primary. */
  predicate IsPrimaryStudent(grade: Option<string>) {
    grade.Some? && var n := JsValues.ToNumber(JsValues.Str(grade.value)); n.Num? && n.n <= 5.0
  }

  /** The per-subject cells: the majority string for a primary student, else average and grade point. */
  datatype SubjectStats = Majority(pass: bool) | Averaged(average: real, gpa: real)

  /** `calculateSubjectStats`; every stored log has a numeric percentage. */
  function SubjectStatsOf(sv: SubjectView, primary: bool): (st: SubjectStats)
    ensures primary ==> st == Majority(CountStatus(sv.dailyLogs, Pass) >= CountStatus(sv.dailyLogs, Fail))
    ensures !primary ==> st.Averaged? && st.gpa == Scale12(st.average)
    ensures !primary && sv.dailyLogs == [] ==> st == Averaged(0.0, 0.0)
    ensures !primary && sv.dailyLogs != [] ==> st.average == SumPercentage(sv.dailyLogs) / (|sv.dailyLogs| as real)
  {
    var logs := sv.dailyLogs;
    if primary then Majority(CountStatus(logs, Pass) >= CountStatus(logs, Fail))
    else
      var avg := SumPercentage(logs) / (if |logs| == 0 then 1 else |logs|) as real;
      Averaged(avg, Scale12(avg))
  }

  /** A subject without logs shows Pass (0 ≥ 0), or 0% with grade point 0. */
  lemma NoLogsStats(s: Subject, primary: bool)
    ensures SubjectStatsOf(SubjectView(s, [], None, None), true) == Majority(true)
    ensures SubjectStatsOf(SubjectView(s, [], None, None), false) == Averaged(0.0, 0.0)
  {
  }

  /** With stored percentages the average is a percentage. */
  lemma AverageBounds(sv: SubjectView)
    requires forall i :: 0 <= i < |sv.dailyLogs| ==> 0.0 <= sv.dailyLogs[i].percentage <= 100.0
    ensures var st := SubjectStatsOf(sv, false); 0.0 <= st.average <= 100.0
  {
    SumPercentageBounds(sv.dailyLogs);
    if sv.dailyLogs != [] {
      var n := |sv.dailyLogs| as real;
      assert SumPercentage(sv.dailyLogs) / n <= 100.0 * n / n;
    }
  }

  /** `totalHours`: Σ totalHours (`totalCredits` is the server's Σ creditHours). */
  function TotalHours(subjects: seq<Subject>): real {
    if subjects == [] then 0.0 else subjects[0].totalHours + TotalHours(subjects[1..])
  }

  /** Both totals grow by exactly the added subject's values. */
  lemma {:induction false} TotalsAppend(subjects: seq<Subject>, s: Subject)
    ensures TotalHours(subjects + [s]) == TotalHours(subjects) + s.totalHours
    ensures DailyLogController.SumCredits(subjects + [s]) == DailyLogController.SumCredits(subjects) + s.creditHours
  {
    if subjects == [] {
      assert [] + [s] == [s];
    } else {
      assert (subjects + [s])[1..] == subjects[1..] + [s];
      TotalsAppend(subjects[1..], s);
    }
  }

  /** Logs with the given status over all subjects. */
  function TotalStatus(subjects: seq<SubjectView>, st: LogStatus): nat {
    if subjects == [] then 0
    else TotalStatus(subjects[..|subjects| - 1], st) + CountStatus(subjects[|subjects| - 1].dailyLogs, st)
  }

  /** `overallStatus`: the pass and fail counts pooled over every subject. */
  method OverallStatus(subjects: seq<SubjectView>) returns (pass: bool)
    ensures pass <==> TotalStatus(subjects, Pass) >= TotalStatus(subjects, Fail)
  {
    var passCount := 0;
    var failCount := 0;
    var i := 0;
    while i < |subjects|
      invariant 0 <= i <= |subjects|
      invariant passCount == TotalStatus(subjects[..i], Pass)
      invariant failCount == TotalStatus(subjects[..i], Fail)
    {
      assert subjects[..i + 1][..i] == subjects[..i];
      passCount := passCount + CountStatus(subjects[i].dailyLogs, Pass);
      failCount := failCount + CountStatus(subjects[i].dailyLogs, Fail);
      i := i + 1;
    }
    assert subjects[..i] == subjects;
    return passCount >= failCount;
  }

  /** When every subject's majority is Pass, so is the overall status. */
  lemma {:induction false} EveryMajorityPasses(subjects: seq<SubjectView>)
    requires forall i :: 0 <= i < |subjects| ==>
      CountStatus(subjects[i].dailyLogs, Pass) >= CountStatus(subjects[i].dailyLogs, Fail)
    ensures TotalStatus(subjects, Pass) >= TotalStatus(subjects, Fail)
  {
    if subjects != [] {
      EveryMajorityPasses(subjects[..|subjects| - 1]);
    }
  }

  /** A pass/fail cell or a percentage cell. */
  datatype LogCell = PassFail(pass: bool) | Percentage(p: real)

  /** One entry of the log list; `day` is the midnight (UTC) of the log's creation. */
  datatype LogEntry = LogEntry(subjectName: string, day: int, comment: string, cell: LogCell)

  /** The entry a log becomes; a primary student's log shows Pass only for status 'pass'. */
  function EntryOf(subjectName: string, log: DailyLog, primary: bool): (e: LogEntry)
    ensures e.day == Calendar.DayStart(log.logDate)
    ensures primary ==> e.cell == PassFail(log.status == Some(Pass))
    ensures !primary ==> e.cell == Percentage(log.percentage)
  {
    LogEntry(subjectName, Calendar.DayStart(log.logDate), log.comment,
      if primary then PassFail(log.status == Some(Pass)) else Percentage(log.percentage))
  }

  /** A primary log without a status is shown as failed. */
  lemma NullStatusShowsFail(subjectName: string, log: DailyLog)
    requires log.status.None?
    ensures EntryOf(subjectName, log, true).cell == PassFail(false)
  {
  }

  /** `allLogs`: every subject's logs, subject by subject. */
  function AllEntries(subjects: seq<SubjectView>, primary: bool): seq<LogEntry> {
    if subjects == [] then []
    else
      var sv := subjects[0];
      seq(|sv.dailyLogs|, i requires 0 <= i < |sv.dailyLogs| => EntryOf(sv.subject.subjectName, sv.dailyLogs[i], primary))
      + AllEntries(subjects[1..], primary)
  }

  /** The choices of the date filter. */
  datatype LogFilter = All | Today | LastWeek | LastMonth | LastYear | OtherFilter

  /**
   * `filterLogsByDate`. `monthAgo` and `yearAgo` are the instants the browser's
   * calendar gives one month and one year before `now`.
   */
  function FilterLogsByDate(mode: LogFilter, entries: seq<LogEntry>, now: int, monthAgo: int, yearAgo: int): (r: seq<LogEntry>)
    ensures mode.All? || mode.OtherFilter? ==> r == entries
    ensures mode.Today? ==> (forall e :: e in r <==> e in entries && e.day == Calendar.DayStart(now))
    ensures mode.LastWeek? ==> (forall e :: e in r <==> e in entries && e.day >= now - 7 * Calendar.DayMillis)
    ensures mode.LastMonth? ==> (forall e :: e in r <==> e in entries && e.day >= monthAgo)
    ensures mode.LastYear? ==> (forall e :: e in r <==> e in entries && e.day >= yearAgo)
  {
    match mode
    case All => entries
    case Today => Seqs.Filter(entries, (e: LogEntry) => e.day == Calendar.DayStart(now))
    case LastWeek => Seqs.Filter(entries, (e: LogEntry) => e.day >= now - 7 * Calendar.DayMillis)
    case LastMonth => Seqs.Filter(entries, (e: LogEntry) => e.day >= monthAgo)
    case LastYear => Seqs.Filter(entries, (e: LogEntry) => e.day >= yearAgo)
    case OtherFilter => entries
  }

  /** Every filter keeps entries in their order. */
  lemma FilterKeepsOrder(mode: LogFilter, entries: seq<LogEntry>, now: int, monthAgo: int, yearAgo: int)
    ensures Seqs.IsSubsequence(FilterLogsByDate(mode, entries, now, monthAgo, yearAgo), entries)
  {
    match mode
    case All => Seqs.SubsequenceRefl(entries);
    case Today => Seqs.FilterIsSubsequence(entries, (e: LogEntry) => e.day == Calendar.DayStart(now));
    case LastWeek => Seqs.FilterIsSubsequence(entries, (e: LogEntry) => e.day >= now - 7 * Calendar.DayMillis);
    case LastMonth => Seqs.FilterIsSubsequence(entries, (e: LogEntry) => e.day >= monthAgo);
    case LastYear => Seqs.FilterIsSubsequence(entries, (e: LogEntry) => e.day >= yearAgo);
    case OtherFilter => Seqs.SubsequenceRefl(entries);
  }

  /** The entries of one day, in list order. */
  function GroupOf(entries: seq<LogEntry>, day: int): seq<LogEntry> {
    Seqs.Group(entries, (e: LogEntry) => e.day, day)
  }

  /** The days sorted newest first. */
  method SortDays(order: seq<int>) returns (dates: seq<int>)
    requires Seqs.Distinct(order)
    ensures forall d :: d in dates <==> d in order
    ensures forall i, j :: 0 <= i < j < |dates| ==> dates[i] > dates[j]
  {
    dates := Seqs.SortBy(order, (d: int) => -d);
    assert forall d :: d in dates <==> d in multiset(order);
    Seqs.DistinctPermutation(order, dates);
  }

  /**
   * The filling of `logsByDate` from the filtered entries, and its keys
   * sorted newest day first: every entry is in the group of its day and in
   * no other.
   */
  method GroupByDate(entries: seq<LogEntry>) returns (dates: seq<int>, groups: map<int, seq<LogEntry>>)
    ensures forall k :: 0 <= k < |entries| ==> entries[k].day in groups
    ensures forall d :: d in groups ==> groups[d] == GroupOf(entries, d) && groups[d] != []
    ensures forall k, d :: 0 <= k < |entries| && d in groups ==> (entries[k] in groups[d] <==> entries[k].day == d)
    ensures forall d :: d in dates <==> d in groups
    ensures forall i, j :: 0 <= i < j < |dates| ==> dates[i] > dates[j]
  {
    var key := (e: LogEntry) => e.day;
    var order;
    groups, order := Seqs.GroupInto(entries, key);
    Seqs.KeysSpec(entries, key);
    forall d | d in groups ensures groups[d] != [] {
      var k :| 0 <= k < |entries| && key(entries[k]) == d;
      Seqs.GroupMembership(entries, key, k, d);
    }
    forall k, d | 0 <= k < |entries| && d in groups ensures entries[k] in groups[d] <==> entries[k].day == d {
      Seqs.GroupMembership(entries, key, k, d);
    }
    dates := SortDays(order);
  }
}
