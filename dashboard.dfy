/**
 * The parent dashboard's figures for the selected student: study hours of the
 * last week, grade points by month, the subject pie, and the mean GPA of all
 * students.
 */
module Dashboard {
  import opened Wrappers
  import opened Models
  import Seqs
  import Calendar
  import JsValues
  import ViewStudentModal
  import DailyLogController

  // ---------------------------------------------------------------------------
  // Study hours of the last week

  /** Minutes of the logs dated at or after `cutoff`. */
  function RecentMinutes(logs: seq<DailyLog>, cutoff: int): int {
    if logs == [] then 0
    else RecentMinutes(logs[..|logs| - 1], cutoff) + (if logs[|logs| - 1].date >= cutoff then logs[|logs| - 1].studyTimeMinutes else 0)
  }

  /** The same over every subject. */
  function WeekMinutes(subjects: seq<SubjectView>, cutoff: int): int {
    if subjects == [] then 0
    else WeekMinutes(subjects[..|subjects| - 1], cutoff) + RecentMinutes(subjects[|subjects| - 1].dailyLogs, cutoff)
  }

  /**
   * `getLastWeekStudyHours`: the minutes of logs dated within seven days
   * before `now`, in hours; 0 with no student selected.
   */
  method GetLastWeekStudyHours(selected: Option<StudentView>, now: int) returns (hours: real)
    ensures selected.None? ==> hours == 0.0
    ensures selected.Some? ==> hours == WeekMinutes(selected.value.subjects, now - 7 * Calendar.DayMillis) as real / 60.0
  {
    if selected.None? {
      return 0.0;
    }
    var subjects := selected.value.subjects;
    var cutoff := now - 7 * Calendar.DayMillis;
    var minutes := 0;
    var i := 0;
    while i < |subjects|
      invariant 0 <= i <= |subjects|
      invariant minutes == WeekMinutes(subjects[..i], cutoff)
    {
      assert subjects[..i + 1][..i] == subjects[..i];
      var logs := subjects[i].dailyLogs;
      var j := 0;
      var inner := 0;
      while j < |logs|
        invariant 0 <= j <= |logs|
        invariant inner == RecentMinutes(logs[..j], cutoff)
      {
        assert logs[..j + 1][..j] == logs[..j];
        if logs[j].date >= cutoff {
          inner := inner + logs[j].studyTimeMinutes;
        }
        j := j + 1;
      }
      assert logs[..j] == logs;
      minutes := minutes + inner;
      i := i + 1;
    }
    assert subjects[..i] == subjects;
    return minutes as real / 60.0;
  }

  /** Logs older than the cutoff add nothing. */
  lemma {:induction false} OldLogsAddNothing(logs: seq<DailyLog>, cutoff: int)
    requires forall i :: 0 <= i < |logs| ==> logs[i].date < cutoff
    ensures RecentMinutes(logs, cutoff) == 0
  {
    if logs != [] {
      OldLogsAddNothing(logs[..|logs| - 1], cutoff);
    }
  }

  /** Minutes of all the logs. */
  function AllMinutes(logs: seq<DailyLog>): int {
    if logs == [] then 0 else AllMinutes(logs[..|logs| - 1]) + logs[|logs| - 1].studyTimeMinutes
  }

  /** With non-negative study times the weekly minutes are between 0 and the minutes of all logs. */
  lemma {:induction false} RecentMinutesBounds(logs: seq<DailyLog>, cutoff: int)
    requires forall i :: 0 <= i < |logs| ==> logs[i].studyTimeMinutes >= 0
    ensures 0 <= RecentMinutes(logs, cutoff) <= AllMinutes(logs)
  {
    if logs != [] {
      RecentMinutesBounds(logs[..|logs| - 1], cutoff);
    }
  }

  // ---------------------------------------------------------------------------
  // Grade points by month

  /** The dashboard's `percentageToGPA`. */
  function PercentageToGpa(pct: real): (g: real)
    ensures 0.0 <= g <= 4.0
  {
    if pct >= 97.0 then 4.0
    else if pct >= 93.0 then 4.0
    else if pct >= 90.0 then 3.7
    else if pct >= 87.0 then 3.3
    else if pct >= 83.0 then 3.0
    else if pct >= 80.0 then 2.7
    else if pct >= 77.0 then 2.3
    else if pct >= 73.0 then 2.0
    else if pct >= 70.0 then 1.7
    else if pct >= 67.0 then 1.3
    else if pct >= 65.0 then 1.0
    else 0.0
  }

  /** The dashboard's scale is the overview's 12-step scale. */
  lemma SameScaleAsOverview(pct: real)
    ensures PercentageToGpa(pct) == ViewStudentModal.Scale12(pct)
  {
  }

  /** Every subject's logs, subject by subject. */
  function AllLogs(subjects: seq<SubjectView>): seq<DailyLog> {
    if subjects == [] then [] else subjects[0].dailyLogs + AllLogs(subjects[1..])
  }

  /** The logs the monthly chart reads: those with a percentage above 0. */
  function GradedLogs(subjects: seq<SubjectView>): (r: seq<DailyLog>)
    ensures forall l :: l in r <==> l in AllLogs(subjects) && l.percentage > 0.0
  {
    Seqs.Filter(AllLogs(subjects), (l: DailyLog) => l.percentage > 0.0)
  }

  /** `${getFullYear()}-${getMonth()}` of the log's date, as a (year, month 0..11) pair. */
  function MonthKey(l: DailyLog): (int, int) {
    var c := Calendar.CivilFromDays(Calendar.DayOf(l.date));
    (c.year, c.month - 1)
  }

  /** One point of the chart: the month (0 = January) and its grade point. */
  datatype MonthGpa = MonthGpa(month: int, gpa: real)

  /** The grade point of a month: the scale applied to the plain mean of its percentages. */
  function BucketGpa(group: seq<DailyLog>): real
    requires group != []
  {
    PercentageToGpa(SumPercentage(group) / (|group| as real))
  }

  /** `Object.values(monthMap).map(...)`: one point per (year, month) key, in insertion order. */
  function Buckets(logs: seq<DailyLog>, keys: seq<(int, int)>): (r: seq<MonthGpa>)
    requires forall i :: 0 <= i < |keys| ==> Seqs.Group(logs, MonthKey, keys[i]) != []
    ensures |r| == |keys|
    ensures forall i :: 0 <= i < |r| ==> r[i] == MonthGpa(keys[i].1, BucketGpa(Seqs.Group(logs, MonthKey, keys[i])))
  {
    seq(|keys|, i requires 0 <= i < |keys| => MonthGpa(keys[i].1, BucketGpa(Seqs.Group(logs, MonthKey, keys[i]))))
  }

  /** Every key of the graded logs has a non-empty group. */
  lemma KeysHaveLogs(logs: seq<DailyLog>)
    ensures forall k :: k in Seqs.Keys(logs, MonthKey) ==> Seqs.Group(logs, MonthKey, k) != []
  {
    Seqs.KeysSpec(logs, MonthKey);
    forall k | k in Seqs.Keys(logs, MonthKey) ensures Seqs.Group(logs, MonthKey, k) != [] {
      var i :| 0 <= i < |logs| && MonthKey(logs[i]) == k;
      Seqs.GroupMembership(logs, MonthKey, i, k);
    }
  }

  /** The month index, the sort key of `new Date(`1 ${month} 2020`)`. */
  function MonthOf(b: MonthGpa): int { b.month }

  /** `getMonthlyGpaData` as a value: the points sorted (stably) by month of the year. */
  function MonthlyGpa(subjects: seq<SubjectView>): seq<MonthGpa> {
    var logs := GradedLogs(subjects);
    KeysHaveLogs(logs);
    Seqs.SortBy(Buckets(logs, Seqs.Keys(logs, MonthKey)), MonthOf)
  }

  /** `getMonthlyGpaData`: fill `monthMap` from the graded logs, then average and sort. */
  method GetMonthlyGpaData(selected: Option<StudentView>) returns (data: seq<MonthGpa>)
    ensures selected.None? ==> data == []
    ensures selected.Some? ==> data == MonthlyGpa(selected.value.subjects)
  {
    if selected.None? {
      return [];
    }
    var logs := GradedLogs(selected.value.subjects);
    var monthMap, order := Seqs.GroupInto(logs, MonthKey);
    KeysHaveLogs(logs);
    var buckets := Buckets(logs, order);
    var points: seq<MonthGpa> := [];
    var i := 0;
    while i < |order|
      invariant 0 <= i <= |order|
      invariant points == buckets[..i]
    {
      assert order[i] in monthMap;
      var point := MonthGpa(order[i].1, BucketGpa(monthMap[order[i]]));
      assert point == buckets[i];
      Seqs.PrefixSnoc(buckets, i);
      points := points + [point];
      i := i + 1;
    }
    assert points == buckets;
    data := Seqs.SortBy(points, MonthOf);
  }

  /**
   * One point per (year, month), each a grade point of the scale, sorted by
   * month of the year whatever the year: a January comes before the previous
   * December.
   */
  lemma MonthlyGpaSpec(subjects: seq<SubjectView>)
    ensures var data := MonthlyGpa(subjects);
      && |data| == |Seqs.Keys(GradedLogs(subjects), MonthKey)|
      && Seqs.Distinct(Seqs.Keys(GradedLogs(subjects), MonthKey))
      && (forall i :: 0 <= i < |data| ==> 0.0 <= data[i].gpa <= 4.0)
      && (forall i, j :: 0 <= i < |data| && 0 <= j < |data| && data[i].month < data[j].month ==> i < j)
  {
    var logs := GradedLogs(subjects);
    Seqs.KeysSpec(logs, MonthKey);
    KeysHaveLogs(logs);
    var points := Buckets(logs, Seqs.Keys(logs, MonthKey));
    var data := MonthlyGpa(subjects);
    assert data == Seqs.SortBy(points, MonthOf);
    PointsInScale(points, data);
    SortedByMonth(data);
  }

  /** A permutation of points of the scale holds points of the scale. */
  lemma PointsInScale(points: seq<MonthGpa>, data: seq<MonthGpa>)
    requires forall i :: 0 <= i < |points| ==> 0.0 <= points[i].gpa <= 4.0
    requires multiset(data) == multiset(points)
    ensures forall i :: 0 <= i < |data| ==> 0.0 <= data[i].gpa <= 4.0
  {
    forall i | 0 <= i < |data| ensures 0.0 <= data[i].gpa <= 4.0 {
      assert data[i] in multiset(points);
    }
  }

  lemma SortedByMonth(data: seq<MonthGpa>)
    requires Seqs.SortedBy(data, MonthOf)
    ensures forall i, j :: 0 <= i < |data| && 0 <= j < |data| && data[i].month < data[j].month ==> i < j
  {
    forall i, j | 0 <= i < |data| && 0 <= j < |data| && data[i].month < data[j].month ensures i < j {
      assert !(j <= i && MonthOf(data[j]) <= MonthOf(data[i]));
    }
  }

  /** A log graded 0 (every primary log) never reaches the chart. */
  lemma UngradedLogsIgnored(subjects: seq<SubjectView>, l: DailyLog)
    requires l.percentage <= 0.0
    ensures l !in GradedLogs(subjects)
  {
  }

  // ---------------------------------------------------------------------------
  // Subject pie

  /** A slice of the pie. */
  datatype Slice = Slice(name: string, value: real)

  /** `sub.subjectName || "Unnamed"`. */
  function SliceName(s: Subject): string {
    if s.subjectName == "" then "Unnamed" else s.subjectName
  }

  /** The pie shows hours for a blank, 'Carnegie Unit' or 'Local' definition. */
  predicate PieByHours(creditDefinition: string) {
    creditDefinition == "" || creditDefinition == "Carnegie Unit" || creditDefinition == "Local"
  }

  /** `getPieData` for the selected student's subjects. */
  function PieData(subjects: seq<Subject>, creditDefinition: string): (r: seq<Slice>)
    ensures PieByHours(creditDefinition) ==>
      && |r| == |subjects|
      && forall i :: 0 <= i < |r| ==> r[i] == Slice(SliceName(subjects[i]), JsValues.MathRound(subjects[i].totalHours) as real)
    ensures !PieByHours(creditDefinition) ==>
      r == CompletedSlices(Seqs.Filter(subjects, (s: Subject) => s.isCompleted))
  {
    if PieByHours(creditDefinition) then
      seq(|subjects|, i requires 0 <= i < |subjects| =>
        Slice(SliceName(subjects[i]), JsValues.MathRound(subjects[i].totalHours) as real))
    else CompletedSlices(Seqs.Filter(subjects, (s: Subject) => s.isCompleted))
  }

  /** `.map(sub => ({ name, value: Number(sub.creditHours) || 0 }))` over the completed subjects. */
  function CompletedSlices(completed: seq<Subject>): (r: seq<Slice>)
    ensures |r| == |completed|
    ensures forall i :: 0 <= i < |r| ==> r[i] == Slice(SliceName(completed[i]), completed[i].creditHours)
  {
    seq(|completed|, i requires 0 <= i < |completed| => Slice(SliceName(completed[i]), completed[i].creditHours))
  }

  /** In a completion state, only completed subjects get a slice. */
  lemma PieShowsCompletedOnly(subjects: seq<Subject>, creditDefinition: string, i: nat)
    requires !PieByHours(creditDefinition) && i < |PieData(subjects, creditDefinition)|
    ensures exists s :: s in subjects && s.isCompleted && PieData(subjects, creditDefinition)[i] == Slice(SliceName(s), s.creditHours)
  {
    var completed := Seqs.Filter(subjects, (s: Subject) => s.isCompleted);
    assert completed[i] in subjects && completed[i].isCompleted;
  }

  /**
   * The definition the pie reads: `selectedData.user.state.creditDefinition`,
   * then `selectedData.state.creditDefinition`, then "".
   */
  function PieDefinition(userStateDefinition: Option<string>, stateDefinition: Option<string>): (d: string)
    ensures JsValues.Falsy(Str0(userStateDefinition)) && JsValues.Falsy(Str0(stateDefinition)) ==> d == ""
  {
    if userStateDefinition.Some? && userStateDefinition.value != "" then userStateDefinition.value
    else if stateDefinition.Some? && stateDefinition.value != "" then stateDefinition.value
    else ""
  }

  /** An optional string as a JavaScript value. */
  function Str0(s: Option<string>): JsValues.JsValue {
    if s.None? then JsValues.Undefined else JsValues.Str(s.value)
  }

  /**
   * `GET /api/students/:id` returns the student with its `user` as an id and
   * no `state`, so both lookups are undefined and the pie always shows hours.
   */
  lemma StudentReplyPieIsHours(subjects: seq<Subject>)
    ensures PieByHours(PieDefinition(None, None))
    ensures |PieData(subjects, PieDefinition(None, None))| == |subjects|
  {
  }

  // ---------------------------------------------------------------------------
  // Recent activities

  /** `selectedData.activities.slice(0, 5).map(a => a.heading)`. */
  function RecentActivities(activities: seq<Activity>): (r: seq<string>)
    ensures |r| == if |activities| < 5 then |activities| else 5
    ensures forall i :: 0 <= i < |r| ==> r[i] == activities[i].heading
  {
    var n := if |activities| < 5 then |activities| else 5;
    seq(n, i requires 0 <= i < n => activities[i].heading)
  }

  /**
   * `addActivity` appends, so once a student has five activities the list
   * shows the five oldest and a new one never appears.
   */
  lemma NewActivityNotShown(activities: seq<Activity>, a: Activity)
    requires |activities| >= 5
    ensures RecentActivities(activities + [a]) == RecentActivities(activities)
  {
  }

  // ---------------------------------------------------------------------------
  // Mean GPA

  function SumGpa(students: seq<StudentView>): real {
    if students == [] then 0.0 else students[0].gpa + SumGpa(students[1..])
  }

  /** `avgGPA`: the mean stored GPA of the parent's students, 0 with none. */
  function AvgGpa(students: seq<StudentView>): (r: real)
    ensures students == [] ==> r == 0.0
    ensures students != [] ==> r * (|students| as real) == SumGpa(students)
  {
    if |students| > 0 then SumGpa(students) / (|students| as real) else 0.0
  }

  lemma {:induction false} SumGpaBounds(students: seq<StudentView>)
    requires forall i :: 0 <= i < |students| ==> 0.0 <= students[i].gpa <= 4.0
    ensures 0.0 <= SumGpa(students) <= 4.0 * (|students| as real)
  {
    if students != [] {
      SumGpaBounds(students[1..]);
    }
  }

  /** Stored GPAs lie in [0, 4], so their mean does too. */
  lemma AvgGpaBounds(students: seq<StudentView>)
    requires forall i :: 0 <= i < |students| ==> 0.0 <= students[i].gpa <= 4.0
    ensures 0.0 <= AvgGpa(students) <= 4.0
  {
    SumGpaBounds(students);
  }
}
