/**
 * The transcript page: one row per subject and the credit total, under the
 * state's credit definition and the student's grade.
 */
module TranscriptPreview {
  import opened Wrappers
  import opened Models
  import DailyLogController
  import JsValues

  /** `calculateGPAFromPercent`: 90/80/70/60 map to 4/3/2/1, anything lower to 0. */
  function CalculateGpaFromPercent(percent: real): (g: real)
    ensures g == 0.0 || g == 1.0 || g == 2.0 || g == 3.0 || g == 4.0
  {
    if percent >= 90.0 then 4.0
    else if percent >= 80.0 then 3.0
    else if percent >= 70.0 then 2.0
    else if percent >= 60.0 then 1.0
    else 0.0
  }

  /** The transcript's scale is the one the server stores `gpa` with. */
  lemma SameScaleAsServer(percent: real)
    ensures CalculateGpaFromPercent(percent) == DailyLogController.PercentageToGpa(percent)
  {
  }

  /** The definitions whose credits come from hours: exactly 'Carnegie Unit' and 'Local'. */
  predicate HoursBased(creditDefinition: string) {
    creditDefinition == "Carnegie Unit" || creditDefinition == "Local"
  }

  /** `!isNaN(gradeNum) && gradeNum >= 6`. */
  predicate Graded(gradeNum: Option<int>) {
    gradeNum.Some? && gradeNum.value >= 6
  }

  /** `passCount >= failCount` over a subject's logs; true with no logs. */
  predicate Passed(logs: seq<DailyLog>) {
    CountStatus(logs, Pass) >= CountStatus(logs, Fail)
  }

  /**
   * The subject's percentage: from its marks when `totalMarks > 0` and
   * `obtainedMarks >= 0`, otherwise the plain mean of its logs' percentages
   * (every stored log has a numeric percentage), `None` with no logs.
   */
  function Percent(sv: SubjectView): (p: Option<real>)
    ensures sv.totalMarks.Some? && sv.totalMarks.value > 0.0 && sv.obtainedMarks.Some? && sv.obtainedMarks.value >= 0.0 ==>
      p == Some(sv.obtainedMarks.value / sv.totalMarks.value * 100.0)
    ensures !(sv.totalMarks.Some? && sv.totalMarks.value > 0.0 && sv.obtainedMarks.Some? && sv.obtainedMarks.value >= 0.0) ==>
      p == (if sv.dailyLogs == [] then None else Some(SumPercentage(sv.dailyLogs) / (|sv.dailyLogs| as real)))
  {
    if sv.totalMarks.Some? && sv.totalMarks.value > 0.0 && sv.obtainedMarks.Some? && sv.obtainedMarks.value >= 0.0 then
      Some(sv.obtainedMarks.value / sv.totalMarks.value * 100.0)
    else if sv.dailyLogs == [] then None
    else Some(SumPercentage(sv.dailyLogs) / (|sv.dailyLogs| as real))
  }

  /** Without marks, the percentage of stored logs is within [0, 100]. */
  lemma PercentFromLogsBounds(sv: SubjectView)
    requires sv.totalMarks.None? && sv.dailyLogs != []
    requires forall i :: 0 <= i < |sv.dailyLogs| ==> 0.0 <= sv.dailyLogs[i].percentage <= 100.0
    ensures 0.0 <= Percent(sv).value <= 100.0
  {
    SumPercentageBounds(sv.dailyLogs);
    var n := |sv.dailyLogs| as real;
    assert SumPercentage(sv.dailyLogs) / n <= 100.0 * n / n;
  }

  /** The "Final Grade"/"Status" cell. */
  datatype FinalGrade = Rounded(n: int) | NoPercent | PassMark | FailMark | Incomplete | Completed

  /** One transcript row; `courseGpa` is `None` where the cell shows a dash. */
  datatype Row = Row(subjectName: string, finalGrade: FinalGrade, earnedCredits: real, courseGpa: Option<real>)

  /** The row of a subject. */
  function RowOf(sv: SubjectView, creditDefinition: string, gradeNum: Option<int>): (r: Row)
    ensures r.subjectName == sv.subject.subjectName
    ensures HoursBased(creditDefinition) && Graded(gradeNum) ==>
      && r.earnedCredits == sv.subject.creditHours
      && r.finalGrade == (if Percent(sv).Some? then Rounded(JsValues.MathRound(Percent(sv).value)) else NoPercent)
      && r.courseGpa == (if Percent(sv).Some? then Some(CalculateGpaFromPercent(Percent(sv).value)) else None)
    ensures HoursBased(creditDefinition) && !Graded(gradeNum) ==>
      && r.courseGpa.None?
      && r.finalGrade == (if sv.dailyLogs == [] then Incomplete else if Passed(sv.dailyLogs) then PassMark else FailMark)
      && r.earnedCredits == (if r.finalGrade == PassMark then sv.subject.creditHours else 0.0)
    ensures !HoursBased(creditDefinition) ==>
      && r.courseGpa.None?
      && r.finalGrade == (if sv.subject.isCompleted then Completed else Incomplete)
      && r.earnedCredits == (if sv.subject.isCompleted then sv.subject.creditHours else 0.0)
  {
    var credit := sv.subject.creditHours;
    var logs := sv.dailyLogs;
    var percent := Percent(sv);
    if HoursBased(creditDefinition) then
      if Graded(gradeNum) then
        Row(sv.subject.subjectName,
            if percent.Some? then Rounded(JsValues.MathRound(percent.value)) else NoPercent,
            credit,
            if percent.Some? then Some(CalculateGpaFromPercent(percent.value)) else None)
      else
        var mark := if logs == [] then Incomplete else if Passed(logs) then PassMark else FailMark;
        Row(sv.subject.subjectName, mark, if mark == PassMark then credit else 0.0, None)
    else
      Row(sv.subject.subjectName, if sv.subject.isCompleted then Completed else Incomplete,
          if sv.subject.isCompleted then credit else 0.0, None)
  }

  /** A subject's contribution to `totalCredits`. */
  function CreditOf(sv: SubjectView, creditDefinition: string, gradeNum: Option<int>): real {
    if HoursBased(creditDefinition) then
      if Graded(gradeNum) then sv.subject.creditHours
      else if Passed(sv.dailyLogs) then sv.subject.creditHours else 0.0
    else if sv.subject.isCompleted then sv.subject.creditHours else 0.0
  }

  /** `totalCredits`: the reduce over the subjects. */
  function TotalCredits(subjects: seq<SubjectView>, creditDefinition: string, gradeNum: Option<int>): real {
    if subjects == [] then 0.0
    else CreditOf(subjects[0], creditDefinition, gradeNum) + TotalCredits(subjects[1..], creditDefinition, gradeNum)
  }

  /** Σ creditHours over all subjects. */
  function AllCredits(subjects: seq<SubjectView>): real {
    if subjects == [] then 0.0 else subjects[0].subject.creditHours + AllCredits(subjects[1..])
  }

  /** Σ of the rows' earned credits. */
  function RowCredits(subjects: seq<SubjectView>, creditDefinition: string, gradeNum: Option<int>): real {
    if subjects == [] then 0.0
    else RowOf(subjects[0], creditDefinition, gradeNum).earnedCredits + RowCredits(subjects[1..], creditDefinition, gradeNum)
  }

  /** With non-negative credit hours, the total lies between 0 and the sum of all credit hours. */
  lemma {:induction false} TotalCreditsBounds(subjects: seq<SubjectView>, creditDefinition: string, gradeNum: Option<int>)
    requires forall i :: 0 <= i < |subjects| ==> subjects[i].subject.creditHours >= 0.0
    ensures 0.0 <= TotalCredits(subjects, creditDefinition, gradeNum) <= AllCredits(subjects)
  {
    if subjects != [] {
      TotalCreditsBounds(subjects[1..], creditDefinition, gradeNum);
    }
  }

  /**
   * The total is the sum of the rows except for primary subjects without logs
   * in an hours-based state: those count toward the total (0 passes are not
   * fewer than 0 failures) while their row shows no credit.
   */
  lemma {:induction false} TotalMatchesRows(subjects: seq<SubjectView>, creditDefinition: string, gradeNum: Option<int>)
    requires !(HoursBased(creditDefinition) && !Graded(gradeNum)) ||
      forall i :: 0 <= i < |subjects| ==> subjects[i].dailyLogs != []
    ensures TotalCredits(subjects, creditDefinition, gradeNum) == RowCredits(subjects, creditDefinition, gradeNum)
  {
    if subjects != [] {
      TotalMatchesRows(subjects[1..], creditDefinition, gradeNum);
    }
  }

  /** The discrepancy: a primary subject with no logs adds its credit hours to the total but shows 0.00. */
  lemma ZeroLogSubjectCounted(sv: SubjectView, creditDefinition: string, gradeNum: Option<int>)
    requires HoursBased(creditDefinition) && !Graded(gradeNum) && sv.dailyLogs == []
    ensures TotalCredits([sv], creditDefinition, gradeNum) == sv.subject.creditHours
    ensures RowOf(sv, creditDefinition, gradeNum).earnedCredits == 0.0
    ensures RowOf(sv, creditDefinition, gradeNum).finalGrade == Incomplete
  {
    assert [sv][1..] == [];
  }

  /** The summary under the rows; `cumulativeGpa` is `None` where the page says GPA is not applicable. */
  datatype Summary = Summary(totalCredits: real, cumulativeGpa: Option<real>)

  /**
   * The transcript's summary. The cumulative GPA is the student's stored
   * `gpa`, not anything computed from the rows.
   */
  function SummaryOf(student: StudentView, creditDefinition: string): (s: Summary)
    ensures s.totalCredits == TotalCredits(student.subjects, creditDefinition, GradeNumber(student.info.grade))
    ensures s.cumulativeGpa.Some? <==> HoursBased(creditDefinition) && Graded(GradeNumber(student.info.grade))
    ensures s.cumulativeGpa.Some? ==> s.cumulativeGpa.value == student.gpa
  {
    var gradeNum := GradeNumber(student.info.grade);
    Summary(TotalCredits(student.subjects, creditDefinition, gradeNum),
            if HoursBased(creditDefinition) && Graded(gradeNum) then Some(student.gpa) else None)
  }

  /** Only the exact spellings count as hours-based: the lower-case "local" is not. */
  lemma RegimeIsCaseSensitive(sv: SubjectView, gradeNum: Option<int>)
    ensures !HoursBased("local")
    ensures RowOf(sv, "local", gradeNum).courseGpa.None?
  {
  }
}
