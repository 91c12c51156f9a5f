/**
 * The credit and GPA engine of the backend: logging study time against a
 * subject, the credit step function, the coarse grade scale, the pooled GPA
 * recalculation and the completion toggle.
 */
module DailyLogController {
  import opened Wrappers
  import Text
  import Seqs
  import Calendar
  import opened Models
  import Http

  // ---------------------------------------------------------------------------
  // Credits

  /**
   * `calculateCredits(hours, hoursPerCredit)`. `None` is an undefined
   * hours-per-credit: every comparison with it is false, so the result is 0.
   */
  function CalculateCredits(hours: real, hoursPerCredit: Option<real>): (r: real)
    ensures r == 0.0 || r == 0.25 || r == 0.5 || r == 1.0
    ensures hoursPerCredit.None? ==> r == 0.0
  {
    match hoursPerCredit
    case None => 0.0
    case Some(hpc) =>
      if hours >= hpc then 1.0
      else if hours >= hpc / 2.0 then 0.5
      else if hours >= hpc / 4.0 then 0.25
      else 0.0
  }

  /** The buckets are closed at their lower end: hpc, hpc/2 and hpc/4. */
  lemma CreditThresholds(hours: real, hpc: real)
    requires hpc > 0.0
    ensures CalculateCredits(hours, Some(hpc)) == 1.0 <==> hours >= hpc
    ensures CalculateCredits(hours, Some(hpc)) == 0.5 <==> hpc / 2.0 <= hours < hpc
    ensures CalculateCredits(hours, Some(hpc)) == 0.25 <==> hpc / 4.0 <= hours < hpc / 2.0
    ensures CalculateCredits(hours, Some(hpc)) == 0.0 <==> hours < hpc / 4.0
  {
  }

  /** More hours never earn fewer credits. */
  lemma CreditsMonotone(h1: real, h2: real, hpc: real)
    requires hpc > 0.0 && h1 <= h2
    ensures CalculateCredits(h1, Some(hpc)) <= CalculateCredits(h2, Some(hpc))
  {
  }

  // ---------------------------------------------------------------------------
  // Coarse grade scale

  /** `percentageToGPA`: 90/80/70/60 map to 4/3/2/1, anything lower to 0. */
  function PercentageToGpa(pct: real): (g: real)
    ensures g == 0.0 || g == 1.0 || g == 2.0 || g == 3.0 || g == 4.0
    ensures pct >= 90.0 <==> g == 4.0
    ensures pct < 60.0 <==> g == 0.0
  {
    if pct >= 90.0 then 4.0
    else if pct >= 80.0 then 3.0
    else if pct >= 70.0 then 2.0
    else if pct >= 60.0 then 1.0
    else 0.0
  }

  /** A higher percentage never gives a lower grade point. */
  lemma PercentageToGpaMonotone(p: real, q: real)
    requires p <= q
    ensures PercentageToGpa(p) <= PercentageToGpa(q)
  {
  }

  // ---------------------------------------------------------------------------
  // GPA recalculation

  /** The logs `recalculateStudentGPA` keeps: a positive percentage and positive minutes. */
  predicate CountsForGpa(l: DailyLog) {
    l.percentage > 0.0 && l.studyTimeMinutes > 0
  }

  function GpaLogs(logs: seq<DailyLog>): (r: seq<DailyLog>)
    ensures |r| <= |logs|
    ensures forall i :: 0 <= i < |r| ==> CountsForGpa(r[i])
  {
    if logs == [] then []
    else if CountsForGpa(logs[0]) then [logs[0]] + GpaLogs(logs[1..])
    else GpaLogs(logs[1..])
  }

  /** The counted logs are exactly the logs that count, in their original order. */
  lemma {:induction false} GpaLogsSpec(logs: seq<DailyLog>)
    ensures forall i :: 0 <= i < |GpaLogs(logs)| ==> GpaLogs(logs)[i] in logs
    ensures forall i :: 0 <= i < |logs| && CountsForGpa(logs[i]) ==> logs[i] in GpaLogs(logs)
    ensures Seqs.IsSubsequence(GpaLogs(logs), logs)
  {
    if logs != [] {
      GpaLogsSpec(logs[1..]);
      assert logs == [logs[0]] + logs[1..];
      if CountsForGpa(logs[0]) {
        assert GpaLogs(logs)[1..] == GpaLogs(logs[1..]);
      } else {
        Seqs.SubsequenceSkip(GpaLogs(logs[1..]), logs[0], logs[1..]);
      }
    }
  }

  /** Σ creditHours over the subjects. */
  function SumCredits(subjects: seq<Subject>): real {
    if subjects == [] then 0.0 else subjects[0].creditHours + SumCredits(subjects[1..])
  }

  /** Σ percentage · minutes. */
  function WeightedTotal(logs: seq<DailyLog>): real {
    if logs == [] then 0.0
    else logs[0].percentage * (logs[0].studyTimeMinutes as real) + WeightedTotal(logs[1..])
  }

  /** Σ minutes. */
  function TotalTime(logs: seq<DailyLog>): int {
    if logs == [] then 0 else logs[0].studyTimeMinutes + TotalTime(logs[1..])
  }

  /** Σ p·m / Σ m over logs that all count. */
  function PooledMean(valid: seq<DailyLog>): real
    requires valid != [] && forall i :: 0 <= i < |valid| ==> CountsForGpa(valid[i])
  {
    TotalTimePositive(valid);
    WeightedTotal(valid) / (TotalTime(valid) as real)
  }

  /**
   * `recalculateStudentGPA`: the minute-weighted mean percentage of one flat
   * pool of logs, mapped through the coarse scale; 0 when no log counts or
   * when the subjects hold no credit at all.
   */
  function RecalculatedGpa(logs: seq<DailyLog>, subjects: seq<Subject>): (gpa: real)
    ensures 0.0 <= gpa <= 4.0
    ensures GpaLogs(logs) == [] ==> gpa == 0.0
    ensures SumCredits(subjects) == 0.0 ==> gpa == 0.0
  {
    var valid := GpaLogs(logs);
    if |valid| == 0 || SumCredits(subjects) == 0.0 then 0.0
    else PercentageToGpa(PooledMean(valid))
  }

  lemma {:induction false} TotalTimePositive(logs: seq<DailyLog>)
    requires logs != [] && forall i :: 0 <= i < |logs| ==> CountsForGpa(logs[i])
    ensures TotalTime(logs) > 0
  {
    assert CountsForGpa(logs[0]);
    if |logs| > 1 {
      TotalTimePositive(logs[1..]);
    }
  }

  /** One step of a weighted sum: the bounds carry over when a term with weight `m` is added. */
  lemma ScaleBounds(p: real, m: real, t: real, w: real, lo: real, hi: real)
    requires m > 0.0 && lo <= p <= hi && lo * t <= w <= hi * t
    ensures lo * (m + t) <= p * m + w <= hi * (m + t)
  {
    assert (p - lo) * m >= 0.0;
    assert (hi - p) * m >= 0.0;
    assert lo * (m + t) == lo * m + lo * t;
    assert hi * (m + t) == hi * m + hi * t;
  }

  /** A weighted total lies between the extreme percentages times the total time. */
  lemma {:induction false} WeightedTotalBounds(logs: seq<DailyLog>, lo: real, hi: real)
    requires forall i :: 0 <= i < |logs| ==> logs[i].studyTimeMinutes > 0 && lo <= logs[i].percentage <= hi
    ensures lo * (TotalTime(logs) as real) <= WeightedTotal(logs) <= hi * (TotalTime(logs) as real)
  {
    if logs != [] {
      WeightedTotalBounds(logs[1..], lo, hi);
      ScaleBounds(logs[0].percentage, logs[0].studyTimeMinutes as real,
                  TotalTime(logs[1..]) as real, WeightedTotal(logs[1..]), lo, hi);
    }
  }

  lemma ProductSign(x: real, t: real)
    requires t > 0.0 && x * t >= 0.0
    ensures x >= 0.0
  {
  }

  lemma QuotientBounds(w: real, t: real, lo: real, hi: real)
    requires t > 0.0 && lo * t <= w <= hi * t
    ensures lo <= w / t <= hi
  {
    var q := w / t;
    assert q * t == w;
    assert (q - lo) * t == w - lo * t;
    assert (hi - q) * t == hi * t - w;
    ProductSign(q - lo, t);
    ProductSign(hi - q, t);
  }

  /**
   * The pooled mean lies between the lowest and the highest percentage of the
   * counted logs.
   */
  lemma PooledMeanBounds(valid: seq<DailyLog>, lo: real, hi: real)
    requires valid != [] && forall i :: 0 <= i < |valid| ==> CountsForGpa(valid[i])
    requires forall i :: 0 <= i < |valid| ==> lo <= valid[i].percentage <= hi
    ensures lo <= PooledMean(valid) <= hi
  {
    TotalTimePositive(valid);
    WeightedTotalBounds(valid, lo, hi);
    QuotientBounds(WeightedTotal(valid), TotalTime(valid) as real, lo, hi);
  }

  /** When every counted log has the same percentage, the GPA is that percentage's grade point. */
  lemma UniformPercentageGpa(logs: seq<DailyLog>, subjects: seq<Subject>, p: real)
    requires GpaLogs(logs) != [] && SumCredits(subjects) != 0.0
    requires forall i :: 0 <= i < |GpaLogs(logs)| ==> GpaLogs(logs)[i].percentage == p
    ensures RecalculatedGpa(logs, subjects) == PercentageToGpa(p)
  {
    PooledMeanBounds(GpaLogs(logs), p, p);
  }

  /** Two log lists with the same percentages and minutes, entry by entry. */
  predicate SameWeights(a: seq<DailyLog>, b: seq<DailyLog>) {
    |a| == |b| &&
    forall i :: 0 <= i < |a| ==> a[i].percentage == b[i].percentage && a[i].studyTimeMinutes == b[i].studyTimeMinutes
  }

  lemma {:induction false} SameWeightsPool(a: seq<DailyLog>, b: seq<DailyLog>)
    requires SameWeights(a, b)
    ensures |GpaLogs(a)| == |GpaLogs(b)|
    ensures WeightedTotal(GpaLogs(a)) == WeightedTotal(GpaLogs(b))
    ensures TotalTime(GpaLogs(a)) == TotalTime(GpaLogs(b))
  {
    if a != [] {
      var a', b' := a[1..], b[1..];
      assert SameWeights(a', b') by {
        forall i | 0 <= i < |a'|
          ensures a'[i].percentage == b'[i].percentage && a'[i].studyTimeMinutes == b'[i].studyTimeMinutes
        {
          assert a'[i] == a[i + 1] && b'[i] == b[i + 1];
        }
      }
      SameWeightsPool(a', b');
      var ra := GpaLogs(a');
      var rb := GpaLogs(b');
      assert a[0].percentage == b[0].percentage && a[0].studyTimeMinutes == b[0].studyTimeMinutes;
      if CountsForGpa(a[0]) {
        var x, y := [a[0]] + ra, [b[0]] + rb;
        assert GpaLogs(a) == x && GpaLogs(b) == y;
        assert x[1..] == ra && y[1..] == rb;
        assert WeightedTotal(x) == a[0].percentage * (a[0].studyTimeMinutes as real) + WeightedTotal(ra);
        assert WeightedTotal(y) == b[0].percentage * (b[0].studyTimeMinutes as real) + WeightedTotal(rb);
      } else {
        assert GpaLogs(a) == ra;
        assert GpaLogs(b) == rb;
      }
    }
  }

  /**
   * The GPA is one pool: which subject, date or comment a log has makes no
   * difference, only its percentage and minutes; and the subjects matter only
   * through whether their credits add up to zero.
   */
  lemma GpaIsPooled(a: seq<DailyLog>, b: seq<DailyLog>, s1: seq<Subject>, s2: seq<Subject>)
    requires SameWeights(a, b)
    requires (SumCredits(s1) == 0.0) == (SumCredits(s2) == 0.0)
    ensures RecalculatedGpa(a, s1) == RecalculatedGpa(b, s2)
  {
    SameWeightsPool(a, b);
  }

  // ---------------------------------------------------------------------------
  // Subject lookup and registration

  /** The first subject whose trimmed, lower-cased name equals that of `name`. */
  function FindSubject(subjects: seq<Subject>, name: string): (r: Option<nat>)
    ensures r.Some? ==> r.value < |subjects| && Text.Normalize(subjects[r.value].subjectName) == Text.Normalize(name)
    ensures r.Some? ==> forall j :: 0 <= j < r.value ==> Text.Normalize(subjects[j].subjectName) != Text.Normalize(name)
    ensures r.None? ==> forall j :: 0 <= j < |subjects| ==> Text.Normalize(subjects[j].subjectName) != Text.Normalize(name)
  {
    FindSubjectFrom(subjects, name, 0)
  }

  function FindSubjectFrom(subjects: seq<Subject>, name: string, k: nat): (r: Option<nat>)
    requires k <= |subjects|
    ensures r.Some? ==> k <= r.value < |subjects| && Text.Normalize(subjects[r.value].subjectName) == Text.Normalize(name)
    ensures r.Some? ==> forall j :: k <= j < r.value ==> Text.Normalize(subjects[j].subjectName) != Text.Normalize(name)
    ensures r.None? ==> forall j :: k <= j < |subjects| ==> Text.Normalize(subjects[j].subjectName) != Text.Normalize(name)
    decreases |subjects| - k
  {
    if k == |subjects| then None
    else if Text.Normalize(subjects[k].subjectName) == Text.Normalize(name) then Some(k)
    else FindSubjectFrom(subjects, name, k + 1)
  }

  /** The subject list after lookup-or-register, and the position of the subject used. */
  datatype Registration = Registration(subjects: seq<Subject>, index: nat, created: bool)

  /**
   * Look the subject up by its key; when it is missing, append
   * `{ trim(name), 0, 0, false }`.
   */
  function Register(subjects: seq<Subject>, name: string): (r: Registration)
    ensures r.index < |r.subjects|
    ensures Text.Normalize(r.subjects[r.index].subjectName) == Text.Normalize(name)
    ensures !r.created ==> r.subjects == subjects && Some(r.index) == FindSubject(subjects, name)
    ensures r.created <==> FindSubject(subjects, name).None?
    ensures r.created ==> r.subjects == subjects + [NewSubject(Text.Trim(name))] && r.index == |subjects|
  {
    match FindSubject(subjects, name)
    case Some(i) => Registration(subjects, i, false)
    case None =>
      Text.NormalizeTrim(name);
      Registration(subjects + [NewSubject(Text.Trim(name))], |subjects|, true)
  }

  /** No two subjects share a key. */
  predicate DistinctNames(subjects: seq<Subject>) {
    forall i, j :: 0 <= i < j < |subjects| ==>
      Text.Normalize(subjects[i].subjectName) != Text.Normalize(subjects[j].subjectName)
  }

  /** Registration never creates a second subject with the same key. */
  lemma RegisterKeepsNamesDistinct(subjects: seq<Subject>, name: string)
    requires DistinctNames(subjects)
    ensures DistinctNames(Register(subjects, name).subjects)
  {
    var r := Register(subjects, name);
    if r.created {
      Text.NormalizeTrim(name);
    }
  }

  /** The first match is the only match when keys are distinct. */
  lemma FindSubjectUnique(subjects: seq<Subject>, name: string, k: nat)
    requires DistinctNames(subjects)
    requires k < |subjects| && Text.Normalize(subjects[k].subjectName) == Text.Normalize(name)
    ensures FindSubject(subjects, name) == Some(k)
  {
  }

  /** Registering a name whose key is already present changes nothing. */
  lemma RegisterIdempotent(subjects: seq<Subject>, name: string, again: string)
    requires Text.Normalize(again) == Text.Normalize(name)
    ensures Register(Register(subjects, name).subjects, again).subjects == Register(subjects, name).subjects
    ensures !Register(Register(subjects, name).subjects, again).created
  {
    var r := Register(subjects, name);
    assert FindSubject(r.subjects, again).Some?;
  }

  // ---------------------------------------------------------------------------
  // Study hours

  function Max(a: real, b: real): real {
    if a >= b then a else b
  }

  /**
   * The update after a log of `minutes` minutes: hours grow by minutes/60 (never
   * below 0) and the credits are recomputed from the new total, replacing the
   * old value.
   */
  function AddHours(s: Subject, minutes: int, hoursPerCredit: Option<real>): (r: Subject)
    ensures r.subjectName == s.subjectName && r.isCompleted == s.isCompleted
    ensures r.totalHours >= 0.0 && r.totalHours >= s.totalHours + (minutes as real) / 60.0
    ensures r.totalHours == s.totalHours + (minutes as real) / 60.0 || r.totalHours == 0.0
    ensures r.creditHours == CalculateCredits(r.totalHours, hoursPerCredit)
  {
    var hours := Max(s.totalHours + (minutes as real) / 60.0, 0.0);
    s.(totalHours := hours, creditHours := CalculateCredits(hours, hoursPerCredit))
  }

  /** The subject list after `createLog`: lookup-or-register, then add hours to that subject. */
  function SubjectsAfterLog(subjects: seq<Subject>, name: string, minutes: int, hoursPerCredit: Option<real>): seq<Subject> {
    var reg := Register(subjects, name);
    reg.subjects[reg.index := AddHours(reg.subjects[reg.index], minutes, hoursPerCredit)]
  }

  /**
   * Logging changes exactly one subject, the one matching the name, which is
   * appended when missing; every other subject is untouched.
   */
  lemma LogTouchesOneSubject(subjects: seq<Subject>, name: string, minutes: int, hpc: Option<real>)
    ensures var after := SubjectsAfterLog(subjects, name, minutes, hpc);
      var k := Register(subjects, name).index;
      && (|after| == |subjects| <==> FindSubject(subjects, name).Some?)
      && (|after| == |subjects| + 1 <==> FindSubject(subjects, name).None?)
      && k < |after|
      && Text.Normalize(after[k].subjectName) == Text.Normalize(name)
      && (forall j :: 0 <= j < |subjects| && j != k ==> after[j] == subjects[j])
      && (FindSubject(subjects, name).None? ==> after[k] == AddHours(NewSubject(Text.Trim(name)), minutes, hpc))
      && (FindSubject(subjects, name).Some? ==> after[k] == AddHours(subjects[k], minutes, hpc))
  {
  }

  /** Logging keeps subject keys distinct. */
  lemma LogKeepsNamesDistinct(subjects: seq<Subject>, name: string, minutes: int, hpc: Option<real>)
    requires DistinctNames(subjects)
    ensures DistinctNames(SubjectsAfterLog(subjects, name, minutes, hpc))
  {
    RegisterKeepsNamesDistinct(subjects, name);
    var reg := Register(subjects, name);
    var after := SubjectsAfterLog(subjects, name, minutes, hpc);
    assert forall j :: 0 <= j < |after| ==> after[j].subjectName == reg.subjects[j].subjectName;
  }

  // ---------------------------------------------------------------------------
  // The stored log

  /** `req.body` of `POST /api/dailylogs`. `None` stands for a value that is undefined or not a string. */
  datatype LogRequest = LogRequest(
    studentId: Id,
    subjectName: Option<string>,
    comment: Option<string>,
    percentage: Option<real>,   // parseFloat(percentage); None is NaN; an absent field defaults to 0
    studyTimeMinutes: int,      // an absent or null field counts as 0
    status: Option<string>)

  /** `Math.min(Math.max(pct || 0, 0), 100)`. */
  function StoredPercentage(p: Option<real>): (r: real)
    ensures 0.0 <= r <= 100.0
    ensures p.Some? && 0.0 <= p.value <= 100.0 ==> r == p.value
    ensures p.Some? && p.value > 100.0 ==> r == 100.0
    ensures (p.None? || p.value < 0.0) ==> r == 0.0
  {
    match p
    case None => 0.0
    case Some(v) => if v < 0.0 then 0.0 else if v > 100.0 then 100.0 else v
  }

  /** The status is kept only when it is one of the enum's strings; otherwise the default null. */
  function StoredStatus(s: Option<string>): (r: Option<LogStatus>)
    ensures r == Some(Pass) <==> s == Some("pass")
    ensures r == Some(Fail) <==> s == Some("fail")
    ensures r.None? <==> s != Some("pass") && s != Some("fail")
  {
    if s == Some("pass") then Some(Pass)
    else if s == Some("fail") then Some(Fail)
    else None
  }

  /** `parseInt(student.grade) > 5`: the student is graded by percentage. */
  predicate IsUpperGrade(grade: Option<string>) {
    var g := GradeNumber(grade);
    g.Some? && g.value > 5
  }

  /** The DailyLog document `createLog` saves. */
  function NewLog(req: LogRequest, subjectName: string, grade: Option<string>, now: int): (l: DailyLog)
    requires req.comment.Some?
    ensures l.student == req.studentId && l.subjectName == subjectName && l.comment == req.comment.value
    ensures l.date == Calendar.DayStart(now) && l.logDate == now && l.studyTimeMinutes == req.studyTimeMinutes
    ensures IsUpperGrade(grade) ==> l.percentage == StoredPercentage(req.percentage) && l.status.None?
    ensures !IsUpperGrade(grade) ==> l.percentage == 0.0 && l.status == StoredStatus(req.status)
    ensures 0.0 <= l.percentage <= 100.0
  {
    DailyLog(
      req.studentId, subjectName, Calendar.DayStart(now), req.comment.value,
      if IsUpperGrade(grade) then StoredPercentage(req.percentage) else 0.0,
      req.studyTimeMinutes,
      if IsUpperGrade(grade) then None else StoredStatus(req.status),
      now)
  }

  // ---------------------------------------------------------------------------
  // Handlers

  /**
   * `createLog`. `hoursPerCredit` is the value the handler reads for the
   * credit computation (see `WiredHoursPerCredit` for what it reads as written).
   */
  method CreateLog(students: StudentCollection, logs: LogCollection, req: LogRequest,
                   hoursPerCredit: Option<real>, now: int)
    returns (status: Http.Status, saved: Option<DailyLog>)
    modifies logs, Touched(students.Find(req.studentId))
    ensures !Text.Truthy(req.comment) ==> status == Http.BadRequest
    ensures Text.Truthy(req.comment) && students.Find(req.studentId).None? ==> status == Http.NotFound
    ensures status != Http.Ok ==> saved.None? && logs.logs == old(logs.logs) && unchanged(Touched(students.Find(req.studentId)))
    ensures Text.Truthy(req.comment) && students.Find(req.studentId).Some? && req.subjectName.None? ==> status == Http.ServerError
    ensures status == Http.Ok <==>
      Text.Truthy(req.comment) && students.Find(req.studentId).Some? && req.subjectName.Some? &&
      old(var st := students.Find(req.studentId).value; var reg := Register(st.subjects, req.subjectName.value);
          reg.subjects[reg.index].subjectName != "")
    ensures status == Http.Ok ==>
      var st := students.Find(req.studentId).value;
      var name := req.subjectName.value;
      var reg := Register(old(st.subjects), name);
      && saved == Some(NewLog(req, reg.subjects[reg.index].subjectName, old(st.grade), now))
      && logs.logs == old(logs.logs) + [saved.value]
      && st.subjects == SubjectsAfterLog(old(st.subjects), name, req.studyTimeMinutes, hoursPerCredit)
      && st.gpa == RecalculatedGpa(LogsOf(logs.logs, st.id), st.subjects)
      && st.Info() == old(st.Info()) && st.activities == old(st.activities)
  {
    if !Text.Truthy(req.comment) {
      return Http.BadRequest, None;
    }
    var found := students.Find(req.studentId);
    if found.None? {
      return Http.NotFound, None;
    }
    var student := found.value;
    if req.subjectName.None? {
      // `subjectName.trim()` throws
      return Http.ServerError, None;
    }
    var name := req.subjectName.value;
    var reg := Register(student.subjects, name);
    var subject := reg.subjects[reg.index];
    if subject.subjectName == "" {
      // the log fails the `required` validator on save
      return Http.ServerError, None;
    }
    var subjects := reg.subjects;
    var log := NewLog(req, subject.subjectName, student.grade, now);
    var embedded := FindSubject(subjects, subject.subjectName);
    FirstMatchIsRegistered(student.subjects, name);
    assert embedded == Some(reg.index);
    if embedded.Some? {
      subjects := subjects[embedded.value := AddHours(subjects[embedded.value], req.studyTimeMinutes, hoursPerCredit)];
    }
    assert subjects == SubjectsAfterLog(student.subjects, name, req.studyTimeMinutes, hoursPerCredit);
    logs.logs := logs.logs + [log];
    student.subjects := subjects;
    student.gpa := RecalculatedGpa(logs.OfStudent(student.id), subjects);
    assert students.Find(req.studentId) == found;
    assert student.Info() == old(student.Info());
    return Http.Ok, Some(log);
  }

  /**
   * Looking the subject up again by the stored name (line 60 of the handler)
   * finds the subject the log was filed under.
   */
  lemma FirstMatchIsRegistered(subjects: seq<Subject>, name: string)
    ensures var reg := Register(subjects, name);
      FindSubject(reg.subjects, reg.subjects[reg.index].subjectName) == Some(reg.index)
  {
    var reg := Register(subjects, name);
    var stored := reg.subjects[reg.index].subjectName;
    assert Text.Normalize(stored) == Text.Normalize(name);
    if reg.created {
      assert forall j :: 0 <= j < |subjects| ==> reg.subjects[j] == subjects[j];
    }
  }

  /**
   * The toggle of `updateCompletionStatus`: false to true adds one credit, true
   * to false removes one (not below 0), an unchanged flag keeps the credits.
   */
  function Toggle(s: Subject, isCompleted: bool): (r: Subject)
    ensures r.subjectName == s.subjectName && r.totalHours == s.totalHours && r.isCompleted == isCompleted
    ensures isCompleted && !s.isCompleted ==> r.creditHours == s.creditHours + 1.0
    ensures !isCompleted && s.isCompleted ==> r.creditHours == Max(s.creditHours - 1.0, 0.0)
    ensures isCompleted == s.isCompleted ==> r.creditHours == s.creditHours
  {
    var credit :=
      if isCompleted && !s.isCompleted then s.creditHours + 1.0
      else if !isCompleted && s.isCompleted then Max(s.creditHours - 1.0, 0.0)
      else s.creditHours;
    s.(isCompleted := isCompleted, creditHours := credit)
  }

  /** Completing a fresh subject and then un-completing it leaves it with 0 credits. */
  lemma ToggleRoundTrip(name: string)
    ensures Toggle(Toggle(NewSubject(name), true), false) == NewSubject(name)
  {
  }

  /** The toggle never makes credits negative. */
  lemma ToggleKeepsCreditsNonNegative(s: Subject, isCompleted: bool)
    requires s.creditHours >= 0.0
    ensures Toggle(s, isCompleted).creditHours >= 0.0
  {
  }

  /**
   * The +1 of a completion is lost on the next log: the log's credit update
   * overwrites creditHours from the hours alone.
   */
  lemma NextLogOverwritesToggle(s: Subject, minutes: int, hpc: Option<real>)
    ensures AddHours(Toggle(s, true), minutes, hpc).creditHours == AddHours(s, minutes, hpc).creditHours
  {
  }

  /**
   * The subject list `updateCompletionStatus` saves, as written. A matched
   * subject is toggled in place. A missing one is registered untoggled:
   * `student.subjects.push(embedded)` stores a new subdocument copied from the
   * plain object, and the toggle that follows changes only that plain object.
   */
  function SubjectsAfterToggle(subjects: seq<Subject>, name: string, isCompleted: bool): seq<Subject> {
    var reg := Register(subjects, name);
    if reg.created then reg.subjects
    else reg.subjects[reg.index := Toggle(reg.subjects[reg.index], isCompleted)]
  }

  /**
   * As written, marking a subject that is not registered yet as completed
   * registers it as not completed and with no credit, although the reply is
   * a success.
   */
  lemma NewSubjectCompletionLost(subjects: seq<Subject>, name: string)
    requires FindSubject(subjects, name).None?
    ensures var after := SubjectsAfterToggle(subjects, name, true);
      && after == subjects + [NewSubject(Text.Trim(name))]
      && !after[|subjects|].isCompleted && after[|subjects|].creditHours == 0.0
  {
  }

  /** The evident intent: the matched or newly registered subject is the one toggled. */
  function IntendedSubjectsAfterToggle(subjects: seq<Subject>, name: string, isCompleted: bool): seq<Subject> {
    var reg := Register(subjects, name);
    reg.subjects[reg.index := Toggle(reg.subjects[reg.index], isCompleted)]
  }

  /**
   * With the intended toggle the saved subject carries the requested flag; a
   * newly registered subject marked completed earns one credit; the two
   * definitions differ only for a subject that was missing.
   */
  lemma IntendedToggleRecordsCompletion(subjects: seq<Subject>, name: string, isCompleted: bool)
    ensures var reg := Register(subjects, name);
      var after := IntendedSubjectsAfterToggle(subjects, name, isCompleted);
      && |after| == |reg.subjects|
      && after[reg.index].isCompleted == isCompleted
      && (reg.created && isCompleted ==> after[reg.index].creditHours == 1.0)
      && (forall j :: 0 <= j < |after| && j != reg.index ==> after[j] == reg.subjects[j])
    ensures FindSubject(subjects, name).Some? ==>
      IntendedSubjectsAfterToggle(subjects, name, isCompleted) == SubjectsAfterToggle(subjects, name, isCompleted)
  {
  }

  /** `updateCompletionStatus`. Route parameters arrive as strings; an empty one is missing. */
  method UpdateCompletionStatus(students: StudentCollection, studentId: Id, subjectName: string, isCompleted: bool)
    returns (status: Http.Status)
    modifies Touched(students.Find(studentId))
    ensures subjectName == "" ==> status == Http.BadRequest
    ensures subjectName != "" && students.Find(studentId).None? ==> status == Http.NotFound
    ensures status != Http.Ok ==> unchanged(Touched(students.Find(studentId)))
    ensures status == Http.Ok <==>
      subjectName != "" && students.Find(studentId).Some? &&
      old(var st := students.Find(studentId).value; var reg := Register(st.subjects, subjectName);
          reg.subjects[reg.index].subjectName != "")
    ensures status == Http.Ok ==>
      var st := students.Find(studentId).value;
      && st.subjects == SubjectsAfterToggle(old(st.subjects), subjectName, isCompleted)
      && st.gpa == old(st.gpa) && st.Info() == old(st.Info()) && st.activities == old(st.activities)
  {
    if subjectName == "" {
      return Http.BadRequest;
    }
    var found := students.Find(studentId);
    if found.None? {
      return Http.NotFound;
    }
    var student := found.value;
    var reg := Register(student.subjects, subjectName);
    if reg.subjects[reg.index].subjectName == "" {
      // an embedded subject with an empty name fails validation on save
      return Http.ServerError;
    }
    if reg.created {
      // the pushed copy is saved; the toggle below would change only the plain object
      student.subjects := reg.subjects;
    } else {
      var embedded := reg.subjects[reg.index];
      student.subjects := reg.subjects[reg.index := Toggle(embedded, isCompleted)];
    }
    return Http.Ok;
  }

  // ---------------------------------------------------------------------------
  // Where the hours-per-credit value comes from

  /** `req.user.hoursPerCredit` as written: the payload has no such field, so it is undefined. */
  function WiredHoursPerCredit(user: AuthPayload): (r: Option<real>)
    ensures r.None?
  {
    None
  }

  /**
   * As written, logging can never earn a credit: whatever the hours, every
   * logged subject ends with creditHours 0.
   */
  lemma WiredLoggingEarnsNoCredit(subjects: seq<Subject>, name: string, minutes: int, user: AuthPayload)
    ensures var after := SubjectsAfterLog(subjects, name, minutes, WiredHoursPerCredit(user));
      after[Register(subjects, name).index].creditHours == 0.0
  {
  }

  /**
   * As written, a student whose credits come only from logging keeps a GPA of
   * 0 whatever the logged percentages.
   */
  lemma WiredGpaStaysZero(subjects: seq<Subject>, name: string, minutes: int, user: AuthPayload, logs: seq<DailyLog>)
    requires forall j :: 0 <= j < |subjects| ==> subjects[j].creditHours == 0.0
    ensures RecalculatedGpa(logs, SubjectsAfterLog(subjects, name, minutes, WiredHoursPerCredit(user))) == 0.0
  {
    var after := SubjectsAfterLog(subjects, name, minutes, WiredHoursPerCredit(user));
    assert forall j :: 0 <= j < |after| ==> after[j].creditHours == 0.0;
    SumCreditsZero(after);
  }

  lemma {:induction false} SumCreditsZero(subjects: seq<Subject>)
    requires forall j :: 0 <= j < |subjects| ==> subjects[j].creditHours == 0.0
    ensures SumCredits(subjects) == 0.0
  {
    if subjects != [] {
      SumCreditsZero(subjects[1..]);
    }
  }

  /** The intended source of the value: the account's own hours per credit. */
  function AccountHoursPerCredit(account: User): Option<real>
    reads account
  {
    Some(account.hoursPerCredit)
  }

  /**
   * With the account's value, enough logged hours earn a full credit, and the
   * GPA then reflects the logged percentages.
   */
  lemma AccountLoggingEarnsCredit(subjects: seq<Subject>, name: string, minutes: int, account: User, logs: seq<DailyLog>)
    requires account.hoursPerCredit > 0.0
    requires FindSubject(subjects, name).None? && (minutes as real) / 60.0 >= account.hoursPerCredit
    ensures var after := SubjectsAfterLog(subjects, name, minutes, AccountHoursPerCredit(account));
      && after[|subjects|].creditHours == 1.0
      && (GpaLogs(logs) != [] && (forall j :: 0 <= j < |subjects| ==> subjects[j].creditHours >= 0.0) ==>
            RecalculatedGpa(logs, after) == PercentageToGpa(PooledMean(GpaLogs(logs))))
  {
    var hpc := account.hoursPerCredit;
    var after := SubjectsAfterLog(subjects, name, minutes, Some(hpc));
    assert after == subjects + [AddHours(NewSubject(Text.Trim(name)), minutes, Some(hpc))];
    if forall j :: 0 <= j < |subjects| ==> subjects[j].creditHours >= 0.0 {
      SumCreditsAppend(subjects, after[|subjects|]);
      SumCreditsNonNegative(subjects);
    }
  }

  lemma {:induction false} SumCreditsAppend(subjects: seq<Subject>, s: Subject)
    ensures SumCredits(subjects + [s]) == SumCredits(subjects) + s.creditHours
  {
    if subjects == [] {
      assert [] + [s] == [s];
    } else {
      assert (subjects + [s])[1..] == subjects[1..] + [s];
      SumCreditsAppend(subjects[1..], s);
    }
  }

  lemma {:induction false} SumCreditsNonNegative(subjects: seq<Subject>)
    requires forall j :: 0 <= j < |subjects| ==> subjects[j].creditHours >= 0.0
    ensures SumCredits(subjects) >= 0.0
  {
    if subjects != [] {
      SumCreditsNonNegative(subjects[1..]);
    }
  }
}
