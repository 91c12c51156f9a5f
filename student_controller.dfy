/**
 * The student endpoints that touch subjects and logs: registering a subject,
 * joining logs to subjects, today's logs, the profile update merge and the
 * cascading delete.
 */
module StudentController {
  import opened Wrappers
  import Text
  import Seqs
  import Calendar
  import opened Models
  import Http
  import DailyLogController

  /** The outcome of `createOrRegisterSubject`: the message and the subject sent back. */
  datatype RegisterReply = RegisterReply(alreadyRegistered: bool, subject: Subject)

  /**
   * `createOrRegisterSubject`. `name` is `None` when it is not a string
   * (`name.trim()` throws).
   */
  method CreateOrRegisterSubject(students: StudentCollection, studentId: Id, name: Option<string>)
    returns (status: Http.Status, reply: Option<RegisterReply>)
    modifies Touched(students.Find(studentId))
    ensures students.Find(studentId).None? ==> status == Http.NotFound
    ensures students.Find(studentId).Some? && name.None? ==> status == Http.ServerError
    ensures status != Http.Ok ==> reply.None? && unchanged(Touched(students.Find(studentId)))
    ensures status == Http.Ok ==>
      var st := students.Find(studentId).value;
      var reg := DailyLogController.Register(old(st.subjects), name.value);
      && name.Some?
      && reply == Some(RegisterReply(!reg.created, reg.subjects[reg.index]))
      && st.subjects == reg.subjects
      && st.gpa == old(st.gpa) && st.Info() == old(st.Info()) && st.activities == old(st.activities)
    ensures status == Http.Ok && reply.value.alreadyRegistered ==>
      students.Find(studentId).value.subjects == old(students.Find(studentId).value.subjects)
    ensures students.Find(studentId).Some? && name.Some? ==>
      (status == Http.Ok <==>
        old(DailyLogController.FindSubject(students.Find(studentId).value.subjects, name.value)).Some?
        || Text.Trim(name.value) != "")
  {
    var found := students.Find(studentId);
    if found.None? {
      return Http.NotFound, None;
    }
    var student := found.value;
    if name.None? {
      return Http.ServerError, None;
    }
    var reg := DailyLogController.Register(student.subjects, name.value);
    if reg.created {
      if reg.subjects[reg.index].subjectName == "" {
        // the new embedded subject fails the `required` validator on save
        return Http.ServerError, None;
      }
      student.subjects := reg.subjects;
    }
    return Http.Ok, Some(RegisterReply(!reg.created, reg.subjects[reg.index]));
  }

  /**
   * A new subject is appended after the existing ones with its trimmed name and
   * zero/false fields; the list grows by exactly one and nothing before it moves.
   */
  lemma NewSubjectAppended(subjects: seq<Subject>, name: string)
    requires DailyLogController.FindSubject(subjects, name).None?
    ensures var after := DailyLogController.Register(subjects, name).subjects;
      && |after| == |subjects| + 1
      && after[..|subjects|] == subjects
      && after[|subjects|] == Subject(Text.Trim(name), 0.0, 0.0, false)
  {
  }

  // ---------------------------------------------------------------------------
  // getStudentById

  /**
   * `DailyLog.find({ student, subjectName }).sort({ date: -1 })`. The store
   * leaves the order of logs with the same date unspecified; the model keeps
   * them in insertion order, and the contract promises only the date order.
   */
  function SubjectLogs(logs: seq<DailyLog>, studentId: Id, subjectName: string): (r: seq<DailyLog>)
    ensures Seqs.SortedBy(r, (l: DailyLog) => -l.date)
    ensures multiset(r) == multiset(Seqs.Filter(logs, (l: DailyLog) => l.student == studentId && l.subjectName == subjectName))
  {
    Seqs.SortBy(Seqs.Filter(logs, (l: DailyLog) => l.student == studentId && l.subjectName == subjectName), (l: DailyLog) => -l.date)
  }

  /** The joined view of a student: each subject with its own logs. */
  function JoinLogs(subjects: seq<Subject>, logs: seq<DailyLog>, studentId: Id): (r: seq<SubjectView>)
    ensures |r| == |subjects|
    ensures forall j :: 0 <= j < |r| ==>
      r[j].subject == subjects[j] && r[j].dailyLogs == SubjectLogs(logs, studentId, subjects[j].subjectName)
      && r[j].totalMarks.None? && r[j].obtainedMarks.None?
  {
    seq(|subjects|, j requires 0 <= j < |subjects| =>
      SubjectView(subjects[j], SubjectLogs(logs, studentId, subjects[j].subjectName), None, None))
  }

  /**
   * `getStudentById`: the student with, for each subject, exactly that
   * student's logs filed under the same name (compared case-sensitively),
   * newest first. The lookup is not scoped to the parent.
   */
  function GetStudentById(students: StudentCollection, logs: LogCollection, id: Id): (r: Option<StudentView>)
    reads students, students.students, logs
    ensures r.None? <==> students.Find(id).None?
    ensures r.Some? ==>
      var st := students.Find(id).value;
      && r.value.id == id && r.value.info == st.Info() && r.value.gpa == st.gpa
      && r.value.subjects == JoinLogs(st.subjects, logs.logs, id)
      && r.value.activities == st.activities
  {
    match students.Find(id)
    case None => None
    case Some(st) => Some(StudentView(st.id, st.Info(), st.gpa, JoinLogs(st.subjects, logs.logs, id), st.activities, None))
  }

  /**
   * Each attached log belongs to the student and to that subject by its exact
   * name, every such log is attached, and they are ordered newest first.
   */
  lemma JoinedLogsBelong(subjects: seq<Subject>, logs: seq<DailyLog>, studentId: Id, j: nat)
    requires j < |subjects|
    ensures var att := JoinLogs(subjects, logs, studentId)[j].dailyLogs;
      && (forall k :: 0 <= k < |att| ==> att[k].student == studentId && att[k].subjectName == subjects[j].subjectName)
      && (forall k :: 0 <= k < |logs| && logs[k].student == studentId && logs[k].subjectName == subjects[j].subjectName ==> logs[k] in att)
      && (forall a, b :: 0 <= a < b < |att| ==> att[a].date >= att[b].date)
  {
    var p := (l: DailyLog) => l.student == studentId && l.subjectName == subjects[j].subjectName;
    var f := Seqs.Filter(logs, p);
    var att := JoinLogs(subjects, logs, studentId)[j].dailyLogs;
    assert multiset(att) == multiset(f);
    forall k | 0 <= k < |att|
      ensures att[k].student == studentId && att[k].subjectName == subjects[j].subjectName
    {
      assert att[k] in multiset(f);
      var i :| 0 <= i < |f| && f[i] == att[k];
      assert p(f[i]);
    }
    forall k | 0 <= k < |logs| && p(logs[k])
      ensures logs[k] in att
    {
      assert logs[k] in f;
      assert logs[k] in multiset(att);
    }
  }

  // ---------------------------------------------------------------------------
  // getTodayLog

  datatype TodayEntry = TodayEntry(subject: string, log: DailyLog)

  /** `DailyLog.findOne({ student, subjectName, date })`: the first such log. */
  function FirstLogOn(logs: seq<DailyLog>, studentId: Id, subjectName: string, day: int): (r: Option<DailyLog>)
    ensures r.Some? ==> r.value in logs && r.value.student == studentId && r.value.subjectName == subjectName && r.value.date == day
    ensures r.None? ==> forall k :: 0 <= k < |logs| ==>
      !(logs[k].student == studentId && logs[k].subjectName == subjectName && logs[k].date == day)
  {
    if logs == [] then None
    else if logs[0].student == studentId && logs[0].subjectName == subjectName && logs[0].date == day then Some(logs[0])
    else FirstLogOn(logs[1..], studentId, subjectName, day)
  }

  /** The entries of `getTodayLog` for the given subjects, in subject order. */
  function TodaysLogs(subjects: seq<Subject>, logs: seq<DailyLog>, studentId: Id, day: int): seq<TodayEntry> {
    if subjects == [] then []
    else
      var rest := TodaysLogs(subjects[..|subjects| - 1], logs, studentId, day);
      var last := subjects[|subjects| - 1].subjectName;
      match FirstLogOn(logs, studentId, last, day)
      case None => rest
      case Some(l) => rest + [TodayEntry(last, l)]
  }

  /** `getTodayLog`: scoped lookup, then one `findOne` per subject. */
  method GetTodayLog(students: StudentCollection, logs: LogCollection, id: Id, owner: Id, now: int)
    returns (status: Http.Status, entries: seq<TodayEntry>)
    ensures students.FindOwned(id, owner).None? ==> status == Http.NotFound && entries == []
    ensures students.FindOwned(id, owner).Some? ==>
      status == Http.Ok &&
      entries == TodaysLogs(students.FindOwned(id, owner).value.subjects, logs.logs, id, Calendar.DayStart(now))
  {
    var found := students.FindOwned(id, owner);
    if found.None? {
      return Http.NotFound, [];
    }
    var student := found.value;
    var today := Calendar.DayStart(now);
    entries := [];
    var i := 0;
    while i < |student.subjects|
      invariant 0 <= i <= |student.subjects|
      invariant entries == TodaysLogs(student.subjects[..i], logs.logs, id, today)
    {
      var subj := student.subjects[i];
      var log := FirstLogOn(logs.logs, student.id, subj.subjectName, today);
      assert student.subjects[..i + 1][..i] == student.subjects[..i];
      if log.Some? {
        entries := entries + [TodayEntry(subj.subjectName, log.value)];
      }
      i := i + 1;
    }
    assert student.subjects[..i] == student.subjects;
    return Http.Ok, entries;
  }

  function Names(subjects: seq<Subject>): seq<string> {
    if subjects == [] then [] else Names(subjects[..|subjects| - 1]) + [subjects[|subjects| - 1].subjectName]
  }

  function EntrySubjects(entries: seq<TodayEntry>): seq<string> {
    if entries == [] then [] else EntrySubjects(entries[..|entries| - 1]) + [entries[|entries| - 1].subject]
  }

  /**
   * Today's entries: at most one per subject, in subject order, each with a log
   * of that student and subject dated today.
   */
  lemma {:induction false} TodaysLogsShape(subjects: seq<Subject>, logs: seq<DailyLog>, studentId: Id, day: int)
    ensures var r := TodaysLogs(subjects, logs, studentId, day);
      && |r| <= |subjects|
      && Seqs.IsSubsequence(EntrySubjects(r), Names(subjects))
      && (forall k :: 0 <= k < |r| ==>
            r[k].log.student == studentId && r[k].log.subjectName == r[k].subject && r[k].log.date == day)
  {
    if subjects != [] {
      var init := subjects[..|subjects| - 1];
      TodaysLogsShape(init, logs, studentId, day);
      var rest := TodaysLogs(init, logs, studentId, day);
      var last := subjects[|subjects| - 1].subjectName;
      SubsequenceSnoc(EntrySubjects(rest), Names(init), last);
      match FirstLogOn(logs, studentId, last, day)
      case None =>
      case Some(l) =>
        var r := rest + [TodayEntry(last, l)];
        assert r[..|r| - 1] == rest;
        assert EntrySubjects(r) == EntrySubjects(rest) + [last];
    }
  }

  /** A subsequence stays one when an element is appended to the longer list, and to both. */
  lemma {:induction false} SubsequenceSnoc(a: seq<string>, b: seq<string>, x: string)
    requires Seqs.IsSubsequence(a, b)
    ensures Seqs.IsSubsequence(a, b + [x])
    ensures Seqs.IsSubsequence(a + [x], b + [x])
    decreases |b|
  {
    if a == [] {
      if b == [] {
        assert [] + [x] == [x];
        assert ([x])[1..] == [];
      } else {
        assert (b + [x])[1..] == b[1..] + [x];
        SubsequenceSnoc(a, b[1..], x);
        assert (a + [x])[1..] == a;
      }
    } else {
      assert b != [];
      assert (b + [x])[1..] == b[1..] + [x];
      assert (a + [x])[1..] == a[1..] + [x];
      assert (b + [x])[0] == b[0] && (a + [x])[0] == a[0];
      if a[0] == b[0] && Seqs.IsSubsequence(a[1..], b[1..]) {
        SubsequenceSnoc(a[1..], b[1..], x);
      } else {
        SubsequenceSnoc(a, b[1..], x);
      }
    }
  }

  /** Every subject with a log dated today gets an entry. */
  lemma {:induction false} TodaysLogsComplete(subjects: seq<Subject>, logs: seq<DailyLog>, studentId: Id, day: int, j: nat, k: nat)
    requires j < |subjects| && k < |logs|
    requires logs[k].student == studentId && logs[k].subjectName == subjects[j].subjectName && logs[k].date == day
    ensures exists e :: e in TodaysLogs(subjects, logs, studentId, day) && e.subject == subjects[j].subjectName
  {
    var init := subjects[..|subjects| - 1];
    var last := subjects[|subjects| - 1].subjectName;
    var rest := TodaysLogs(init, logs, studentId, day);
    if j == |subjects| - 1 {
      var l := FirstLogOn(logs, studentId, last, day);
      assert l.Some?;
      var e := TodayEntry(last, l.value);
      assert e in rest + [e];
    } else {
      assert init[j] == subjects[j];
      TodaysLogsComplete(init, logs, studentId, day, j, k);
      var e :| e in rest && e.subject == subjects[j].subjectName;
      match FirstLogOn(logs, studentId, last, day)
      case None =>
      case Some(l) =>
        assert e in rest + [TodayEntry(last, l)];
    }
  }

  /**
   * A log created at `now` is reported by `getTodayLog` at any instant of the
   * same UTC day.
   */
  lemma CreatedLogIsTodays(subjects: seq<Subject>, logs: seq<DailyLog>, req: DailyLogController.LogRequest,
                           grade: Option<string>, j: nat, now: int, later: int)
    requires j < |subjects| && req.comment.Some?
    requires Calendar.DayOf(now) == Calendar.DayOf(later)
    ensures var log := DailyLogController.NewLog(req, subjects[j].subjectName, grade, now);
      exists e :: e in TodaysLogs(subjects, logs + [log], req.studentId, Calendar.DayStart(later)) && e.subject == subjects[j].subjectName
  {
    var log := DailyLogController.NewLog(req, subjects[j].subjectName, grade, now);
    Calendar.SameDay(now, later);
    TodaysLogsComplete(subjects, logs + [log], req.studentId, Calendar.DayStart(later), j, |logs|);
  }

  // ---------------------------------------------------------------------------
  // deleteStudent

  /** `deleteStudent`: scoped lookup; every log of the student goes, then the student. */
  method DeleteStudent(students: StudentCollection, logs: LogCollection, id: Id, owner: Id)
    returns (status: Http.Status)
    modifies students, logs
    ensures old(students.FindOwned(id, owner)).None? ==>
      status == Http.NotFound && students.students == old(students.students) && logs.logs == old(logs.logs)
    ensures old(students.FindOwned(id, owner)).Some? ==>
      var st := old(students.FindOwned(id, owner)).value;
      && status == Http.Ok
      && logs.logs == Seqs.Filter(old(logs.logs), (l: DailyLog) => l.student != id)
      && students.students == Seqs.Filter(old(students.students), (s: Student) => s != st)
  {
    var found := students.FindOwned(id, owner);
    if found.None? {
      return Http.NotFound;
    }
    var student := found.value;
    logs.logs := Seqs.Filter(logs.logs, (l: DailyLog) => l.student != student.id);
    students.students := Seqs.Filter(students.students, (s: Student) => s != student);
    return Http.Ok;
  }

  /**
   * After the cascade no log of the student remains, every log of another
   * student remains in order, and the student is gone.
   */
  lemma DeleteCascade(logs: seq<DailyLog>, students: seq<Student>, st: Student)
    ensures var left := Seqs.Filter(logs, (l: DailyLog) => l.student != st.id);
      && (forall k :: 0 <= k < |left| ==> left[k].student != st.id)
      && (forall k :: 0 <= k < |logs| && logs[k].student != st.id ==> logs[k] in left)
      && Seqs.IsSubsequence(left, logs)
    ensures st !in Seqs.Filter(students, (s: Student) => s != st)
  {
    Seqs.FilterIsSubsequence(logs, (l: DailyLog) => l.student != st.id);
  }

  // ---------------------------------------------------------------------------
  // updateStudent

  /**
   * The `birthDate` of `req.body`: absent or falsy, a value the Date cast of
   * the schema accepts (the instant in milliseconds), or a truthy value it
   * cannot cast, which makes `student.save()` reject.
   */
  datatype DateField = NoDate | ValidDate(ms: int) | InvalidDate

  /** The text fields of `req.body`; `None` is an absent field. */
  datatype UpdateBody = UpdateBody(
    firstName: Option<string>,
    lastName: Option<string>,
    birthDate: DateField,
    grade: Option<string>)

  /** `new || old` for a string field. */
  function OrKeep(v: Option<string>, current: string): (r: string)
    ensures v.Some? && v.value != "" ==> r == v.value
    ensures (v.None? || v.value == "") ==> r == current
  {
    if v.Some? && v.value != "" then v.value else current
  }

  /**
   * The profile after the merge of `updateStudent`; `upload` is the uploaded
   * file's name. A merge with an `InvalidDate` is never saved (see
   * `UpdateStudent`), so its birth date is left as it was.
   */
  function MergedInfo(info: StudentInfo, body: UpdateBody, upload: Option<string>): (r: StudentInfo)
    ensures r.firstName == OrKeep(body.firstName, info.firstName)
    ensures r.lastName == OrKeep(body.lastName, info.lastName)
    ensures body.birthDate.ValidDate? ==> r.birthDate == Some(body.birthDate.ms)
    ensures !body.birthDate.ValidDate? ==> r.birthDate == info.birthDate
    ensures r.grade == (if body.grade.Some? then body.grade else info.grade)
    ensures upload.None? ==> r.profilePicture == info.profilePicture
    ensures upload.Some? ==> r.profilePicture == Some("/uploads/students/" + upload.value)
  {
    StudentInfo(
      OrKeep(body.firstName, info.firstName),
      OrKeep(body.lastName, info.lastName),
      if body.birthDate.ValidDate? then Some(body.birthDate.ms) else info.birthDate,
      if body.grade.Some? then body.grade else info.grade,
      if upload.Some? then Some("/uploads/students/" + upload.value) else info.profilePicture)
  }

  /** An empty body without an upload keeps the whole profile. */
  lemma EmptyUpdateKeepsProfile(info: StudentInfo)
    ensures MergedInfo(info, UpdateBody(None, None, NoDate, None), None) == info
  {
  }

  /** Sending the same update twice is the same as sending it once. */
  lemma MergeIdempotent(info: StudentInfo, body: UpdateBody, upload: Option<string>)
    ensures MergedInfo(MergedInfo(info, body, upload), body, upload) == MergedInfo(info, body, upload)
  {
  }

  /**
   * `updateStudent`: scoped lookup, then the field merge. A birth date the
   * cast refuses makes the save reject, and the catch answers 500 with
   * nothing stored.
   */
  method UpdateStudent(students: StudentCollection, id: Id, owner: Id, body: UpdateBody, upload: Option<string>)
    returns (status: Http.Status)
    modifies Touched(students.FindOwned(id, owner))
    ensures students.FindOwned(id, owner).None? ==> status == Http.NotFound
    ensures students.FindOwned(id, owner).Some? && body.birthDate.InvalidDate? ==> status == Http.ServerError
    ensures status != Http.Ok ==> unchanged(Touched(students.FindOwned(id, owner)))
    ensures students.FindOwned(id, owner).Some? && !body.birthDate.InvalidDate? ==>
      var st := students.FindOwned(id, owner).value;
      && status == Http.Ok
      && st.Info() == MergedInfo(old(st.Info()), body, upload)
      && st.subjects == old(st.subjects) && st.gpa == old(st.gpa) && st.activities == old(st.activities)
  {
    var found := students.FindOwned(id, owner);
    if found.None? {
      return Http.NotFound;
    }
    var student := found.value;
    if body.birthDate.InvalidDate? {
      // `student.save()` rejects on the failed cast
      return Http.ServerError;
    }
    var profilePicture := student.profilePicture;
    if upload.Some? {
      profilePicture := Some("/uploads/students/" + upload.value);
    }
    student.firstName := OrKeep(body.firstName, student.firstName);
    student.lastName := OrKeep(body.lastName, student.lastName);
    student.birthDate := if body.birthDate.ValidDate? then Some(body.birthDate.ms) else student.birthDate;
    student.grade := if body.grade.Some? then body.grade else student.grade;
    student.profilePicture := profilePicture;
    return Http.Ok;
  }
}
