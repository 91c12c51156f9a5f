/**
 * The daily log form: the subject, comment, percentage or pass/fail status
 * and study time a parent enters, the checks made before sending, the request
 * body built from them, and the form reset after a successful save.
 */
module LogDailyModal {
  import opened Wrappers
  import opened Models
  import Text
  import DailyLogController

  /** `subjectOptions`: the student's subject names, as the form's suggestions. */
  function SubjectNames(subjects: seq<Subject>): (r: seq<string>)
    ensures |r| == |subjects|
    ensures forall i :: 0 <= i < |r| ==> r[i] == subjects[i].subjectName
  {
    seq(|subjects|, i requires 0 <= i < |subjects| => subjects[i].subjectName)
  }

  /** `subjectOptions.some(s => s.trim().toLowerCase() === input.trim().toLowerCase())`. */
  function AlreadyRegistered(options: seq<string>, input: string): (b: bool)
    ensures b <==> exists i :: 0 <= i < |options| && Text.Normalize(options[i]) == Text.Normalize(input)
  {
    if options == [] then false
    else Text.Normalize(options[0]) == Text.Normalize(input) || AlreadyRegistered(options[1..], input)
  }

  /**
   * The form's check agrees with the server's lookup: a name counts as
   * registered exactly when `createLog` finds it among the student's subjects
   * and so does not register a new one.
   */
  lemma RegisteredLikeServer(subjects: seq<Subject>, input: string)
    ensures AlreadyRegistered(SubjectNames(subjects), input) <==> DailyLogController.FindSubject(subjects, input).Some?
  {
    var names := SubjectNames(subjects);
    if AlreadyRegistered(names, input) {
      var i :| 0 <= i < |names| && Text.Normalize(names[i]) == Text.Normalize(input);
      assert Text.Normalize(subjects[i].subjectName) == Text.Normalize(input);
    }
  }

  /** `parseInt(student.grade) <= 5`: graded pass/fail. A missing grade is neither this nor upper. */
  predicate IsPrimaryGrade(grade: Option<string>) {
    var g := GradeNumber(grade);
    g.Some? && g.value <= 5
  }

  /**
   * `studyTime ? parseInt(studyTime) : 0`. A NaN from `parseInt` becomes
   * `null` in the JSON body, which the server counts as 0.
   */
  function StudyMinutes(studyTime: string): (m: int)
    ensures studyTime == "" ==> m == 0
    ensures studyTime != "" && Text.ParseInt(studyTime).Some? ==> m == Text.ParseInt(studyTime).value
    ensures Text.ParseInt(studyTime).None? ==> m == 0
  {
    if studyTime == "" then 0
    else
      var n := Text.ParseInt(studyTime);
      if n.None? then 0 else n.value
  }

  /**
   * The body `saveLog` posts to `/api/dailyLogs`. The percentage is
   * `parseFloat(percentage)` for an upper grade and absent otherwise; the
   * status is the chosen one for a primary grade and `null` otherwise.
   */
  function Payload(studentId: Id, grade: Option<string>, subjectName: string, comment: string,
                   percentage: string, studyTime: string, status: string): (r: DailyLogController.LogRequest)
    ensures r.studentId == studentId
    ensures r.subjectName == Some(Text.Trim(subjectName))
    ensures r.comment.Some? && r.comment.value != ""
    ensures Text.Trim(comment) != "" ==> r.comment == Some(Text.Trim(comment))
    ensures Text.Trim(comment) == "" ==> r.comment == Some("No comment")
    ensures r.studyTimeMinutes == StudyMinutes(studyTime)
    ensures DailyLogController.IsUpperGrade(grade) ==> r.percentage == Text.ParseFloat(percentage)
    ensures !DailyLogController.IsUpperGrade(grade) ==> r.percentage.None?
    ensures IsPrimaryGrade(grade) <==> r.status.Some?
    ensures IsPrimaryGrade(grade) ==> r.status == Some(status)
  {
    DailyLogController.LogRequest(
      studentId,
      Some(Text.Trim(subjectName)),
      Some(if Text.Trim(comment) != "" then Text.Trim(comment) else "No comment"),
      if DailyLogController.IsUpperGrade(grade) then Text.ParseFloat(percentage) else None,
      StudyMinutes(studyTime),
      if IsPrimaryGrade(grade) then Some(status) else None)
  }

  /** Every body the form sends passes the server's comment check. */
  lemma PayloadHasComment(studentId: Id, grade: Option<string>, subjectName: string, comment: string,
                          percentage: string, studyTime: string, status: string)
    ensures Text.Truthy(Payload(studentId, grade, subjectName, comment, percentage, studyTime, status).comment)
  {
  }

  /** A student without a readable grade gets neither a percentage nor a status. */
  lemma NoGradeSendsNeither(studentId: Id, subjectName: string, comment: string,
                            percentage: string, studyTime: string, status: string)
    ensures var r := Payload(studentId, None, subjectName, comment, percentage, studyTime, status);
      r.percentage.None? && r.status.None?
  {
  }

  /** A primary log sent without choosing pass or fail is stored without a status. */
  lemma UnchosenStatusStoredAsNone(studentId: Id, grade: Option<string>, subjectName: string, comment: string,
                                   percentage: string, studyTime: string)
    requires IsPrimaryGrade(grade)
    ensures DailyLogController.StoredStatus(Payload(studentId, grade, subjectName, comment, percentage, studyTime, "").status).None?
  {
  }

  /** The messages the form shows. */
  const SubjectRequired := "Subject is required."
  const LogSaved := "\U{2713} Log saved!"
  const SaveFailed := "\U{274C} Error saving log. Please ensure subject is valid."

  /** The form's state. */
  class DailyLogForm {
    var subjectInput: string
    var comment: string
    var percentage: string
    var studyTime: string
    var status: string
    var subjectOptions: seq<string>
    var message: Option<string>
    var showCreateModal: bool

    /** The form opened for a student: empty fields, the student's subject names as options. */
    constructor(subjects: seq<Subject>)
      ensures subjectInput == "" && comment == "" && percentage == "" && studyTime == "" && status == ""
      ensures subjectOptions == SubjectNames(subjects)
      ensures message.None? && !showCreateModal
    {
      subjectInput := "";
      comment := "";
      percentage := "";
      studyTime := "";
      status := "";
      subjectOptions := SubjectNames(subjects);
      message := None;
      showCreateModal := false;
    }

    /** The fields a save clears are all empty. */
    predicate Cleared()
      reads this
    {
      subjectInput == "" && comment == "" && percentage == "" && status == "" && studyTime == ""
    }

    /**
     * `saveLog`: post the body built from the fields (`postSucceeds` is the
     * outcome of the request). On success the fields are cleared; either way
     * the confirm dialog is closed; the error is caught here.
     */
    method SaveLog(studentId: Id, grade: Option<string>, subjectName: string, postSucceeds: bool)
      returns (sent: DailyLogController.LogRequest)
      modifies this
      ensures sent == Payload(studentId, grade, subjectName, old(comment), old(percentage), old(studyTime), old(status))
      ensures !showCreateModal && subjectOptions == old(subjectOptions)
      ensures postSucceeds ==> Cleared() && message == Some(LogSaved)
      ensures !postSucceeds ==>
        && message == Some(SaveFailed)
        && subjectInput == old(subjectInput) && comment == old(comment) && percentage == old(percentage)
        && studyTime == old(studyTime) && status == old(status)
    {
      sent := Payload(studentId, grade, subjectName, comment, percentage, studyTime, status);
      if postSucceeds {
        message := Some(LogSaved);
        subjectInput := "";
        comment := "";
        percentage := "";
        status := "";
        studyTime := "";
        showCreateModal := false;
      } else {
        message := Some(SaveFailed);
        showCreateModal := false;
      }
    }

    /**
     * `handleSave`: refuse an empty subject, ask for confirmation of an
     * unknown one, and otherwise save. `saveLog` swallows request errors, so
     * the list is refreshed even after a failed save.
     */
    method HandleSave(studentId: Id, grade: Option<string>, postSucceeds: bool)
      returns (sent: Option<DailyLogController.LogRequest>, refreshed: bool)
      modifies this
      ensures subjectOptions == old(subjectOptions)
      ensures Text.Trim(old(subjectInput)) == "" ==>
        sent.None? && !refreshed && message == Some(SubjectRequired)
        && subjectInput == old(subjectInput) && showCreateModal == old(showCreateModal)
      ensures Text.Trim(old(subjectInput)) != "" && !AlreadyRegistered(old(subjectOptions), old(subjectInput)) ==>
        sent.None? && !refreshed && showCreateModal && message.None? && subjectInput == old(subjectInput)
      ensures sent.Some? <==> Text.Trim(old(subjectInput)) != "" && AlreadyRegistered(old(subjectOptions), old(subjectInput))
      ensures sent.Some? ==>
        && refreshed && !showCreateModal
        && sent.value == Payload(studentId, grade, Text.Trim(old(subjectInput)), old(comment), old(percentage), old(studyTime), old(status))
        && (postSucceeds ==> Cleared() && message == Some(LogSaved))
        && (!postSucceeds ==> message == Some(SaveFailed) && subjectInput == old(subjectInput))
    {
      message := None;
      var trimmed := Text.Trim(subjectInput);
      if trimmed == "" {
        message := Some(SubjectRequired);
        return None, false;
      }
      Text.NormalizeTrim(subjectInput);
      if !AlreadyRegistered(subjectOptions, trimmed) {
        showCreateModal := true;
        return None, false;
      }
      var body := SaveLog(studentId, grade, trimmed, postSucceeds);
      return Some(body), true;
    }

    /**
     * `handleCreateSubject`: the user confirmed the unknown subject; save it
     * as typed. `saveLog` swallows request errors, so the list is refreshed
     * after a failed save too.
     */
    method HandleCreateSubject(studentId: Id, grade: Option<string>, postSucceeds: bool)
      returns (sent: DailyLogController.LogRequest, refreshed: bool)
      modifies this
      ensures sent == Payload(studentId, grade, Text.Trim(old(subjectInput)), old(comment), old(percentage), old(studyTime), old(status))
      ensures refreshed
      ensures !showCreateModal && subjectOptions == old(subjectOptions)
      ensures postSucceeds ==> Cleared() && message == Some(LogSaved)
      ensures !postSucceeds ==>
        && message == Some(SaveFailed)
        && subjectInput == old(subjectInput) && comment == old(comment) && percentage == old(percentage)
        && studyTime == old(studyTime) && status == old(status)
    {
      sent := SaveLog(studentId, grade, Text.Trim(subjectInput), postSucceeds);
      refreshed := true;
    }
  }

  /** Trimming the subject twice, as `handleSave` then `saveLog` do, is trimming it once. */
  lemma SubjectTrimmedOnce(studentId: Id, grade: Option<string>, subjectInput: string, comment: string,
                           percentage: string, studyTime: string, status: string)
    ensures Payload(studentId, grade, Text.Trim(subjectInput), comment, percentage, studyTime, status)
         == Payload(studentId, grade, subjectInput, comment, percentage, studyTime, status)
  {
    Text.TrimIdempotent(subjectInput);
  }
}
