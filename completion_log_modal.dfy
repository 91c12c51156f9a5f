/**
 * The completion form: the parent picks a subject, the completion choice is
 * filled in from the subject's stored flag, and saving sends
 * `{ isCompleted }` for that subject.
 */
module CompletionLogModal {
  import opened Wrappers
  import opened Models
  import Text
  import DailyLogController
  import LogDailyModal

  /** `student.subjects.find(...)` by trimmed, lower-cased name. */
  function FindByName(subjects: seq<Subject>, input: string): (r: Option<Subject>)
    ensures r.Some? ==> r.value in subjects && Text.Normalize(r.value.subjectName) == Text.Normalize(input)
    ensures r.None? <==> forall i :: 0 <= i < |subjects| ==> Text.Normalize(subjects[i].subjectName) != Text.Normalize(input)
  {
    if subjects == [] then None
    else if Text.Normalize(subjects[0].subjectName) == Text.Normalize(input) then Some(subjects[0])
    else FindByName(subjects[1..], input)
  }

  /** The choice `handleSubjectChange` fills in: the matching subject's flag, or none. */
  function Autofill(subjects: seq<Subject>, input: string): Option<bool> {
    var m := FindByName(subjects, input);
    if m.Some? then Some(m.value.isCompleted) else None
  }

  /**
   * The filled-in choice is the flag of the very subject the server will
   * update, and there is one exactly when the server knows the name.
   */
  lemma {:induction false} AutofillLikeServer(subjects: seq<Subject>, input: string)
    ensures Autofill(subjects, input).Some? <==> DailyLogController.FindSubject(subjects, input).Some?
    ensures Autofill(subjects, input).Some? ==>
      Autofill(subjects, input).value == subjects[DailyLogController.FindSubject(subjects, input).value].isCompleted
  {
    var k := DailyLogController.FindSubject(subjects, input);
    if subjects != [] && Text.Normalize(subjects[0].subjectName) != Text.Normalize(input) {
      AutofillLikeServer(subjects[1..], input);
      var k1 := DailyLogController.FindSubject(subjects[1..], input);
      if k1.Some? {
        assert subjects[1..][k1.value] == subjects[k1.value + 1];
        assert k == Some(k1.value + 1) by {
          assert forall j :: 1 <= j < k1.value + 1 ==> subjects[j] == subjects[1..][j - 1];
        }
      } else {
        assert forall j :: 1 <= j < |subjects| ==> subjects[j] == subjects[1..][j - 1];
      }
    }
  }

  /** The request `saveCompletion` sends: the student, the subject in the path, the body. */
  datatype CompletionRequest = CompletionRequest(studentId: Id, subjectName: string, isCompleted: Option<bool>)

  const SubjectRequired := "Subject is required."
  const ChoiceRequired := "Please select completion status."
  const CompletionSaved := "\U{2713} Completion status saved!"
  const SaveFailed := "\U{274C} Error saving completion status."

  /** The form's state, for the student whose subjects it was opened with. */
  class CompletionForm {
    const subjects: seq<Subject>
    var subjectInput: string
    var isCompleted: Option<bool>
    var subjectOptions: seq<string>
    var message: Option<string>
    var showCreateModal: bool

    constructor(subjects: seq<Subject>)
      ensures this.subjects == subjects
      ensures subjectInput == "" && isCompleted.None? && subjectOptions == LogDailyModal.SubjectNames(subjects)
      ensures message.None? && !showCreateModal
    {
      this.subjects := subjects;
      subjectInput := "";
      isCompleted := None;
      subjectOptions := LogDailyModal.SubjectNames(subjects);
      message := None;
      showCreateModal := false;
    }

    /** `handleSubjectChange`: take the typed name and fill the choice in from it. */
    method HandleSubjectChange(value: string)
      modifies this
      ensures subjectInput == value && isCompleted == Autofill(subjects, value)
      ensures subjectOptions == old(subjectOptions) && message == old(message) && showCreateModal == old(showCreateModal)
    {
      subjectInput := value;
      isCompleted := Autofill(subjects, value);
    }

    /**
     * `saveCompletion`: put the current choice for `subjectName`
     * (`putSucceeds` is the outcome); on success the subject and choice are
     * reset. The confirm dialog is left as it is.
     */
    method SaveCompletion(studentId: Id, subjectName: string, putSucceeds: bool)
      returns (sent: CompletionRequest)
      modifies this
      ensures sent == CompletionRequest(studentId, subjectName, old(isCompleted))
      ensures subjectOptions == old(subjectOptions) && showCreateModal == old(showCreateModal)
      ensures putSucceeds ==> subjectInput == "" && isCompleted.None? && message == Some(CompletionSaved)
      ensures !putSucceeds ==>
        subjectInput == old(subjectInput) && isCompleted == old(isCompleted) && message == Some(SaveFailed)
    {
      sent := CompletionRequest(studentId, subjectName, isCompleted);
      if putSucceeds {
        message := Some(CompletionSaved);
        subjectInput := "";
        isCompleted := None;
      } else {
        message := Some(SaveFailed);
      }
    }

    /**
     * `handleSave`: refuse an empty subject, then a missing choice, ask for
     * confirmation of an unknown subject, and otherwise save.
     */
    method HandleSave(studentId: Id, putSucceeds: bool)
      returns (sent: Option<CompletionRequest>, refreshed: bool)
      modifies this
      ensures subjectOptions == old(subjectOptions)
      ensures Text.Trim(old(subjectInput)) == "" ==>
        sent.None? && !refreshed && message == Some(SubjectRequired) && showCreateModal == old(showCreateModal)
      ensures Text.Trim(old(subjectInput)) != "" && old(isCompleted).None? ==>
        sent.None? && !refreshed && message == Some(ChoiceRequired) && showCreateModal == old(showCreateModal)
      ensures Text.Trim(old(subjectInput)) != "" && old(isCompleted).Some? &&
              !LogDailyModal.AlreadyRegistered(old(subjectOptions), old(subjectInput)) ==>
        sent.None? && !refreshed && showCreateModal && message.None?
      ensures sent.Some? <==>
        Text.Trim(old(subjectInput)) != "" && old(isCompleted).Some? &&
        LogDailyModal.AlreadyRegistered(old(subjectOptions), old(subjectInput))
      ensures sent.Some? ==>
        && refreshed
        && sent.value == CompletionRequest(studentId, Text.Trim(old(subjectInput)), old(isCompleted))
        && sent.value.isCompleted.Some?
        && (putSucceeds ==> subjectInput == "" && isCompleted.None? && message == Some(CompletionSaved))
        && (!putSucceeds ==> message == Some(SaveFailed))
      ensures sent.None? ==> subjectInput == old(subjectInput) && isCompleted == old(isCompleted)
    {
      message := None;
      var trimmed := Text.Trim(subjectInput);
      if trimmed == "" {
        message := Some(SubjectRequired);
        return None, false;
      }
      if isCompleted.None? {
        message := Some(ChoiceRequired);
        return None, false;
      }
      Text.NormalizeTrim(subjectInput);
      if !LogDailyModal.AlreadyRegistered(subjectOptions, trimmed) {
        showCreateModal := true;
        return None, false;
      }
      var request := SaveCompletion(studentId, trimmed, putSucceeds);
      return Some(request), true;
    }

    /**
     * `handleCreateSubject`: the user confirmed the unknown subject; save it
     * trimmed and close the dialog. `saveCompletion` swallows request errors,
     * so the list is refreshed after a failed save too.
     */
    method HandleCreateSubject(studentId: Id, putSucceeds: bool)
      returns (sent: CompletionRequest, refreshed: bool)
      modifies this
      ensures sent == CompletionRequest(studentId, Text.Trim(old(subjectInput)), old(isCompleted))
      ensures refreshed
      ensures !showCreateModal && subjectOptions == old(subjectOptions)
      ensures putSucceeds ==> subjectInput == "" && isCompleted.None? && message == Some(CompletionSaved)
      ensures !putSucceeds ==>
        subjectInput == old(subjectInput) && isCompleted == old(isCompleted) && message == Some(SaveFailed)
    {
      sent := SaveCompletion(studentId, Text.Trim(subjectInput), putSucceeds);
      showCreateModal := false;
      refreshed := true;
    }
  }

  /** Retyping a registered subject restores its stored flag, so saving unchanged is a no-op choice. */
  lemma RegisteredNameFillsStoredFlag(subjects: seq<Subject>, i: nat)
    requires i < |subjects| && forall j :: 0 <= j < i ==> Text.Normalize(subjects[j].subjectName) != Text.Normalize(subjects[i].subjectName)
    ensures Autofill(subjects, subjects[i].subjectName) == Some(subjects[i].isCompleted)
  {
    AutofillLikeServer(subjects, subjects[i].subjectName);
  }
}
