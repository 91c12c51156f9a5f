/**
 * The "Edit Student" form: filled in from the stored profile when opened,
 * then checked as the add form is and sent as an update. It shares
 * `gradeOptions`, the picture limit and the checks with the add form; unlike
 * it, it sends no `subjects` field and keeps its fields after a save.
 */
module EditStudentModal {
  import opened Wrappers
  import opened Models
  import Calendar
  import StudentController
  import opened Replies
  import AddStudentModal

  /** The fields of the form. */
  datatype Fields = Fields(firstName: string, lastName: string, birthDate: string, grade: string)

  /**
   * The pre-fill of the opened form: the names or "", the birth date as its
   * ISO day, and the stored grade or "" (a missing grade).
   */
  function Prefill(info: StudentInfo): (f: Fields)
    ensures f.firstName == info.firstName && f.lastName == info.lastName
    ensures info.birthDate.None? <==> f.birthDate == ""
    ensures info.birthDate.Some? ==> f.birthDate == Calendar.IsoDatePrefix(info.birthDate.value)
    ensures info.grade.Some? ==> f.grade == info.grade.value
    ensures info.grade.None? ==> f.grade == ""
  {
    Fields(info.firstName, info.lastName,
           if info.birthDate.Some? then Calendar.IsoDatePrefix(info.birthDate.value) else "",
           if info.grade.Some? then info.grade.value else "")
  }

  class EditStudentForm {
    var firstName: string
    var lastName: string
    var birthDate: string
    var grade: string
    var profilePicture: Option<AddStudentModal.Picture>
    var error: string
    var showCalendar: bool

    constructor()
      ensures firstName == "" && lastName == "" && birthDate == "" && grade == ""
      ensures profilePicture.None? && error == "" && !showCalendar
    {
      firstName := "";
      lastName := "";
      birthDate := "";
      grade := "";
      profilePicture := None;
      error := "";
      showCalendar := false;
    }

    function Current(): Fields
      reads this
    {
      Fields(firstName, lastName, birthDate, grade)
    }

    /** The effect run when the form gets a student: its profile, and no new picture. */
    method Open(info: StudentInfo)
      modifies this
      ensures Current() == Prefill(info) && profilePicture.None?
      ensures error == old(error) && showCalendar == old(showCalendar)
    {
      var f := Prefill(info);
      firstName := f.firstName;
      lastName := f.lastName;
      birthDate := f.birthDate;
      grade := f.grade;
      profilePicture := None;
    }

    /** `handleChange`: store the value and clear the error. */
    method HandleChange(field: AddStudentModal.Field, value: string)
      modifies this
      ensures field == AddStudentModal.FirstName ==> Current() == old(Current()).(firstName := value)
      ensures field == AddStudentModal.LastName ==> Current() == old(Current()).(lastName := value)
      ensures field == AddStudentModal.BirthDate ==> Current() == old(Current()).(birthDate := value)
      ensures field == AddStudentModal.Grade ==> Current() == old(Current()).(grade := value)
      ensures error == "" && profilePicture == old(profilePicture) && showCalendar == old(showCalendar)
    {
      error := "";
      match field
      case FirstName => firstName := value;
      case LastName => lastName := value;
      case BirthDate => birthDate := value;
      case Grade => grade := value;
    }

    /** `handleImageChange`, with the add form's 2 MiB rule. */
    method HandleImageChange(file: Option<AddStudentModal.Picture>)
      modifies this
      ensures (profilePicture, error) == AddStudentModal.ImageChoice(file)
      ensures Current() == old(Current()) && showCalendar == old(showCalendar)
    {
      var choice := AddStudentModal.ImageChoice(file);
      profilePicture := choice.0;
      error := choice.1;
    }

    /** `handleDaySelect`: the picked day as its ISO date. */
    method HandleDaySelect(date: Option<int>)
      modifies this
      ensures date.Some? ==> Current() == old(Current()).(birthDate := Calendar.IsoDatePrefix(date.value)) && !showCalendar
      ensures date.None? ==> Current() == old(Current()) && showCalendar == old(showCalendar)
      ensures profilePicture == old(profilePicture) && error == old(error)
    {
      if date.Some? {
        birthDate := Calendar.IsoDatePrefix(date.value);
        showCalendar := false;
      }
    }

    /**
     * `handleSubmit`: the add form's checks, then the update with the four
     * fields and the picture if one was chosen. The fields are kept either way.
     */
    method HandleSubmit(birth: Option<int>, now: int, reply: Reply)
      returns (sent: Option<AddStudentModal.StudentUpload>, closed: bool)
      modifies this
      ensures AddStudentModal.CheckForm(old(firstName), old(lastName), old(birthDate), old(grade), birth, now).Some? ==>
        && sent.None? && !closed
        && error == AddStudentModal.CheckForm(old(firstName), old(lastName), old(birthDate), old(grade), birth, now).value
      ensures sent.Some? <==> AddStudentModal.CheckForm(old(firstName), old(lastName), old(birthDate), old(grade), birth, now).None?
      ensures sent.Some? ==>
        sent.value == AddStudentModal.StudentUpload(old(firstName), old(lastName), old(birthDate), old(grade), None, old(profilePicture))
      ensures closed <==> sent.Some? && reply.Success?
      ensures sent.Some? && reply.Failure? ==> error == AddStudentModal.FailureText(reply.message, "Failed to update student")
      ensures Current() == old(Current()) && profilePicture == old(profilePicture)
    {
      var err := AddStudentModal.CheckForm(firstName, lastName, birthDate, grade, birth, now);
      if err.Some? {
        error := err.value;
        return None, false;
      }
      sent := Some(AddStudentModal.StudentUpload(firstName, lastName, birthDate, grade, None, profilePicture));
      if reply.Success? {
        return sent, true;
      }
      error := AddStudentModal.FailureText(reply.message, "Failed to update student");
      closed := false;
    }
  }

  /**
   * A stored profile with both names, a birth date and a grade passes the
   * required-fields check as opened; one without a grade fails it until a
   * grade is chosen.
   */
  lemma PrefillRequiredFields(info: StudentInfo, birth: Option<int>, now: int)
    ensures var f := Prefill(info);
      AddStudentModal.CheckForm(f.firstName, f.lastName, f.birthDate, f.grade, birth, now) == Some(AddStudentModal.FillRequired)
      <== info.firstName == "" || info.lastName == "" || info.birthDate.None? || info.grade.None? || info.grade == Some("")
    ensures var f := Prefill(info);
      info.firstName != "" && info.lastName != "" && info.birthDate.Some? && info.grade.Some? && info.grade.value != ""
      ==> AddStudentModal.CheckForm(f.firstName, f.lastName, f.birthDate, f.grade, birth, now) != Some(AddStudentModal.FillRequired)
  {
  }

  /**
   * Saving the opened form unchanged keeps the names, the grade and the
   * picture of the profile: `updateStudent` merges what is sent, and without
   * a new file the stored picture is kept. Only the birth date is re-read from
   * its ISO day (`parsed` is what the server
   * makes of it).
   */
  lemma UnchangedSaveKeepsProfile(info: StudentInfo, parsed: StudentController.DateField)
    ensures var f := Prefill(info);
      var body := StudentController.UpdateBody(Some(f.firstName), Some(f.lastName), parsed,
                                                if f.grade != "" then Some(f.grade) else None);
      var merged := StudentController.MergedInfo(info, body, None);
      && merged.firstName == info.firstName && merged.lastName == info.lastName
      && merged.profilePicture == info.profilePicture
      && (info.grade.Some? && info.grade.value != "" ==> merged.grade == info.grade)
      && (!parsed.ValidDate? ==> merged.birthDate == info.birthDate)
      && (parsed.ValidDate? ==> merged.birthDate == Some(parsed.ms))
  {
  }
}
