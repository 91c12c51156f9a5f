/**
 * The "Add New Student" form: the grade choices, the picture size limit, the
 * checks made before the student is sent, and the reset after it was added.
 * `new Date(birthDate)` and the clock are parameters: `birth` is the instant
 * the entered date denotes (`None` for an invalid date) and `now` is today.
 */
module AddStudentModal {
  import opened Wrappers
  import Text
  import Calendar
  import StudentsPage
  import opened Replies

  /** `gradeOptions`, in the order the select lists them. */
  const GradeOptions: seq<(string, nat)> := [
    ("Kindergarten", 0), ("1st Grade", 1), ("2nd Grade", 2), ("3rd Grade", 3), ("4th Grade", 4),
    ("5th Grade", 5), ("6th Grade", 6), ("7th Grade", 7), ("8th Grade", 8), ("9th Grade", 9),
    ("10th Grade", 10), ("11th Grade", 11), ("12th Grade", 12)]

  /** The grade a label stands for. */
  function GradeOfLabel(name: string): (g: Option<nat>)
    ensures g.Some? ==> g.value <= 12
  {
    match name
    case "Kindergarten" => Some(0)
    case "1st Grade" => Some(1)
    case "2nd Grade" => Some(2)
    case "3rd Grade" => Some(3)
    case "4th Grade" => Some(4)
    case "5th Grade" => Some(5)
    case "6th Grade" => Some(6)
    case "7th Grade" => Some(7)
    case "8th Grade" => Some(8)
    case "9th Grade" => Some(9)
    case "10th Grade" => Some(10)
    case "11th Grade" => Some(11)
    case "12th Grade" => Some(12)
    case _ => None
  }

  /**
   * The options pair 13 labels with the grades 0 to 12, one each: the i-th
   * option is grade i, and its label names that grade and no other.
   */
  lemma GradeOptionsBijection()
    ensures |GradeOptions| == 13
    ensures forall i :: 0 <= i < 13 ==> GradeOptions[i].1 == i && GradeOfLabel(GradeOptions[i].0) == Some(i)
    ensures forall i, j :: 0 <= i < 13 && 0 <= j < 13 && GradeOptions[i].0 == GradeOptions[j].0 ==> i == j
  {
    forall i | 0 <= i < 13
      ensures GradeOptions[i].1 == i && GradeOfLabel(GradeOptions[i].0) == Some(i)
    {
    }
  }

  /** The string a chosen option puts in the form: its grade in decimal. */
  function OptionValue(i: nat): (v: string)
    ensures v != "" && (forall k :: 0 <= k < |v| ==> Text.IsDigit(v[k])) && Text.DigitsValue(v) == i
  {
    Text.PadNat(i, 1)
  }

  /** The decimal rendering of each grade is the Students page's key for it. */
  lemma OptionValuesAreGradeKeys()
    ensures forall i :: 0 <= i < 13 ==> OptionValue(i) == StudentsPage.GradeKeys[i]
  {
    forall i | 0 <= i < 13
      ensures OptionValue(i) == StudentsPage.GradeKeys[i]
    {
      if i >= 10 {
        assert Text.PadNat(1, 0) == "1";
        assert Text.PadNat(i, 1) == Text.PadNat(1, 0) + [('0' as int + i % 10) as char];
      }
    }
  }

  /**
   * The grade list labels a stored grade with the option it was chosen from:
   * key i of the Students page is shown with option i's label.
   */
  lemma OptionsMatchStudentList()
    ensures forall i :: 0 <= i < 13 ==> OptionValue(i) == StudentsPage.GradeKeys[i]
    ensures forall i :: 0 <= i < 13 ==> StudentsPage.GradeLabel(Some(StudentsPage.GradeKeys[i])) == StudentsPage.OwnLabel(GradeOptions[i].0)
  {
    OptionValuesAreGradeKeys();
    forall i | 0 <= i < 13
      ensures StudentsPage.GradeLabel(Some(StudentsPage.GradeKeys[i])) == StudentsPage.OwnLabel(GradeOptions[i].0)
    {
    }
  }

  /** A chosen file, of which the form reads the size in bytes. */
  datatype Picture = Picture(name: string, size: nat)

  /** The largest picture accepted: 2 MiB. */
  const MaxPictureBytes: nat := 2 * 1024 * 1024

  /** `1000 * 60 * 60 * 24 * 365.25`: a year in milliseconds. */
  const OneYearMs: int := 31_557_600_000

  const FillRequired := "Please fill in all required fields."
  const TooYoung := "Student should be minimum one year old."
  const PictureTooLarge := "File size must be less than 2MB. Please upload a smaller image."

  /**
   * The checks of `handleSubmit`: the names and the birth date are filled
   * in and a grade is chosen, then the date is not in the future and at
   * least a year ago. An invalid date compares false both times and passes.
   */
  function CheckForm(firstName: string, lastName: string, birthDate: string, grade: string,
                     birth: Option<int>, now: int): (err: Option<string>)
    ensures firstName == "" || lastName == "" || birthDate == "" || grade == "" ==> err == Some(FillRequired)
    ensures err.None? <==>
      firstName != "" && lastName != "" && birthDate != "" && grade != ""
      && (birth.None? || now - birth.value >= OneYearMs)
    ensures err.Some? ==> err == Some(FillRequired) || err == Some(TooYoung)
  {
    if firstName == "" || lastName == "" || birthDate == "" || grade == "" then Some(FillRequired)
    else if birth.Some? && birth.value > now then Some(TooYoung)
    else if birth.Some? && now - birth.value < OneYearMs then Some(TooYoung)
    else None
  }

  /** Kindergarten is grade "0", a chosen grade: the check is `grade === ""`, not falsiness. */
  lemma KindergartenAccepted(firstName: string, lastName: string, birthDate: string, now: int)
    requires firstName != "" && lastName != "" && birthDate != ""
    ensures CheckForm(firstName, lastName, birthDate, OptionValue(0), None, now).None?
  {
  }

  /** A date in the future is refused, and so is one less than a year ago. */
  lemma AgeLimits(birthDate: string, birth: int, now: int)
    requires birthDate != ""
    ensures birth > now ==> CheckForm("a", "b", birthDate, "0", Some(birth), now) == Some(TooYoung)
    ensures now - OneYearMs < birth ==> CheckForm("a", "b", birthDate, "0", Some(birth), now) == Some(TooYoung)
    ensures birth <= now - OneYearMs ==> CheckForm("a", "b", birthDate, "0", Some(birth), now).None?
  {
  }

  /** The picture a chosen file leaves in the form, with the error it shows. */
  function ImageChoice(file: Option<Picture>): (r: (Option<Picture>, string))
    ensures file.Some? && file.value.size > MaxPictureBytes ==> r == (None, PictureTooLarge)
    ensures file.None? || file.value.size <= MaxPictureBytes ==> r == (file, "")
    ensures r.0.Some? ==> r.0.value.size <= MaxPictureBytes
  {
    if file.Some? && file.value.size > MaxPictureBytes then (None, PictureTooLarge) else (file, "")
  }

  /** The multipart body the form sends; `subjects` is sent only when adding. */
  datatype StudentUpload = StudentUpload(
    firstName: string, lastName: string, birthDate: string, grade: string,
    subjects: Option<string>, profilePicture: Option<Picture>)

  /** The error a failed request shows: the size message when the server's message mentions "2MB". */
  function FailureText(message: Option<string>, fallback: string): (t: string)
    ensures Text.Truthy(message) && Text.Contains(message.value, "2MB") ==> t == PictureTooLarge
    ensures !(Text.Truthy(message) && Text.Contains(message.value, "2MB")) ==> t == ErrorText(message, fallback)
  {
    if Text.Truthy(message) && Text.Contains(message.value, "2MB") then PictureTooLarge
    else ErrorText(message, fallback)
  }

  /** The inputs of the form, by their `name`. */
  datatype Field = FirstName | LastName | BirthDate | Grade

  class AddStudentForm {
    var firstName: string
    var lastName: string
    var birthDate: string
    var grade: string
    var profilePicture: Option<Picture>
    var error: string
    var showCalendar: bool

    constructor()
      ensures Empty() && error == "" && !showCalendar
    {
      firstName := "";
      lastName := "";
      birthDate := "";
      grade := "";
      profilePicture := None;
      error := "";
      showCalendar := false;
    }

    /** The form as it starts, and as a successful add leaves it. */
    predicate Empty()
      reads this
    {
      firstName == "" && lastName == "" && birthDate == "" && grade == "" && profilePicture.None?
    }

    /** `handleChange`: store the value and clear the error. */
    method HandleChange(field: Field, value: string)
      modifies this
      ensures field == FirstName ==> firstName == value
      ensures field == LastName ==> lastName == value
      ensures field == BirthDate ==> birthDate == value
      ensures field == Grade ==> grade == value
      ensures field != FirstName ==> firstName == old(firstName)
      ensures field != LastName ==> lastName == old(lastName)
      ensures field != BirthDate ==> birthDate == old(birthDate)
      ensures field != Grade ==> grade == old(grade)
      ensures error == "" && profilePicture == old(profilePicture) && showCalendar == old(showCalendar)
    {
      error := "";
      match field
      case FirstName => firstName := value;
      case LastName => lastName := value;
      case BirthDate => birthDate := value;
      case Grade => grade := value;
    }

    /** `handleImageChange`: keep a file of at most 2 MiB; a larger one is refused and cleared. */
    method HandleImageChange(file: Option<Picture>)
      modifies this
      ensures (profilePicture, error) == ImageChoice(file)
      ensures firstName == old(firstName) && lastName == old(lastName) && birthDate == old(birthDate) && grade == old(grade)
    {
      var choice := ImageChoice(file);
      profilePicture := choice.0;
      error := choice.1;
    }

    /** `handleDaySelect`: the picked day, as the first ten characters of its ISO rendering. */
    method HandleDaySelect(date: Option<int>)
      modifies this
      ensures date.Some? ==> birthDate == Calendar.IsoDatePrefix(date.value) && !showCalendar
      ensures date.None? ==> birthDate == old(birthDate) && showCalendar == old(showCalendar)
      ensures firstName == old(firstName) && lastName == old(lastName) && grade == old(grade)
      ensures profilePicture == old(profilePicture) && error == old(error)
    {
      if date.Some? {
        birthDate := Calendar.IsoDatePrefix(date.value);
        showCalendar := false;
      }
    }

    /**
     * `handleSubmit`: check the form, send it with an empty subject list and
     * the picture if one is chosen, and on success empty the form and close.
     */
    method HandleSubmit(birth: Option<int>, now: int, reply: Reply) returns (sent: Option<StudentUpload>, closed: bool)
      modifies this
      ensures CheckForm(old(firstName), old(lastName), old(birthDate), old(grade), birth, now).Some? ==>
        && sent.None? && !closed
        && error == CheckForm(old(firstName), old(lastName), old(birthDate), old(grade), birth, now).value
      ensures sent.Some? <==> CheckForm(old(firstName), old(lastName), old(birthDate), old(grade), birth, now).None?
      ensures sent.Some? ==>
        sent.value == StudentUpload(old(firstName), old(lastName), old(birthDate), old(grade), Some("[]"), old(profilePicture))
      ensures sent.Some? && reply.Success? ==> closed && Empty()
      ensures sent.Some? && reply.Failure? ==> !closed && error == FailureText(reply.message, "Failed to add student")
      ensures !closed ==>
        firstName == old(firstName) && lastName == old(lastName) && birthDate == old(birthDate)
        && grade == old(grade) && profilePicture == old(profilePicture)
    {
      var err := CheckForm(firstName, lastName, birthDate, grade, birth, now);
      if err.Some? {
        error := err.value;
        return None, false;
      }
      sent := Some(StudentUpload(firstName, lastName, birthDate, grade, Some("[]"), profilePicture));
      if reply.Success? {
        firstName := "";
        lastName := "";
        birthDate := "";
        grade := "";
        profilePicture := None;
        return sent, true;
      }
      error := FailureText(reply.message, "Failed to add student");
      closed := false;
    }
  }
}
