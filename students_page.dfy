/**
 * The parent's student list: the live search, the choice of detail view, the
 * picture URL and the list updates after add, edit and delete.
 */
module StudentsPage {
  import opened Wrappers
  import Text
  import Seqs
  import JsValues

  /** The fields of a student the page reads; `picture` is `None` when not a string. */
  datatype StudentRow = StudentRow(
    id: string,
    firstName: string,
    lastName: string,
    grade: Option<string>,
    email: Option<string>,
    picture: Option<string>)

  /** The keys of `gradeLabels`, grade 0 (Kindergarten) to 12. */
  const GradeKeys: seq<string> := ["0", "1", "2", "3", "4", "5", "6", "7", "8", "9", "10", "11", "12"]

  /** What `gradeLabels[grade]` gives: one of its own labels, `undefined`, or an inherited member. */
  datatype LabelLookup = OwnLabel(name: string) | NoLabel | InheritedMember

  /**
   * `gradeLabels[grade]`. The stored grade is a string and the object's own
   * keys are "0" to "12": Kindergarten for "0", "Nth Grade" for the others.
   * A grade naming an `Object.prototype` member ("constructor", "__proto__",
   * …) finds that member; any other string ("05" included) finds nothing.
   */
  function GradeLabel(grade: Option<string>): (r: LabelLookup)
    ensures r.OwnLabel? <==> grade.Some? && grade.value in GradeKeys
    ensures r.InheritedMember? <==> grade.Some? && JsValues.Inherited(grade.value)
    ensures grade == Some("0") ==> r == OwnLabel("Kindergarten")
  {
    if grade.None? then NoLabel
    else if JsValues.Inherited(grade.value) then
      JsValues.InheritedNotDigit(grade.value);
      InheritedMember
    else match grade.value
      case "0" => OwnLabel("Kindergarten")
      case "1" => OwnLabel("1st Grade")
      case "2" => OwnLabel("2nd Grade")
      case "3" => OwnLabel("3rd Grade")
      case "4" => OwnLabel("4th Grade")
      case "5" => OwnLabel("5th Grade")
      case "6" => OwnLabel("6th Grade")
      case "7" => OwnLabel("7th Grade")
      case "8" => OwnLabel("8th Grade")
      case "9" => OwnLabel("9th Grade")
      case "10" => OwnLabel("10th Grade")
      case "11" => OwnLabel("11th Grade")
      case "12" => OwnLabel("12th Grade")
      case _ => NoLabel
  }

  /** `(gradeLabels[s.grade] || "")` for a student whose lookup gives no inherited member. */
  function LabelText(l: LabelLookup): string {
    if l.OwnLabel? then l.name else ""
  }

  /** The search over "first last", the grade label and the e-mail, all lower-cased. */
  predicate MatchesSearch(s: StudentRow, q: string) {
    || Text.Contains(Text.Lower(s.firstName + " " + s.lastName), q)
    || Text.Contains(Text.Lower(LabelText(GradeLabel(s.grade))), q)
    || Text.Contains(Text.Lower(s.email.GetOr("")), q)
  }

  /**
   * A student whose grade finds an inherited member: `.toLowerCase()` on a
   * function or on the prototype object throws a TypeError.
   */
  predicate BreaksSearch(s: StudentRow) {
    GradeLabel(s.grade).InheritedMember?
  }

  /**
   * `filteredStudents`, computed while the page renders. A blank term returns
   * before the label is read; otherwise one student with an inherited grade
   * makes the filter throw, and the list is not rendered (`None`).
   */
  function FilteredStudents(students: seq<StudentRow>, searchTerm: string): (r: Option<seq<StudentRow>>)
    ensures r.None? <==> Text.Normalize(searchTerm) != [] && exists s :: s in students && BreaksSearch(s)
    ensures r.Some? ==>
      forall s :: s in r.value <==> s in students && (Text.Normalize(searchTerm) == [] || MatchesSearch(s, Text.Normalize(searchTerm)))
  {
    var q := Text.Normalize(searchTerm);
    if q != [] && exists s :: s in students && BreaksSearch(s) then None
    else Some(Seqs.Filter(students, s => q == [] || MatchesSearch(s, q)))
  }

  /** The search keeps the list's order, and a blank search keeps every student. */
  lemma FilteredStudentsSpec(students: seq<StudentRow>, searchTerm: string)
    ensures FilteredStudents(students, searchTerm).Some? ==>
      Seqs.IsSubsequence(FilteredStudents(students, searchTerm).value, students)
    ensures Text.Normalize(searchTerm) == [] ==> FilteredStudents(students, searchTerm) == Some(students)
  {
    var q := Text.Normalize(searchTerm);
    Seqs.FilterIsSubsequence(students, s => q == [] || MatchesSearch(s, q));
    if q == [] {
      Seqs.FilterAll(students, s => q == [] || MatchesSearch(s, q));
    }
  }

  /**
   * A student saved with the grade "constructor" stops every non-blank search
   * of the list, even for a term that matches another student.
   */
  lemma InheritedGradeBreaksSearch(other: StudentRow)
    ensures FilteredStudents([other, other.(grade := Some("constructor"))], "a").None?
  {
    var broken := other.(grade := Some("constructor"));
    assert JsValues.KeyName(JsValues.Constructor) == "constructor";
    assert BreaksSearch(broken);
    assert broken in [other, broken];
    assert Text.Normalize("a") != [] by {
      Text.TrimFixed("a");
    }
  }

  /** The two detail views. */
  datatype DetailView = HoursView | CompletionView

  /** `handleViewStudent`: the hours view for a Carnegie Unit state. */
  function ViewFor(creditDefinition: string): (v: DetailView)
    ensures v == HoursView <==> creditDefinition == "Carnegie Unit"
  {
    if creditDefinition == "Carnegie Unit" then HoursView else CompletionView
  }

  /** A 'Local' state, which the transcript treats as hours-based, gets the completion view here. */
  lemma LocalOpensCompletionView()
    ensures ViewFor("Local") == CompletionView
    ensures ViewFor("carnegie unit") == CompletionView
  {
  }

  const DefaultAvatar: string := "/images/default-avatar.jpg"

  /** `getProfilePictureUrl`, with `REACT_APP_API_URL` as `apiPrefix`. */
  function PictureUrl(apiPrefix: string, picture: Option<string>): (url: string)
    ensures !Text.Truthy(picture) ==> url == DefaultAvatar
    ensures Text.Truthy(picture) && (Text.StartsWith(picture.value, "/uploads") || Text.StartsWith(picture.value, "/images")) ==>
      url == apiPrefix + picture.value
    ensures Text.Truthy(picture) && !Text.StartsWith(picture.value, "/uploads") && !Text.StartsWith(picture.value, "/images") ==>
      url == picture.value
  {
    if !Text.Truthy(picture) then DefaultAvatar
    else if Text.StartsWith(picture.value, "/uploads") || Text.StartsWith(picture.value, "/images") then apiPrefix + picture.value
    else picture.value
  }

  /**
   * The default avatar is served from the page's own origin, but the same path
   * stored on a student is fetched from the API server.
   */
  lemma DefaultAvatarNotPrefixed(apiPrefix: string)
    ensures PictureUrl(apiPrefix, None) == DefaultAvatar
    ensures PictureUrl(apiPrefix, Some(DefaultAvatar)) == apiPrefix + DefaultAvatar
  {
    assert DefaultAvatar[..|"/images"|] == "/images";
  }

  /** A picture URL already absolute is used as it is. */
  lemma AbsoluteUrlKept(apiPrefix: string, url: string)
    requires url != [] && url[0] != '/'
    ensures PictureUrl(apiPrefix, Some(url)) == url
  {
  }

  /** `onStudentAdded`. */
  function Added(students: seq<StudentRow>, s: StudentRow): (r: seq<StudentRow>)
    ensures |r| == |students| + 1 && r[..|students|] == students && r[|students|] == s
  {
    students + [s]
  }

  /** `handleDeleteStudent`'s update: `prev.filter(s => s._id !== id)`. */
  function Deleted(students: seq<StudentRow>, id: string): (r: seq<StudentRow>)
    ensures forall s :: s in r <==> s in students && s.id != id
  {
    Seqs.Filter(students, (s: StudentRow) => s.id != id)
  }

  /** Delete keeps the order of the others and removes nothing else. */
  lemma DeletedSpec(students: seq<StudentRow>, id: string)
    ensures Seqs.IsSubsequence(Deleted(students, id), students)
    ensures (forall s :: s in students ==> s.id != id) ==> Deleted(students, id) == students
  {
    Seqs.FilterIsSubsequence(students, (s: StudentRow) => s.id != id);
    if forall s :: s in students ==> s.id != id {
      Seqs.FilterAll(students, (s: StudentRow) => s.id != id);
    }
  }

  /** `onStudentUpdated`: every entry with the updated id is replaced, the rest stay. */
  function Updated(students: seq<StudentRow>, u: StudentRow): (r: seq<StudentRow>)
    ensures |r| == |students|
    ensures forall i :: 0 <= i < |r| ==> r[i] == if students[i].id == u.id then u else students[i]
  {
    seq(|students|, i requires 0 <= i < |students| => if students[i].id == u.id then u else students[i])
  }

  /** An update keeps every position's id, and repeating it changes nothing more. */
  lemma UpdatedSpec(students: seq<StudentRow>, u: StudentRow)
    ensures forall i :: 0 <= i < |students| ==> Updated(students, u)[i].id == students[i].id
    ensures Updated(Updated(students, u), u) == Updated(students, u)
  {
  }

  /** A new student shows up in the search that it matches, whenever the search is rendered. */
  lemma AddedIsFound(students: seq<StudentRow>, s: StudentRow, searchTerm: string)
    requires Text.Normalize(searchTerm) == [] || MatchesSearch(s, Text.Normalize(searchTerm))
    ensures FilteredStudents(Added(students, s), searchTerm).Some? ==> s in FilteredStudents(Added(students, s), searchTerm).value
  {
    assert Added(students, s)[|students|] == s;
  }
}
