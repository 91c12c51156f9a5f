/** The diploma generator's choice of title from the `grade` query parameter. */
module DiplomaServer {
  import opened Wrappers
  import Text
  import Seqs

  /** The query parameters; an absent one is `None`. */
  datatype DiplomaQuery = DiplomaQuery(name: Option<string>, state: Option<string>, grade: Option<string>)

  /** The texts the diploma is drawn with. */
  datatype DiplomaText = DiplomaText(name: string, state: string, gradeRaw: string, title: string)

  /** `''.join(filter(str.isdigit, grade_raw))`. */
  function DigitsOf(raw: string): (ds: string)
    ensures forall i :: 0 <= i < |ds| ==> Text.IsDigit(ds[i])
  {
    Seqs.Filter(raw, Text.IsDigit)
  }

  /** The normalised grade: the digits read as one integer, `None` when there are none (`int('')` fails). */
  function Grade(raw: string): Option<nat> {
    var ds := DigitsOf(raw);
    if ds == [] then None else Some(Text.DigitsValue(ds))
  }

  /** `diploma_title`. */
  function Title(grade: Option<nat>): (title: string)
    ensures grade.None? ==> title == "Academic Diploma"
    ensures grade.Some? && grade.value <= 5 ==> title == "Elementary School Diploma"
    ensures grade.Some? && 6 <= grade.value <= 8 ==> title == "Middle School Diploma"
    ensures grade.Some? && grade.value >= 9 ==> title == "High School Diploma"
  {
    if grade.None? then "Academic Diploma"
    else if grade.value <= 5 then "Elementary School Diploma"
    else if grade.value <= 8 then "Middle School Diploma"
    else "High School Diploma"
  }

  /** The level a title stands for, lowest first. */
  function Level(title: string): int {
    if title == "Elementary School Diploma" then 0
    else if title == "Middle School Diploma" then 1
    else if title == "High School Diploma" then 2
    else -1
  }

  /** A higher grade never earns a lower diploma. */
  lemma TitleMonotone(a: nat, b: nat)
    requires a <= b
    ensures 0 <= Level(Title(Some(a))) <= Level(Title(Some(b)))
  {
  }

  /** `generate_diploma`'s texts, with the defaults for absent parameters. */
  function GenerateDiploma(q: DiplomaQuery): (d: DiplomaText)
    ensures d.name == q.name.GetOr("Student Name")
    ensures d.state == q.state.GetOr("Your State")
    ensures d.gradeRaw == q.grade.GetOr("Unknown")
    ensures d.title == Title(Grade(d.gradeRaw))
  {
    var raw := q.grade.GetOr("Unknown");
    DiplomaText(q.name.GetOr("Student Name"), q.state.GetOr("Your State"), raw, Title(Grade(raw)))
  }

  /** A request without a grade gets the generic diploma. */
  lemma NoGradeIsAcademic(name: Option<string>, state: Option<string>)
    ensures GenerateDiploma(DiplomaQuery(name, state, None)).title == "Academic Diploma"
  {
    assert DigitsOf("Unknown") == [] by {
      Seqs.FilterNone("Unknown", Text.IsDigit);
    }
  }

  /** Text around a number is ignored: "10th Grade" is grade 10. */
  lemma {:induction false} DigitsThenText(ds: string, rest: string)
    requires ds != [] && forall i :: 0 <= i < |ds| ==> Text.IsDigit(ds[i])
    requires forall i :: 0 <= i < |rest| ==> !Text.IsDigit(rest[i])
    ensures Grade(ds + rest) == Some(Text.DigitsValue(ds))
  {
    Seqs.FilterAppend(ds, rest, Text.IsDigit);
    Seqs.FilterAll(ds, Text.IsDigit);
    Seqs.FilterNone(rest, Text.IsDigit);
    assert Seqs.Filter(rest, Text.IsDigit) == [];
    assert DigitsOf(ds + rest) == ds + [];
    assert ds + [] == ds;
  }

  /** A rendered grade number reads back as itself. */
  lemma GradeOfNumber(n: nat, suffix: string)
    requires forall i :: 0 <= i < |suffix| ==> !Text.IsDigit(suffix[i])
    ensures Grade(Text.PadNat(n, 1) + suffix) == Some(n)
  {
    DigitsThenText(Text.PadNat(n, 1), suffix);
  }

  /** Every digit counts, so a range such as "5-6" reads as grade 56. */
  lemma RangeReadsAsOneNumber()
    ensures Grade("5-6") == Some(56)
    ensures Title(Grade("5-6")) == "High School Diploma"
  {
    assert "5-6"[1..] == "-6";
    assert "-6"[1..] == "6";
    assert DigitsOf("5-6") == "56";
    assert "56"[..1] == "5";
    assert Text.DigitsValue("5") == 5;
  }

  /** A grade label without digits ("Kindergarten") gets the generic diploma, not the elementary one. */
  lemma KindergartenIsAcademic()
    ensures Title(Grade("Kindergarten")) == "Academic Diploma"
  {
    var k := "Kindergarten";
    assert DigitsOf(k) == [] by {
      forall i | 0 <= i < |k| ensures !Text.IsDigit(k[i]) {
        assert k[i] in "Kindergarten";
      }
      Seqs.FilterNone(k, Text.IsDigit);
    }
  }
}
