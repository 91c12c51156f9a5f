/**
 * The completion overview of a student: one credit per completed subject,
 * whatever the subject's stored credit hours.
 */
module CompletionViewModal {
  import opened Models
  import Seqs

  /** The "Credits" cell of a subject's row: `subject.isCompleted ? 1 : 0`. */
  function RowCredit(s: Subject): (c: nat)
    ensures c <= 1
    ensures c == 1 <==> s.isCompleted
  {
    if s.isCompleted then 1 else 0
  }

  /** `totalCredits`: the reduce over the subjects adding 1 for each completed one. */
  function TotalCredits(subjects: seq<Subject>): (n: nat)
    ensures n <= |subjects|
  {
    if subjects == [] then 0 else RowCredit(subjects[0]) + TotalCredits(subjects[1..])
  }

  predicate Completed(s: Subject) { s.isCompleted }

  /** The total is the number of completed subjects. */
  lemma {:induction false} TotalCountsCompleted(subjects: seq<Subject>)
    ensures TotalCredits(subjects) == |Seqs.Filter(subjects, Completed)|
  {
    if subjects != [] {
      TotalCountsCompleted(subjects[1..]);
    }
  }

  /** The "Credits" column of the table. */
  function RowCredits(subjects: seq<Subject>): (r: seq<nat>)
    ensures |r| == |subjects|
    ensures forall i :: 0 <= i < |r| ==> r[i] == RowCredit(subjects[i])
  {
    seq(|subjects|, i requires 0 <= i < |subjects| => RowCredit(subjects[i]))
  }

  function Sum(xs: seq<nat>): nat {
    if xs == [] then 0 else xs[0] + Sum(xs[1..])
  }

  /** The displayed total agrees with the column it sums. */
  lemma {:induction false} TotalIsColumnSum(subjects: seq<Subject>)
    ensures TotalCredits(subjects) == Sum(RowCredits(subjects))
  {
    if subjects != [] {
      TotalIsColumnSum(subjects[1..]);
      assert RowCredits(subjects)[1..] == RowCredits(subjects[1..]);
    }
  }

  /** Two subject lists that differ only in their credit hours. */
  predicate SameButCreditHours(a: seq<Subject>, b: seq<Subject>) {
    |a| == |b| && forall i :: 0 <= i < |a| ==> a[i].(creditHours := 0.0) == b[i].(creditHours := 0.0)
  }

  /** The stored credit hours never change the displayed credits. */
  lemma {:induction false} CreditHoursIgnored(a: seq<Subject>, b: seq<Subject>)
    requires SameButCreditHours(a, b)
    ensures TotalCredits(a) == TotalCredits(b)
    ensures RowCredits(a) == RowCredits(b)
  {
    if a != [] {
      assert a[0].(creditHours := 0.0) == b[0].(creditHours := 0.0);
      assert SameButCreditHours(a[1..], b[1..]) by {
        forall i | 0 <= i < |a| - 1 ensures a[1..][i].(creditHours := 0.0) == b[1..][i].(creditHours := 0.0) {
          assert a[1..][i] == a[i + 1] && b[1..][i] == b[i + 1];
        }
      }
      CreditHoursIgnored(a[1..], b[1..]);
    }
  }

  /** Completing one more subject adds exactly one credit. */
  lemma {:induction false} CompletingAddsOne(subjects: seq<Subject>, i: nat)
    requires i < |subjects| && !subjects[i].isCompleted
    ensures TotalCredits(subjects[i := subjects[i].(isCompleted := true)]) == TotalCredits(subjects) + 1
  {
    if i > 0 {
      assert subjects[i := subjects[i].(isCompleted := true)][1..] == subjects[1..][i - 1 := subjects[i].(isCompleted := true)];
      CompletingAddsOne(subjects[1..], i - 1);
    } else {
      assert subjects[0 := subjects[0].(isCompleted := true)][1..] == subjects[1..];
    }
  }
}
