/**
 * The activity journal of a student: list, append and delete, each on the
 * student looked up by id and scoped to the parent account.
 */
module StudentActivityController {
  import opened Wrappers
  import opened Http
  import opened Models
  import Text
  import Seqs

  /** `getActivities`: the student's activities, `[]` for a student without any. */
  method GetActivities(students: StudentCollection, id: Id, owner: Id) returns (status: Status, activities: seq<Activity>)
    ensures students.FindOwned(id, owner).None? ==> status == NotFound && activities == []
    ensures students.FindOwned(id, owner).Some? ==>
      status == Ok && activities == students.FindOwned(id, owner).value.activities
  {
    var found := students.FindOwned(id, owner);
    if found.None? {
      return NotFound, [];
    }
    return Ok, found.value.activities;
  }

  /**
   * `addActivity`: all three fields are required before the lookup; the new
   * activity, with the id the database assigns (`newId`), goes at the end.
   */
  method AddActivity(students: StudentCollection, id: Id, owner: Id,
                     heading: Option<string>, details: Option<string>, date: Option<string>, newId: string)
    returns (status: Status, added: Option<Activity>)
    modifies Touched(students.FindOwned(id, owner))
    ensures !Text.Truthy(heading) || !Text.Truthy(details) || !Text.Truthy(date) ==> status == BadRequest
    ensures status != Created ==> added.None? && unchanged(Touched(students.FindOwned(id, owner)))
    ensures status == Created <==>
      Text.Truthy(heading) && Text.Truthy(details) && Text.Truthy(date) && students.FindOwned(id, owner).Some?
    ensures status == Created ==>
      var st := students.FindOwned(id, owner).value;
      && added == Some(Activity(newId, date.value, heading.value, details.value))
      && st.activities == old(st.activities) + [added.value]
      && st.Info() == old(st.Info()) && st.subjects == old(st.subjects) && st.gpa == old(st.gpa)
  {
    if !Text.Truthy(heading) || !Text.Truthy(details) || !Text.Truthy(date) {
      return BadRequest, None;
    }
    var found := students.FindOwned(id, owner);
    if found.None? {
      return NotFound, None;
    }
    var student := found.value;
    student.activities := student.activities + [Activity(newId, date.value, heading.value, details.value)];
    return Created, Some(student.activities[|student.activities| - 1]);
  }

  /** The activities left by `deleteActivity`. */
  function WithoutActivity(activities: seq<Activity>, activityId: string): seq<Activity> {
    Seqs.Filter(activities, (a: Activity) => a.id != activityId)
  }

  /**
   * Deleting removes every entry with that id and keeps the others in order;
   * an id that is not there leaves the list as it was.
   */
  lemma DeleteRemovesExactly(activities: seq<Activity>, activityId: string)
    ensures var left := WithoutActivity(activities, activityId);
      && (forall k :: 0 <= k < |left| ==> left[k].id != activityId)
      && (forall k :: 0 <= k < |activities| && activities[k].id != activityId ==> activities[k] in left)
      && Seqs.IsSubsequence(left, activities)
    ensures (forall k :: 0 <= k < |activities| ==> activities[k].id != activityId) ==>
      WithoutActivity(activities, activityId) == activities
  {
    Seqs.FilterIsSubsequence(activities, (a: Activity) => a.id != activityId);
    if forall k :: 0 <= k < |activities| ==> activities[k].id != activityId {
      Seqs.FilterAll(activities, (a: Activity) => a.id != activityId);
    }
  }

  /** Adding an activity and then deleting it by its (fresh) id restores the list. */
  lemma AddThenDelete(activities: seq<Activity>, a: Activity)
    requires forall k :: 0 <= k < |activities| ==> activities[k].id != a.id
    ensures WithoutActivity(activities + [a], a.id) == activities
  {
    Seqs.FilterAppend(activities, [a], (x: Activity) => x.id != a.id);
    Seqs.FilterAll(activities, (x: Activity) => x.id != a.id);
  }

  /** `deleteActivity`: success is reported whether or not the id was present. */
  method DeleteActivity(students: StudentCollection, id: Id, owner: Id, activityId: string) returns (status: Status)
    modifies Touched(students.FindOwned(id, owner))
    ensures students.FindOwned(id, owner).None? ==> status == NotFound
    ensures status != Ok ==> unchanged(Touched(students.FindOwned(id, owner)))
    ensures students.FindOwned(id, owner).Some? ==>
      var st := students.FindOwned(id, owner).value;
      && status == Ok
      && st.activities == WithoutActivity(old(st.activities), activityId)
      && st.Info() == old(st.Info()) && st.subjects == old(st.subjects) && st.gpa == old(st.gpa)
  {
    var found := students.FindOwned(id, owner);
    if found.None? {
      return NotFound;
    }
    var student := found.value;
    student.activities := Seqs.Filter(student.activities, (a: Activity) => a.id != activityId);
    return Ok;
  }
}
