/** HTTP outcomes of the Express handlers, by status code. */
module Http {
  import Wrappers

  datatype Status =
    | Ok             // 200
    | Created        // 201
    | BadRequest     // 400
    | Unauthorized   // 401
    | NotFound       // 404
    | ServerError    // 500
    | Unhandled      // an exception escapes a handler that has no try/catch

  /**
   * A numeric field of a JSON request body, by what `Number(x)` makes of it:
   * absent, `null` (0), a number or numeric string, or anything that is NaN.
   */
  datatype BodyNumber = Undefined | Null | Num(v: real) | NotNumeric

  /** JavaScript's `Number(x)`; NaN is `None`. */
  function ToNumber(b: BodyNumber): (r: Wrappers.Option<real>)
    ensures r.None? <==> b.Undefined? || b.NotNumeric?
  {
    match b
    case Undefined => Wrappers.None
    case Null => Wrappers.Some(0.0)
    case Num(v) => Wrappers.Some(v)
    case NotNumeric => Wrappers.None
  }
}

/**
 * The MongoDB documents of the backend (Student with its embedded subjects and
 * activities, DailyLog, User, State, Otp, ContactMessage) and the collections
 * that hold them. A collection is a sequence in insertion order, which is the
 * order `findOne` and `find` return documents in when no sort is given.
 */
module Models {
  import opened Wrappers
  import Text

  /** A document `_id`. */
  type Id = int

  /** An embedded subject of a student; the schema defaults are 0, 0 and false. */
  datatype Subject = Subject(subjectName: string, totalHours: real, creditHours: real, isCompleted: bool)

  /** A subject as first registered: `{ subjectName, totalHours: 0, creditHours: 0, isCompleted: false }`. */
  function NewSubject(name: string): (s: Subject)
    ensures s.subjectName == name && s.totalHours == 0.0 && s.creditHours == 0.0 && !s.isCompleted
  {
    Subject(name, 0.0, 0.0, false)
  }

  /** The `status` enum `['pass', 'fail', null]`; `null` is `None`. */
  datatype LogStatus = Pass | Fail

  /**
   * A DailyLog document. `date` is the midnight (UTC) of the day it was logged,
   * `logDate` the instant of creation, both in milliseconds.
   */
  datatype DailyLog = DailyLog(
    student: Id,
    subjectName: string,
    date: int,
    comment: string,
    percentage: real,
    studyTimeMinutes: int,
    status: Option<LogStatus>,
    logDate: int)

  /** `logs.filter(l => l.status === st).length`. */
  function CountStatus(logs: seq<DailyLog>, st: LogStatus): (n: nat)
    ensures n <= |logs|
  {
    if logs == [] then 0 else (if logs[0].status == Some(st) then 1 else 0) + CountStatus(logs[1..], st)
  }

  /** A log is counted as passed or as failed, never both. */
  lemma {:induction false} CountStatusSplit(logs: seq<DailyLog>)
    ensures CountStatus(logs, Pass) + CountStatus(logs, Fail) <= |logs|
  {
    if logs != [] {
      CountStatusSplit(logs[1..]);
    }
  }

  /** Σ percentage over the logs. */
  function SumPercentage(logs: seq<DailyLog>): real {
    if logs == [] then 0.0 else logs[0].percentage + SumPercentage(logs[1..])
  }

  /** Stored percentages lie in [0, 100], so their sum lies in [0, 100·n]. */
  lemma {:induction false} SumPercentageBounds(logs: seq<DailyLog>)
    requires forall i :: 0 <= i < |logs| ==> 0.0 <= logs[i].percentage <= 100.0
    ensures 0.0 <= SumPercentage(logs) <= 100.0 * (|logs| as real)
  {
    if logs != [] {
      SumPercentageBounds(logs[1..]);
    }
  }

  /** An embedded activity; `id` is its `_id` as a string. */
  datatype Activity = Activity(id: string, date: string, heading: string, details: string)

  /** A ContactMessage document; `sender` and `receiver` are usernames or "admin". */
  datatype ContactMessage = ContactMessage(date: int, message: string, sender: string, receiver: string)

  /** An Otp document. */
  datatype OtpRecord = OtpRecord(email: string, otp: string)

  /** The profile part of a student, which logging never touches. */
  datatype StudentInfo = StudentInfo(
    firstName: string,
    lastName: string,
    birthDate: Option<int>,
    grade: Option<string>,
    profilePicture: Option<string>)

  /** A Student document. `owner` is its `user` field, the parent account. */
  class Student {
    const id: Id
    const owner: Id
    var firstName: string
    var lastName: string
    var birthDate: Option<int>
    var grade: Option<string>
    var profilePicture: Option<string>
    var subjects: seq<Subject>
    var gpa: real
    var activities: seq<Activity>

    constructor (id: Id, owner: Id, info: StudentInfo)
      ensures this.id == id && this.owner == owner && Info() == info
      ensures subjects == [] && gpa == 0.0 && activities == []
    {
      this.id := id;
      this.owner := owner;
      firstName := info.firstName;
      lastName := info.lastName;
      birthDate := info.birthDate;
      grade := info.grade;
      profilePicture := info.profilePicture;
      subjects := [];
      gpa := 0.0;
      activities := [];
    }

    function Info(): StudentInfo
      reads this
    {
      StudentInfo(firstName, lastName, birthDate, grade, profilePicture)
    }
  }

  /** The objects a handler may change once it has looked a document up. */
  function Touched<T>(found: Option<T>): set<T> {
    if found.Some? then {found.value} else {}
  }

  /** The `students` collection. */
  class StudentCollection {
    var students: seq<Student>

    constructor ()
      ensures students == []
    {
      students := [];
    }

    /** `Student.findById(id)`: the first student with that `_id`. */
    function Find(id: Id): (r: Option<Student>)
      reads this
      ensures r.Some? ==> r.value in students && r.value.id == id
      ensures r.None? ==> forall i :: 0 <= i < |students| ==> students[i].id != id
    {
      FindFrom(0, id, None)
    }

    /** `Student.findOne({ _id: id, user: owner })`: the lookup scoped to the parent. */
    function FindOwned(id: Id, owner: Id): (r: Option<Student>)
      reads this
      ensures r.Some? ==> r.value in students && r.value.id == id && r.value.owner == owner
      ensures r.None? ==> forall i :: 0 <= i < |students| ==> students[i].id != id || students[i].owner != owner
    {
      FindFrom(0, id, Some(owner))
    }

    function FindFrom(k: nat, id: Id, owner: Option<Id>): (r: Option<Student>)
      reads this
      requires k <= |students|
      ensures r.Some? ==> r.value in students && r.value.id == id && (owner.Some? ==> r.value.owner == owner.value)
      ensures r.None? ==> forall i :: k <= i < |students| ==> students[i].id != id || (owner.Some? && students[i].owner != owner.value)
      decreases |students| - k
    {
      if k == |students| then None
      else if students[k].id == id && (owner.None? || students[k].owner == owner.value) then Some(students[k])
      else FindFrom(k + 1, id, owner)
    }
  }

  /** The `dailylogs` collection. */
  class LogCollection {
    var logs: seq<DailyLog>

    constructor ()
      ensures logs == []
    {
      logs := [];
    }

    /** `DailyLog.find({ student: id })`. */
    function OfStudent(id: Id): (r: seq<DailyLog>)
      reads this
      ensures forall i :: 0 <= i < |r| ==> r[i] in logs && r[i].student == id
      ensures forall i :: 0 <= i < |logs| && logs[i].student == id ==> logs[i] in r
    {
      LogsOf(logs, id)
    }
  }

  function LogsOf(logs: seq<DailyLog>, id: Id): (r: seq<DailyLog>)
    ensures forall i :: 0 <= i < |r| ==> r[i] in logs && r[i].student == id
    ensures forall i :: 0 <= i < |logs| && logs[i].student == id ==> logs[i] in r
  {
    if logs == [] then []
    else if logs[0].student == id then [logs[0]] + LogsOf(logs[1..], id)
    else LogsOf(logs[1..], id)
  }

  /** The logs of one student after appending a log of that student. */
  lemma {:induction false} LogsOfAppend(logs: seq<DailyLog>, log: DailyLog, id: Id)
    ensures LogsOf(logs + [log], id) == LogsOf(logs, id) + (if log.student == id then [log] else [])
  {
    if logs == [] {
      assert [] + [log] == [log];
    } else {
      assert (logs + [log])[1..] == logs[1..] + [log];
      LogsOfAppend(logs[1..], log, id);
    }
  }

  /** `req.user` as the authentication middleware builds it from the token. */
  datatype AuthPayload = AuthPayload(id: Id, username: string, role: string, email: string)

  /** The subscription part of a user, as the client receives it from `/api/users/me`. */
  datatype Subscription = Subscription(
    trialEndsAt: Option<int>,
    isSubscribed: bool,
    subscriptionId: Option<string>,
    subscriptionStatus: Option<string>,
    subscriptionEndsAt: Option<int>,
    cancelAtPeriodEnd: bool)

  /** A User document (the parent account). */
  class User {
    const id: Id
    const firstName: string
    const lastName: string
    const email: string
    const username: string
    const state: Id
    var password: string
    var minCreditsRequired: real
    var hoursPerCredit: real
    var trialEndsAt: Option<int>
    var isSubscribed: bool
    var subscriptionId: Option<string>
    var subscriptionStatus: Option<string>
    var subscriptionEndsAt: Option<int>
    var cancelAtPeriodEnd: bool

    constructor (id: Id, firstName: string, lastName: string, email: string, username: string,
                 password: string, state: Id, minCreditsRequired: real, hoursPerCredit: real)
      ensures this.id == id && this.firstName == firstName && this.lastName == lastName
      ensures this.email == email && this.username == username && this.password == password
      ensures this.state == state && this.minCreditsRequired == minCreditsRequired
      ensures this.hoursPerCredit == hoursPerCredit
      ensures Plan() == Subscription(None, false, None, None, None, false)
    {
      this.id := id;
      this.firstName := firstName;
      this.lastName := lastName;
      this.email := email;
      this.username := username;
      this.password := password;
      this.state := state;
      this.minCreditsRequired := minCreditsRequired;
      this.hoursPerCredit := hoursPerCredit;
      trialEndsAt := None;
      isSubscribed := false;
      subscriptionId := None;
      subscriptionStatus := None;
      subscriptionEndsAt := None;
      cancelAtPeriodEnd := false;
    }

    function Plan(): Subscription
      reads this
    {
      Subscription(trialEndsAt, isSubscribed, subscriptionId, subscriptionStatus, subscriptionEndsAt, cancelAtPeriodEnd)
    }
  }

  /** The `users` collection. */
  class UserCollection {
    var users: seq<User>

    constructor ()
      ensures users == []
    {
      users := [];
    }

    /** `User.findById(id)`. */
    function Find(id: Id): (r: Option<User>)
      reads this
      ensures r.Some? ==> r.value in users && r.value.id == id
      ensures r.None? ==> forall i :: 0 <= i < |users| ==> users[i].id != id
    {
      FindFrom(0, (u: User) => u.id == id)
    }

    /**
     * `User.findOne({ email })`. The schema's `lowercase` setter also casts
     * the filter value, so the stored address is compared with `Lower(email)`.
     */
    function FindByEmail(email: string): (r: Option<User>)
      reads this
      ensures r.Some? ==> r.value in users && r.value.email == Text.Lower(email)
      ensures r.None? ==> forall i :: 0 <= i < |users| ==> users[i].email != Text.Lower(email)
    {
      FindFrom(0, (u: User) => u.email == Text.Lower(email))
    }

    /**
     * `User.findOne({ $or: [{ email: e }, { username: n }] })`, with the
     * address lower-cased and the username trimmed by the schema's setters.
     */
    function FindByEmailOrUsername(email: string, username: string): (r: Option<User>)
      reads this
      ensures r.Some? ==> r.value in users && (r.value.email == Text.Lower(email) || r.value.username == Text.Trim(username))
      ensures r.None? ==> forall i :: 0 <= i < |users| ==>
        users[i].email != Text.Lower(email) && users[i].username != Text.Trim(username)
    {
      FindFrom(0, (u: User) => u.email == Text.Lower(email) || u.username == Text.Trim(username))
    }

    /** `User.findOne({ username })`, with the username trimmed by the schema's setter. */
    function FindByUsername(username: string): (r: Option<User>)
      reads this
      ensures r.Some? ==> r.value in users && r.value.username == Text.Trim(username)
      ensures r.None? ==> forall i :: 0 <= i < |users| ==> users[i].username != Text.Trim(username)
    {
      FindFrom(0, (u: User) => u.username == Text.Trim(username))
    }

    /**
     * Every stored account is as the schema's setters leave it: the address
     * lower-case and the username trimmed.
     */
    predicate Canonical()
      reads this
    {
      forall i :: 0 <= i < |users| ==>
        Text.Lower(users[i].email) == users[i].email && Text.Trim(users[i].username) == users[i].username
    }

    function FindFrom(k: nat, p: User -> bool): (r: Option<User>)
      reads this
      requires k <= |users|
      ensures r.Some? ==> r.value in users && p(r.value)
      ensures r.None? ==> forall i :: k <= i < |users| ==> !p(users[i])
      decreases |users| - k
    {
      if k == |users| then None
      else if p(users[k]) then Some(users[k])
      else FindFrom(k + 1, p)
    }

    /** `User.findOne({ subscriptionId })`. */
    function FindBySubscription(sid: string): (r: Option<User>)
      reads this, users
      ensures r.Some? ==> r.value in users && r.value.subscriptionId == Some(sid)
      ensures r.None? ==> forall i :: 0 <= i < |users| ==> users[i].subscriptionId != Some(sid)
    {
      FindSubscriptionFrom(0, sid)
    }

    function FindSubscriptionFrom(k: nat, sid: string): (r: Option<User>)
      reads this, users
      requires k <= |users|
      ensures r.Some? ==> r.value in users && r.value.subscriptionId == Some(sid)
      ensures r.None? ==> forall i :: k <= i < |users| ==> users[i].subscriptionId != Some(sid)
      decreases |users| - k
    {
      if k == |users| then None
      else if users[k].subscriptionId == Some(sid) then Some(users[k])
      else FindSubscriptionFrom(k + 1, sid)
    }
  }

  /** A State document: the credit rules of one state. */
  class State {
    const id: Id
    const name: string
    const isCompletionBased: bool
    var creditDefinition: string
    var hoursPerCredit: real
    var minCreditsRequired: real

    constructor (id: Id, name: string, isCompletionBased: bool, creditDefinition: string,
                 hoursPerCredit: real, minCreditsRequired: real)
      ensures this.id == id && this.name == name && this.isCompletionBased == isCompletionBased
      ensures this.creditDefinition == creditDefinition && this.hoursPerCredit == hoursPerCredit
      ensures this.minCreditsRequired == minCreditsRequired
    {
      this.id := id;
      this.name := name;
      this.isCompletionBased := isCompletionBased;
      this.creditDefinition := creditDefinition;
      this.hoursPerCredit := hoursPerCredit;
      this.minCreditsRequired := minCreditsRequired;
    }

    /** The fields an administrator may edit. */
    function Rules(): StateRules
      reads this
    {
      StateRules(creditDefinition, hoursPerCredit, minCreditsRequired)
    }
  }

  /** The editable credit rules of a state. */
  datatype StateRules = StateRules(creditDefinition: string, hoursPerCredit: real, minCreditsRequired: real)

  /** The `states` collection. */
  class StateCollection {
    var states: seq<State>

    constructor ()
      ensures states == []
    {
      states := [];
    }

    /** `State.findById(id)`. */
    function Find(id: Id): (r: Option<State>)
      reads this
      ensures r.Some? ==> r.value in states && r.value.id == id
      ensures r.None? ==> forall i :: 0 <= i < |states| ==> states[i].id != id
    {
      FindFrom(0, id)
    }

    function FindFrom(k: nat, id: Id): (r: Option<State>)
      reads this
      requires k <= |states|
      ensures r.Some? ==> r.value in states && r.value.id == id
      ensures r.None? ==> forall i :: k <= i < |states| ==> states[i].id != id
      decreases |states| - k
    {
      if k == |states| then None
      else if states[k].id == id then Some(states[k])
      else FindFrom(k + 1, id)
    }
  }

  /** The `otps` collection. */
  class OtpCollection {
    var otps: seq<OtpRecord>

    constructor ()
      ensures otps == []
    {
      otps := [];
    }

    /** `Otp.findOne({ email, otp })` succeeds. */
    predicate Matches(email: string, otp: string)
      reads this
    {
      OtpRecord(email, otp) in otps
    }
  }

  /** `Otp.deleteMany({ email })`. */
  function WithoutEmail(otps: seq<OtpRecord>, email: string): (r: seq<OtpRecord>)
    ensures forall i :: 0 <= i < |r| ==> r[i] in otps && r[i].email != email
    ensures forall i :: 0 <= i < |otps| && otps[i].email != email ==> otps[i] in r
  {
    if otps == [] then []
    else if otps[0].email != email then [otps[0]] + WithoutEmail(otps[1..], email)
    else WithoutEmail(otps[1..], email)
  }

  /** The `contactmessages` collection. */
  class MessageCollection {
    var messages: seq<ContactMessage>

    constructor ()
      ensures messages == []
    {
      messages := [];
    }
  }

  /** `parseInt(student.grade)`: the grade as a number, `None` for NaN (no grade, or no leading digits). */
  function GradeNumber(grade: Option<string>): Option<int> {
    if grade.None? then None else Text.ParseInt(grade.value)
  }

  /** A subject as the client receives it from `GET /api/students/:id`; marks are optional. */
  datatype SubjectView = SubjectView(
    subject: Subject,
    dailyLogs: seq<DailyLog>,
    totalMarks: Option<real>,
    obtainedMarks: Option<real>)

  /** A student as the client holds it. */
  datatype StudentView = StudentView(
    id: Id,
    info: StudentInfo,
    gpa: real,
    subjects: seq<SubjectView>,
    activities: seq<Activity>,
    email: Option<string>)
}
