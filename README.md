# trackSchool core, modelled in Dafny

trackSchool is a homeschool record keeper. Parents register their children.
Each child has subjects with logged study time, a percentage (grade 6 and up)
or a pass/fail status (grade 5 and below), and a completion flag. The
application turns these into credits and a GPA. It renders transcripts, a
student overview, a dashboard and a completion view. It also runs accounts,
trials and subscriptions, a search over homeschool resources, an admin chat
and a diploma generator.

This project models the parts of that system that decide something:

- the credit and GPA engine of the daily-log controller;
- subject registration, the log join and the field merge of the student controller;
- the read-only projections that present the same data on the transcript,
  the overview, the dashboard and the completion view;
- the validators and state machines of the login, registration, student and log forms;
- the credit settings and the state PATCH;
- trials, subscriptions and the Stripe webhook's field updates;
- activities, chat threads, resource normalisation and the two search filters;
- the diploma server's choice of title.

## Layout

There is one module per source file, named after it (`DailyLogController`
for `backend/controllers/dailyLogController.js`, `TranscriptPreview` for
`client/src/pages/TranscriptPreview.js`, and so on). A few shared modules
support them:

- `Wrappers`: `Option`.
- `Text`: JavaScript's `trim`, `toLowerCase` (on ASCII letters), `includes`, `startsWith`,
  `parseInt` and `parseFloat`, and the character classes of the regular expressions.
- `JsValues`: JavaScript values with their truthiness, `Number()`, `||` and `Math.round`.
- `Calendar`: UTC days and the ISO date prefix.
- `Seqs`: filtering, a stable sort and grouping.
- `Models`: the Mongoose schemas as datatypes. A document a handler changes in
  place is a class. A collection is a class whose sequence field its methods
  reassign.
- `Http`: status codes and `Number()` of request-body fields.
- `Replies`: the success-or-failure outcome of a request, and the
  `message || fallback` error text.

Imperative handlers are methods. Their `ensures` give the whole new state in
terms of the old one. Pure code is functions with lemmas beside them.

## Observations the model makes precise

- `resetPassword` checks neither the OTP nor that one was verified. Only
  the client's wizard asks for the code first (`AuthController.ResetPassword`).
- A file-less import leaves the upload spinner on (`AdminResourceManagerPage.HandleFileUpload`).
- Clearing a coordinate in the edit dialog sends NaN, which the JSON
  encoding turns into null; the server then stores the location without
  coordinates (`AdminResourceManagerPage.ClearedCoordinateErasesLocation`).
- A birth date the server cannot cast to a date fails the whole profile
  update with a 500 (`StudentController.UpdateStudent`).
- The dashboard's student reply carries no credit definition, so its pie
  always shows hours (`Dashboard.StudentReplyPieIsHours`).
- A missing picture gives the client's own default-avatar path. A stored
  value holding that same path is prefixed with the API address
  (`StudentsPage.DefaultAvatarNotPrefixed`).
- The dashboard lists the first five activities in stored order. Since
  activities are appended, these are the oldest (`Dashboard.RecentActivities`).
- The log form refreshes the list after a failed save too (`LogDailyModal.DailyLogForm.HandleSave`).
- The plan page and the admin list classify subscriptions with different
  priorities (`AdminSubscriptionsPage.TrialOutranksSubscription`,
  `AdminSubscriptionsPage.StaleCancelFlag`).
- A student without a readable grade sends neither a percentage nor a status
  (`LogDailyModal.NoGradeSendsNeither`).
- A birth date that does not parse passes both age checks of the student
  forms (`AddStudentModal.CheckForm`).
- The transcript total counts a primary subject without logs in an
  hours-based state, although its row shows no credit
  (`TranscriptPreview.ZeroLogSubjectCounted`).
- The student overview's 12-step grade scale and the server's 5-step
  scale disagree (`ViewStudentModal.ScalesDiffer`).
- The credit definition is compared case-sensitively, so a state saved as
  "local" is not treated as "Local" (`TranscriptPreview.RegimeIsCaseSensitive`).
- A student saved with a grade such as "constructor" or "__proto__" makes
  every non-blank search of the student list throw, since the label lookup
  finds an `Object.prototype` member (`StudentsPage.InheritedGradeBreaksSearch`).

## Model

| member | source | states |
|---|---|---|
| DailyLogController.CalculateCredits | backend/controllers/dailyLogController.js:82-87 | the credit is one of 0, 0.25, 0.5 and 1, and it is 0 when no hours-per-credit value is known |
| DailyLogController.CreditThresholds | backend/controllers/dailyLogController.js:82-87 | for a positive hours-per-credit value the buckets are closed below: 1 iff hours ≥ hpc, 0.5 iff hpc/2 ≤ hours < hpc, 0.25 iff hpc/4 ≤ hours < hpc/2, 0 iff hours < hpc/4 |
| DailyLogController.CreditsMonotone | backend/controllers/dailyLogController.js:82-87 | more hours never earn fewer credits |
| DailyLogController.PercentageToGpa | backend/controllers/dailyLogController.js:90-96 | the grade point is one of 0..4; it is 4 iff the percentage is at least 90 and 0 iff it is below 60 |
| DailyLogController.PercentageToGpaMonotone | backend/controllers/dailyLogController.js:90-96 | a higher percentage never gives a lower grade point |
| DailyLogController.GpaLogs | backend/controllers/dailyLogController.js:101 | every kept log has a positive percentage and positive minutes |
| DailyLogController.GpaLogsSpec | backend/controllers/dailyLogController.js:101 | the kept logs are exactly the logs with positive percentage and minutes, in their original order |
| DailyLogController.RecalculatedGpa | backend/controllers/dailyLogController.js:99-114 | the GPA lies in [0, 4]; it is 0 when no log counts or when the subjects' credits sum to 0 |
| DailyLogController.TotalTimePositive | backend/controllers/dailyLogController.js:109-110 | the divisor Σ minutes is positive whenever a log counts, so the mean is defined |
| DailyLogController.WeightedTotalBounds | backend/controllers/dailyLogController.js:108-109 | Σ p·m lies between the lowest and highest percentage times Σ m |
| DailyLogController.PooledMeanBounds | backend/controllers/dailyLogController.js:108-110 | the pooled mean Σ p·m / Σ m lies between the lowest and highest counted percentage |
| DailyLogController.UniformPercentageGpa | backend/controllers/dailyLogController.js:99-114 | when every counted log has the same percentage, the GPA is that percentage's grade point |
| DailyLogController.SameWeightsPool | backend/controllers/dailyLogController.js:101-109 | two log lists with equal percentages and minutes entry by entry count the same logs with the same totals |
| DailyLogController.GpaIsPooled | backend/controllers/dailyLogController.js:99-114 | the GPA depends only on the logs' percentages and minutes, pooled across all subjects, and on whether credits are zero, not on which subject a log belongs to |
| DailyLogController.FindSubject | backend/controllers/dailyLogController.js:22-24 | the result is the first subject whose trimmed, lower-cased name equals the request's; none when no subject matches |
| DailyLogController.Register | backend/controllers/dailyLogController.js:22-35 | an existing match leaves the list as it is; otherwise exactly one subject {trimmed name, 0, 0, false} is appended; the index names the subject used |
| DailyLogController.RegisterKeepsNamesDistinct | backend/controllers/dailyLogController.js:22-35 | if no two subjects share a normalised name before registration, none do after it |
| DailyLogController.FindSubjectUnique | backend/controllers/dailyLogController.js:22-24 | with distinct normalised names the first match is the only match |
| DailyLogController.RegisterIdempotent | backend/controllers/dailyLogController.js:22-35 | registering a name equal modulo trim and case to one just registered changes nothing and creates nothing |
| DailyLogController.AddHours | backend/controllers/dailyLogController.js:64-68 | totalHours becomes max(totalHours + minutes/60, 0) and creditHours is overwritten with the credits of the new total; name and completion flag are kept |
| DailyLogController.LogTouchesOneSubject | backend/controllers/dailyLogController.js:22-68 | after a log only the matched or newly registered subject differs; every other subject is unchanged |
| DailyLogController.LogKeepsNamesDistinct | backend/controllers/dailyLogController.js:22-68 | a log keeps subject names distinct |
| DailyLogController.StoredPercentage | backend/controllers/dailyLogController.js:49-50 | the stored percentage is the parsed value clamped to [0, 100], and 0 for NaN |
| DailyLogController.StoredStatus | backend/controllers/dailyLogController.js:52-54 | the status is stored iff it is "pass" or "fail"; otherwise it stays null |
| DailyLogController.NewLog | backend/controllers/dailyLogController.js:37-55 | the new log carries the student, the subject's stored name, today's date, the comment and minutes; an upper grade stores the clamped percentage and no status, a primary grade only the filtered status |
| DailyLogController.CreateLog | backend/controllers/dailyLogController.js:5-79 | a falsy comment is a 400 and an unknown student a 404, both before any change; on success the log is appended, the subject registered and its hours and credits updated, and the GPA recomputed |
| DailyLogController.FirstMatchIsRegistered | backend/controllers/dailyLogController.js:60-62 | the second lookup of `createLog` finds the subject the first lookup used or registered |
| DailyLogController.Toggle | backend/controllers/dailyLogController.js:170-177 | false→true adds one credit, true→false gives max(c−1, 0), an unchanged flag keeps the credits |
| DailyLogController.ToggleRoundTrip | backend/controllers/dailyLogController.js:170-177 | completing a fresh subject and then un-completing it returns it to its fresh state |
| DailyLogController.ToggleKeepsCreditsNonNegative | backend/controllers/dailyLogController.js:173-177 | the toggle never makes credits negative |
| DailyLogController.NextLogOverwritesToggle | backend/controllers/dailyLogController.js:64-68 | the credit a completion adds is lost at the next log, whose credits do not depend on it |
| DailyLogController.UpdateCompletionStatus | backend/controllers/dailyLogController.js:143-185 | a missing subject name is a 400 and an unknown student a 404, with no change; a registered subject is toggled in place; a missing one is registered untoggled (the pushed copy is what is saved); nothing else changes |
| DailyLogController.NewSubjectCompletionLost | backend/controllers/dailyLogController.js:158-177 | as written, marking a missing subject completed saves it with isCompleted false and 0 credits |
| DailyLogController.IntendedToggleRecordsCompletion | backend/controllers/dailyLogController.js:158-177 | with the intended toggle the saved subject carries the requested flag, a new completed subject earns one credit, no other entry changes, and for a registered subject it agrees with the as-written one |
| DailyLogController.WiredHoursPerCredit | backend/controllers/dailyLogController.js:67 | the value `createLog` reads from the token payload is always absent |
| DailyLogController.WiredLoggingEarnsNoCredit | backend/controllers/dailyLogController.js:64-68 | as wired, a log always leaves the subject with 0 credits |
| DailyLogController.WiredGpaStaysZero | backend/controllers/dailyLogController.js:67-70 | as wired, with no completion credits the recomputed GPA is always 0 |
| DailyLogController.SumCreditsZero | backend/controllers/dailyLogController.js:103 | subjects that all have 0 credits sum to 0 |
| DailyLogController.AccountLoggingEarnsCredit | backend/controllers/dailyLogController.js:64-68 | with the account's own hours per credit (`AccountHoursPerCredit`) a new subject logged for at least hpc hours earns a full credit, and the credit sum becomes positive |
| DailyLogController.SumCreditsAppend | backend/controllers/dailyLogController.js:103 | the credit sum of a list with one more subject is the old sum plus its credits |
| DailyLogController.SumCreditsNonNegative | backend/controllers/dailyLogController.js:103 | non-negative credits sum to a non-negative total |
| StudentController.CreateOrRegisterSubject | backend/controllers/studentController.js:52-85 | an unknown student is a 404 and a missing name a 500, with no change; otherwise the subject list becomes the lookup-or-register result, the reply says whether the name was already registered and returns the subject used, and nothing else of the student changes |
| StudentController.NewSubjectAppended | backend/controllers/studentController.js:66-74 | an unknown name grows the list by exactly one subject {trimmed name, 0, 0, false} and keeps every earlier entry |
| StudentController.SubjectLogs | backend/controllers/studentController.js:101-104 | the attached logs are a permutation of the student's logs under that exact name, sorted by date descending |
| StudentController.JoinLogs | backend/controllers/studentController.js:100-110 | one view per subject, in subject order, each with that subject and its own logs |
| StudentController.GetStudentById | backend/controllers/studentController.js:94-117 | a student id that is not stored gives nothing (the 404); otherwise the reply is the stored profile, GPA and activities with the joined subjects |
| StudentController.JoinedLogsBelong | backend/controllers/studentController.js:100-110 | every attached log belongs to the student and carries the subject's exact name, every such log is attached, and they are ordered newest first |
| StudentController.FirstLogOn | backend/controllers/studentController.js:129-133 | the found log belongs to the student and subject and is dated that day; none is found only when no such log exists |
| StudentController.GetTodayLog | backend/controllers/studentController.js:120-140 | a student not owned by the caller is a 404 with no entries; otherwise the entries are today's log of each subject that has one, in subject order |
| StudentController.TodaysLogsShape | backend/controllers/studentController.js:124-137 | at most one entry per subject, in subject order, each with a log of that student and subject dated today |
| StudentController.TodaysLogsComplete | backend/controllers/studentController.js:127-137 | every subject with a log dated today has an entry |
| StudentController.CreatedLogIsTodays | backend/controllers/studentController.js:124-137 | a log just created by `createLog` shows up in today's entries of the same day |
| StudentController.DeleteStudent | backend/controllers/studentController.js:143-167 | a student not owned by the caller is a 404 and nothing is deleted; otherwise every log of the student is removed, then the student |
| StudentController.DeleteCascade | backend/controllers/studentController.js:157-160 | after the cascade no log of the student is left, every other log is kept in order, and the student is gone |
| StudentController.OrKeep | backend/controllers/studentController.js:201-203 | a falsy new value keeps the current one, a truthy one replaces it |
| StudentController.MergedInfo | backend/controllers/studentController.js:182-205 | names are kept when the new value is falsy, the birth date is replaced only by a value the Date cast accepts, the grade is replaced iff it is sent, and the picture is replaced only when a file is uploaded |
| StudentController.EmptyUpdateKeepsProfile | backend/controllers/studentController.js:182-205 | an empty body without an upload keeps the whole profile |
| StudentController.MergeIdempotent | backend/controllers/studentController.js:182-205 | sending the same update twice is the same as sending it once |
| StudentController.UpdateStudent | backend/controllers/studentController.js:170-215 | a student not owned by the caller is a 404; a truthy birth date the Date cast refuses is a 500 with nothing stored; otherwise the profile becomes the merge of the old profile and the body, and subjects, GPA and activities are unchanged |
| AuthController.ShortPasswordRejected | backend/controllers/authController.js:261-268 | a password shorter than 6 characters never passes |
| AuthController.SamplePasswordAccepted | backend/controllers/authController.js:261-268 | the rule can be met: "Abcde!" passes |
| AuthController.FlagsExpire | backend/controllers/authController.js:95-100 | isTrial and isPremium only switch off as time passes, and each is off once its end date is reached |
| AuthController.GetMe | backend/controllers/authController.js:63-116 | no token is a 401; an admin token gets isPremium true, isTrial false and no id; an unknown account is a 404; otherwise isTrial iff the trial end lies ahead and isPremium iff subscribed with no end or an end ahead |
| AuthController.OtpsFor | backend/controllers/authController.js:167-168 | the codes listed for an address are stored codes of that address |
| AuthController.OtpsForWithout | backend/controllers/authController.js:167 | after `deleteMany` the address has no code left |
| AuthController.OtpsForAppend | backend/controllers/authController.js:168 | a created code is listed for its own address only |
| AuthController.IssuedOtpIsTheOnlyOne | backend/controllers/authController.js:167-168 | after issuing, the address has exactly the new code, and the codes of other addresses are kept |
| AuthController.IssueOtp | backend/controllers/authController.js:167-168 | the stored codes become the old ones without the address's, plus the new one |
| AuthController.SendOtp | backend/controllers/authController.js:159-180 | a missing address throws, one without '@' or already registered in any letter case (the filter is lower-cased) is a 400, all with no change; otherwise the address's codes are replaced by the new one, and the reply is 200 iff the mail was sent |
| AuthController.SendResetOtp | backend/controllers/authController.js:332-353 | as `sendOtp`, except that the address, lower-cased by the schema, must belong to an account |
| AuthController.VerifyOtpAndRegister | backend/controllers/authController.js:183-212 | a code that does not match, an address or username already taken after the schema's lower-casing and trimming, or an unknown state is a 400, and a body the User schema refuses after its setters (a name of spaces) fails, all with no change; otherwise the account is created with the address lower-cased, the names and username trimmed and the state's credit settings, the address's codes are deleted, and the collection stays canonical |
| AuthController.RegistrationConsumesOtp | backend/controllers/authController.js:209 | the code used to register cannot be used again |
| AuthController.VerifyResetOtp | backend/controllers/authController.js:243-259 | 200 iff both fields are given and the code matches, and then the address's codes are deleted; otherwise a 400 with no change |
| AuthController.ResetTarget | backend/controllers/authController.js:280 | the account found has the requested address lower-cased |
| AuthController.ResetPassword | backend/controllers/authController.js:271-291 | a missing field or a weak password is a 400 before any lookup; otherwise the account whose address is the lower-cased input gets the new hash, and an unknown address is a 404 |
| AuthController.FindUserEmail | backend/controllers/authController.js:216-238 | a falsy input is a 400; otherwise the trimmed input is looked up as a lower-cased address or as a username, giving the account's address or a 404 |
| AuthController.FindUserEmailIgnoresPadding | backend/controllers/authController.js:221 | surrounding whitespace makes no difference to the lookup |
| AuthController.CaseVariantIsTaken | backend/controllers/authController.js:189 | an address that differs from a registered one only in letter case blocks a registration and is found by the reset flow |
| AuthController.MixedCaseAddressIsTaken | backend/controllers/authController.js:189 | "Al@X.io" registered blocks "al@x.io", and "AL@x.IO" finds it |
| AuthController.PaddedUsernameIsTaken | backend/controllers/authController.js:189 | a taken username padded with spaces is still taken |
| UserController.CreditsInput | backend/controllers/userController.js:28-37 | the body is accepted iff both fields are present and convert with `Number()`, the minimum is at least 0 and the hours per credit at least 1; the accepted pair is the two converted values |
| UserController.NullCredits | backend/controllers/userController.js:28-37 | a `null` minimum converts to 0 and is accepted with any valid hours value; a `null` hours per credit is always refused |
| UserController.UpdateCreditsAsWritten | backend/controllers/userController.js:22-52 | no token gives 401 and an invalid body 400 |
| UserController.CreditsNeverSaved | backend/controllers/userController.js:40-42 | as written, no request answers 200: every valid body ends in 500 because the token payload has no `save` |
| UserController.UpdateCredits | backend/controllers/userController.js:22-52 | the corrected handler: 401 without an account, 200 iff the body is valid, and then exactly the two credit fields hold the converted values; otherwise the account is unchanged |
| UserController.AcceptedHoursPerCredit | backend/controllers/userController.js:34 | an accepted hours per credit was sent as a number and is positive, so the credit thresholds built from it are positive |
| StateRoutes.Assigned | backend/routes/stateRoutes.js:35-36 | an absent field keeps the stored value, a number replaces it, and `null` or a non-number makes the save fail |
| StateRoutes.Patched | backend/routes/stateRoutes.js:33-37 | the patch fails iff one of the numeric fields fails; otherwise a non-empty definition replaces the stored one and each number is `Assigned` |
| StateRoutes.EmptyPatchKeepsRules | backend/routes/stateRoutes.js:33-37 | an empty body leaves the rules as they are |
| StateRoutes.PatchIdempotent | backend/routes/stateRoutes.js:33-37 | applying the same accepted patch twice gives the rules of applying it once |
| StateRoutes.PatchHasNoRangeCheck | backend/routes/stateRoutes.js:35 | any number, zero or negative included, is stored as the hours per credit |
| StateRoutes.PatchState | backend/routes/stateRoutes.js:29-42 | an unknown state is 404; 200 iff the state exists and the patch is accepted, and the stored rules are then the patched ones; otherwise nothing changes |
| UserRoutes.TrialStarted | backend/routes/userRoutes.js:28-31 | the trial ends four days after now; the subscription flag, status and id are cleared and the period end and cancel flag are kept |
| UserRoutes.TrialLastsFourDays | backend/routes/userRoutes.js:24-28 | after starting, the account counts as on trial exactly until four days have passed |
| UserRoutes.TrialIsNotPremium | backend/routes/userRoutes.js:29 | a started trial never counts as premium |
| UserRoutes.StartTrial | backend/routes/userRoutes.js:20-37 | an unknown user is 404; 200 iff the user exists and is not on a running trial, and then the plan fields are `TrialStarted` and the rest of the account is kept; otherwise nothing changes |
| PaymentRoutes.SelectPlan | backend/routes/paymentRoutes.js:11-14 | "monthly" and "yearly" select their price and every other plan name none |
| PaymentRoutes.CheckoutStatus | backend/routes/paymentRoutes.js:9-32 | 200 iff the plan is known and the session was created; an unknown plan is 400 |
| PaymentRoutes.CancelSubscription | backend/routes/paymentRoutes.js:35-57 | 400 for an unknown user or one without a subscription id; on success the status is Stripe's and the cancel flag is set, nothing else changes; on failure nothing changes |
| PaymentRoutes.EndsAt | backend/routes/paymentRoutes.js:89-91 | a non-zero period end (in seconds) replaces the stored end in milliseconds; a missing or zero one keeps it |
| PaymentRoutes.AfterCheckout | backend/routes/paymentRoutes.js:85-93 | a completed checkout subscribes the account with the session's subscription id, takes the retrieved status, period end and cancel flag, and keeps the trial |
| PaymentRoutes.AfterSubscriptionChange | backend/routes/paymentRoutes.js:102-111 | an update or deletion takes the subscription's status, period end and cancel flag and keeps the subscribed flag, the id and the trial |
| PaymentRoutes.CheckoutGrantsPremium | backend/routes/paymentRoutes.js:85-93 | after a checkout whose period ends in the future the account is premium |
| PaymentRoutes.DeletionKeepsSubscribedFlag | backend/routes/paymentRoutes.js:97-112 | a deletion event without a period end leaves a premium account premium, since `isSubscribed` is never cleared |
| PaymentRoutes.SubscriptionChangeIdempotent | backend/routes/paymentRoutes.js:102-111 | a repeated update event changes nothing more |
| PaymentRoutes.WebhookTarget | backend/routes/paymentRoutes.js:73-112 | a checkout writes to the user in its metadata, an update or deletion to the account with that subscription id, and other events to none |
| PaymentRoutes.Webhook | backend/routes/paymentRoutes.js:60-119 | 400 iff the signature fails, otherwise 200; the target account, if any, gets `AfterCheckout` or `AfterSubscriptionChange` and keeps its other fields |
| PaymentRoutes.ApplySubscriptionChange | backend/routes/paymentRoutes.js:102-111 | the account found by subscription id gets `AfterSubscriptionChange`; without one nothing changes |
| StudentActivityController.GetActivities | backend/controllers/studentActivityController.js:6-21 | 404 with no list for a student the parent does not own, otherwise 200 with the stored activities |
| StudentActivityController.AddActivity | backend/controllers/studentActivityController.js:25-53 | 400 when the heading, details or date is falsy; 201 iff all three are given and the student is the parent's, and then exactly the new activity is appended and returned; otherwise nothing changes |
| StudentActivityController.DeleteRemovesExactly | backend/controllers/studentActivityController.js:69-71 | the filter removes every activity with the id, keeps the others in order, and leaves a list without the id as it was |
| StudentActivityController.AddThenDelete | backend/controllers/studentActivityController.js:43-71 | adding an activity with a fresh id and deleting that id restores the list |
| StudentActivityController.DeleteActivity | backend/controllers/studentActivityController.js:58-79 | 404 for a student the parent does not own; otherwise 200 and the activities are filtered by the id, the rest of the student kept |
| AdminChat.NewestFirst | backend/routes/adminChat.js:11-13 | the messages with "admin" as sender or receiver, exactly those, newest first |
| AdminChat.ParticipantsSpec | backend/routes/adminChat.js:16-27 | the map built by the loop has one entry per other participant, keyed by that participant; every message's other participant has one unless the name is a key `{}` inherits (e.g. "constructor", "__proto__"), which never has one; its keys in insertion order hold no repeats |
| AdminChat.EntryIsLatest | backend/routes/adminChat.js:17-26 | on newest-first messages, a participant's entry is one of their messages and no other of their messages is later |
| AdminChat.KeyOrderMembers | backend/routes/adminChat.js:30 | `Object.values` lists every key of the map exactly once |
| AdminChat.KeyOrderSorted | backend/routes/adminChat.js:30 | `Object.values` lists the array-index keys first, in increasing value, then the others in insertion order |
| AdminChat.NumericNamesListedFirst | backend/routes/adminChat.js:30 | users "bob", "10", "2" inserted in that order are listed as "2", "10", "bob" |
| AdminChat.ThreadsOf | backend/routes/adminChat.js:30-33 | one thread per participant of the map |
| AdminChat.ThreadsOfSpec | backend/routes/adminChat.js:30-33 | the threads are distinct, follow the key order `Object.values` gives the map, carry each entry's message and time, and are named "first last" of the matching account or the username |
| AdminChat.ChatList | backend/routes/adminChat.js:36 | the reply is sorted by last message time, newest first |
| AdminChat.Threads | backend/routes/adminChat.js:8-41 | the loop over the messages (which skips a name whose `chatMap[name]` is already truthy, an own entry or an inherited key of `{}`), the `Object.values` key order and the naming pass compute exactly `ChatList` |
| AdminChat.ChatListOnePerUser | backend/routes/adminChat.js:16-36 | no user has two threads |
| AdminChat.ChatListCoversEveryone | backend/routes/adminChat.js:11-36 | everyone who exchanged a message with "admin" has a thread whose time is no earlier than that message, except a user whose name is an inherited key of `{}`, who has none |
| AdminChat.InheritedKeyHasNoThread | backend/routes/adminChat.js:20 | a user named after a key `{}` inherits never gets a thread, since `chatMap[name]` is already truthy |
| AdminChat.ChatListShowsLatest | backend/routes/adminChat.js:17-36 | each thread shows the display name and one of the user's messages with "admin" that none of their other messages postdates |
| AdminChat.ThreadOfMessage | backend/routes/adminChat.js:17-33 | read newest first, the other party of any message has a thread whose time is no earlier than that message, unless the name is an inherited key of `{}` |
| AdminChat.ThreadIsLatest | backend/routes/adminChat.js:17-33 | read newest first, every thread carries its participant's display name and the date and text of one of their messages that none of their messages postdates |
| AdminChat.Conversation | backend/routes/adminChat.js:44-61 | the peer carries a name iff the account exists, and that name is "first last"; the messages are a permutation of those between the user and "admin", sorted oldest first |
| AdminChat.PostMessage | backend/routes/adminChat.js:64-83 | a falsy message is 400 and stores nothing; otherwise exactly one message from "admin" to the user, dated now, is appended and returned |
| AdminChat.PostedMessageInConversation | backend/routes/adminChat.js:44-77 | a posted reply appears in that user's conversation |
| HomeschoolResourceController.Position | backend/controllers/homeschoolResourceController.js:5-12 | numeric `location` coordinates win, then numeric top-level `lat`/`lng`, otherwise both are undefined |
| HomeschoolResourceController.NormalizeResource | backend/controllers/homeschoolResourceController.js:4-22 | the location is `Position`, each text field falls back to null when falsy, and every other field is kept |
| HomeschoolResourceController.NormalizeIdempotent | backend/controllers/homeschoolResourceController.js:4-22 | normalising twice is normalising once |
| HomeschoolResourceController.NormalizedPosition | backend/controllers/homeschoolResourceController.js:5-15 | after normalising, the coordinates are both numbers or both undefined |
| HomeschoolResourceController.Wrap | backend/controllers/homeschoolResourceController.js:39 | an array body is taken as is and a single object becomes a list of one |
| HomeschoolResourceController.NormalizeAll | backend/controllers/homeschoolResourceController.js:40 | the list keeps its length and each item is normalised in place |
| HomeschoolResourceController.BulkCreate | backend/controllers/homeschoolResourceController.js:38-43 | if every normalised document passes the schema (a title, String casts of state, city, address and website, no NaN coordinate), all are appended in order and the count is their number; otherwise none is stored and the error escapes the handler |
| HomeschoolResourceController.SingleObjectIsOneResource | backend/controllers/homeschoolResourceController.js:39-40 | a single object is imported as one normalised resource |
| HomeschoolResourceController.NormalizeAllIdempotent | backend/controllers/homeschoolResourceController.js:40 | re-normalising an imported list changes nothing |
| DiplomaServer.DigitsOf | backend/diploma_server.py:50 | the kept characters are all digits |
| DiplomaServer.Title | backend/diploma_server.py:54-62 | no grade gives "Academic Diploma", up to 5 elementary, 6 to 8 middle school, 9 and up high school |
| DiplomaServer.TitleMonotone | backend/diploma_server.py:54-62 | a higher grade never gives a lower school level |
| DiplomaServer.GenerateDiploma | backend/diploma_server.py:40-62 | missing parameters take their defaults and the title is that of the grade read from the raw grade text |
| DiplomaServer.NoGradeIsAcademic | backend/diploma_server.py:44-62 | without a grade parameter the diploma is an "Academic Diploma" |
| DiplomaServer.DigitsThenText | backend/diploma_server.py:49-52 | a grade written as digits followed by text reads as the value of those digits |
| DiplomaServer.GradeOfNumber | backend/diploma_server.py:49-52 | the decimal rendering of n with a digit-free suffix reads as n |
| DiplomaServer.RangeReadsAsOneNumber | backend/diploma_server.py:49-62 | "5-6" reads as 56 and yields a high school diploma |
| DiplomaServer.KindergartenIsAcademic | backend/diploma_server.py:49-62 | "Kindergarten" has no digits and yields an "Academic Diploma" |
| Http.ToNumber | backend/controllers/userController.js:31-34 | `Number()` of a body field fails exactly for a missing or non-numeric value (`null` reads as 0) |
| Models.NewSubject | backend/models/Student.js:4-9 | a new subject has the name, no hours, no credit and is not completed |
| Models.CountStatus | backend/models/DailyLog.js:10 | a status count is at most the number of logs |
| Models.CountStatusSplit | backend/models/DailyLog.js:10 | the pass and fail counts together are at most the number of logs |
| Models.SumPercentageBounds | backend/models/DailyLog.js:8 | with every percentage in 0..100 the sum lies between 0 and 100 per log |
| Models.Student.constructor | backend/controllers/studentController.js:34-42 | a new student has the given id, owner and profile, no subjects, GPA 0 and no activities |
| Models.StudentCollection.Find | backend/controllers/studentController.js:56 | `Student.findById`: a found student has the id, and none is found only when no student has it |
| Models.StudentCollection.FindOwned | backend/controllers/studentActivityController.js:8-11 | `findOne({ _id, parent })`: a found student has both the id and the owner, and none only when no student has both |
| Models.LogCollection.OfStudent | backend/controllers/dailyLogController.js:100 | `DailyLog.find({ student })`: exactly the logs of that student |
| Models.LogsOf | backend/controllers/dailyLogController.js:100 | the logs of a student, all of them and only them |
| Models.LogsOfAppend | backend/controllers/dailyLogController.js:73-100 | saving a log adds it to its own student's logs and to no other's |
| Models.User.constructor | backend/controllers/authController.js:198-207 | a new account has the given fields and the schema's empty plan: no trial, not subscribed, no status, id or end, no cancel flag |
| Models.UserCollection.Find | backend/controllers/authController.js:87 | `User.findById`: a found account has the id, and none only when no account has it |
| Models.UserCollection.FindByEmail | backend/controllers/authController.js:163 | `findOne({ email })` with the filter lower-cased by the schema: a found account has the lower-cased address, none only when no account does |
| Models.UserCollection.FindByEmailOrUsername | backend/controllers/authController.js:189 | `findOne({ $or: [email, username] })` with the address lower-cased and the username trimmed: a found account matches one of the two, none only when no account matches either |
| Models.UserCollection.FindByUsername | backend/routes/adminChat.js:31 | `findOne({ username })` with the filter trimmed: a found account has the trimmed username, none only when no account does |
| Models.UserCollection.FindBySubscription | backend/routes/paymentRoutes.js:102-103 | `findOneAndUpdate({ subscriptionId })`: a found account has the id, none only when no account does |
| Models.StateCollection.Find | backend/routes/stateRoutes.js:31 | `State.findById`: a found state has the id, none only when no state has it |
| Models.WithoutEmail | backend/controllers/authController.js:167 | `Otp.deleteMany({ email })`: exactly the records for other addresses remain |
| JsValues.OrNull | backend/controllers/homeschoolResourceController.js:16-20 | `v \|\| null`: a falsy value becomes null and any other is kept |
| JsValues.ToNumber | client/src/pages/admin/AdminResourceManagerPage.js:72 | `Number(v)` is always a number and keeps a number as it is |
| JsValues.MathRound | client/src/pages/Dashboard.js:162 | `Math.round` is within half a unit of its argument, rounding halves up |
| Replies.ErrorText | client/src/components/LoginModal.js:87-88 | `err.response?.data?.message \|\| fallback`: the server's message when it is non-empty, else the fallback |
| Dashboard.GetLastWeekStudyHours | client/src/pages/Dashboard.js:92-105 | no selected student gives 0; otherwise the loops sum the minutes of every log dated within the last seven days, in hours |
| Dashboard.OldLogsAddNothing | client/src/pages/Dashboard.js:99-100 | logs older than a week add nothing to the week's minutes |
| Dashboard.RecentMinutesBounds | client/src/pages/Dashboard.js:96-103 | with non-negative study times, the week's minutes lie between 0 and the minutes of all logs |
| Dashboard.PercentageToGpa | client/src/pages/Dashboard.js:107-120 | the grade point lies between 0 and 4 |
| Dashboard.SameScaleAsOverview | client/src/pages/Dashboard.js:107-120 | the chart's scale is the student overview's 12-step scale, for every percentage |
| Dashboard.GradedLogs | client/src/pages/Dashboard.js:125-127 | exactly the logs of all subjects with a percentage above 0 are charted |
| Dashboard.Buckets | client/src/pages/Dashboard.js:136-142 | one point per key, each the scale's grade point of the mean percentage of that month's logs |
| Dashboard.KeysHaveLogs | client/src/pages/Dashboard.js:130-132 | every (year, month) key met has at least one log |
| Dashboard.GetMonthlyGpaData | client/src/pages/Dashboard.js:122-146 | no selected student gives no points; otherwise the loops compute exactly `MonthlyGpa` of the subjects |
| Dashboard.MonthlyGpaSpec | client/src/pages/Dashboard.js:122-146 | one point per distinct (year, month) of a graded log, each between 0 and 4, ordered by month of the year regardless of the year |
| Dashboard.UngradedLogsIgnored | client/src/pages/Dashboard.js:127 | a log with percentage 0 or less never reaches the chart |
| Dashboard.PieData | client/src/pages/Dashboard.js:148-176 | for a blank, "Carnegie Unit" or "Local" definition, one slice per subject with its rounded total hours; otherwise one slice per completed subject with its credit hours |
| Dashboard.CompletedSlices | client/src/pages/Dashboard.js:168-173 | one slice per completed subject, named `subjectName \|\| "Unnamed"`, valued at its credit hours |
| Dashboard.PieShowsCompletedOnly | client/src/pages/Dashboard.js:168-173 | in a completion-based definition every slice belongs to a completed subject |
| Dashboard.PieDefinition | client/src/pages/Dashboard.js:152-155 | with neither lookup giving a non-empty definition, the definition is blank |
| Dashboard.StudentReplyPieIsHours | client/src/pages/Dashboard.js:152-164 | the student reply carries neither definition, so the pie always shows one hours slice per subject |
| Dashboard.RecentActivities | client/src/pages/Dashboard.js:178-179 | the headings of the first five activities in stored order (fewer when there are fewer) |
| Dashboard.NewActivityNotShown | client/src/pages/Dashboard.js:178-179 | once a student has five activities, a newly added one is never listed |
| Dashboard.AvgGpa | client/src/pages/Dashboard.js:181-187 | 0 without students; otherwise the mean of the GPAs, i.e. times the count it is their sum |
| Dashboard.SumGpaBounds | client/src/pages/Dashboard.js:185 | GPAs within 0..4 sum to between 0 and 4 per student |
| Dashboard.AvgGpaBounds | client/src/pages/Dashboard.js:181-187 | with every GPA within 0..4 the average lies within 0..4 |
| CompletionViewModal.RowCredit | client/src/components/CompletionViewModal.js:83 | a row's credit is 1 iff the subject is completed, else 0 |
| CompletionViewModal.TotalCredits | client/src/components/CompletionViewModal.js:30-32 | the total is at most the number of subjects |
| CompletionViewModal.TotalCountsCompleted | client/src/components/CompletionViewModal.js:30-32 | the total is the number of completed subjects |
| CompletionViewModal.RowCredits | client/src/components/CompletionViewModal.js:80-83 | one credit cell per subject, in order |
| CompletionViewModal.TotalIsColumnSum | client/src/components/CompletionViewModal.js:30-83 | the total equals the sum of the credit column |
| CompletionViewModal.CreditHoursIgnored | client/src/components/CompletionViewModal.js:30-83 | subjects differing only in credit hours give the same column and total |
| CompletionViewModal.CompletingAddsOne | client/src/components/CompletionViewModal.js:30-32 | marking one incomplete subject completed raises the total by exactly 1 |
| LogDailyModal.SubjectNames | client/src/components/LogDailyModal.js:18 | the options are the subjects' names, in order |
| LogDailyModal.AlreadyRegistered | client/src/components/LogDailyModal.js:31-33 | true iff some option equals the input after trimming and lower-casing both |
| LogDailyModal.RegisteredLikeServer | client/src/components/LogDailyModal.js:31-33 | the form knows a subject exactly when the server's lookup finds it |
| LogDailyModal.StudyMinutes | client/src/components/LogDailyModal.js:53 | an empty field or one `parseInt` cannot read gives 0, otherwise the parsed integer |
| LogDailyModal.Payload | client/src/components/LogDailyModal.js:49-56 | the trimmed subject, the trimmed comment or "No comment", the study minutes, `parseFloat` of the percentage iff the grade is above 5, and the status iff the grade is at most 5 |
| LogDailyModal.PayloadHasComment | client/src/components/LogDailyModal.js:52 | the body always carries a non-empty comment, so the server's comment check never refuses it |
| LogDailyModal.NoGradeSendsNeither | client/src/components/LogDailyModal.js:54-55 | a student without a readable grade sends neither a percentage nor a status |
| LogDailyModal.UnchosenStatusStoredAsNone | client/src/components/LogDailyModal.js:55 | a primary log sent without a choice is stored with no status |
| LogDailyModal.DailyLogForm.constructor | client/src/components/LogDailyModal.js:7-20 | the form opens with empty fields and the student's subject names |
| LogDailyModal.DailyLogForm.SaveLog | client/src/components/LogDailyModal.js:47-76 | posts `Payload` of the fields; on success clears them and shows the saved message, on failure keeps them and shows the error; the dialog closes either way |
| LogDailyModal.DailyLogForm.HandleSave | client/src/components/LogDailyModal.js:24-45 | an empty subject is refused, an unknown one opens the confirm dialog; a body is sent iff the subject is registered, and then the list is refreshed whether or not the post succeeded |
| LogDailyModal.DailyLogForm.HandleCreateSubject | client/src/components/LogDailyModal.js:78-87 | the confirmed subject is saved as typed and trimmed, the dialog closes and the list is refreshed; on success the fields are cleared, on failure they are kept and the error is shown |
| LogDailyModal.SubjectTrimmedOnce | client/src/components/LogDailyModal.js:30-51 | trimming in `handleSave` and again in `saveLog` gives the same body as trimming once |
| CompletionLogModal.FindByName | client/src/components/CompletionLogModal.js:21-23 | the first subject whose trimmed, lower-cased name matches, and none iff no subject matches |
| CompletionLogModal.AutofillLikeServer | client/src/components/CompletionLogModal.js:18-29 | a choice is filled in iff the server's lookup finds the subject, and it is that subject's stored flag |
| CompletionLogModal.CompletionForm.constructor | client/src/components/CompletionLogModal.js:12-16 | the form opens empty with the student's subject names |
| CompletionLogModal.CompletionForm.HandleSubjectChange | client/src/components/CompletionLogModal.js:18-29 | the typed name is kept and the choice is the matching subject's flag, or none |
| CompletionLogModal.CompletionForm.SaveCompletion | client/src/components/CompletionLogModal.js:54-68 | sends the current choice for the subject; on success clears the subject and the choice, on failure keeps them, showing the matching message |
| CompletionLogModal.CompletionForm.HandleSave | client/src/components/CompletionLogModal.js:31-52 | an empty subject, then a missing choice, is refused; an unknown subject opens the confirm dialog; a request is sent iff all three checks pass, always with a choice, and the list is then refreshed |
| CompletionLogModal.CompletionForm.HandleCreateSubject | client/src/components/CompletionLogModal.js:70-80 | the confirmed subject is saved trimmed, the dialog closes and the list is refreshed; on success the subject and choice are reset, on failure they are kept and the error is shown |
| CompletionLogModal.RegisteredNameFillsStoredFlag | client/src/components/CompletionLogModal.js:18-29 | retyping a registered subject's name fills in its stored flag |
| LoginModal.ValidatePassword | client/src/components/LoginModal.js:111-116 | each flag holds iff its rule does: at least six characters, an upper-case letter, a lower-case letter, one of the listed special characters |
| LoginModal.SameRuleAsServer | client/src/components/LoginModal.js:128-131 | all four flags hold iff the server's password rule accepts the password |
| LoginModal.HandlerFor | client/src/components/LoginModal.js:201-209 | step 0 logs in, 1 sends a reset code, 2 checks it, and every other step sets the new password |
| LoginModal.LoginForm.constructor | client/src/components/LoginModal.js:19-37 | the dialog opens empty at the login step |
| LoginModal.LoginForm.GoToStep | client/src/components/LoginModal.js:261 | the "Forgot password" and "Back to login" links change the step and nothing else |
| LoginModal.LoginForm.HandleSubmit | client/src/components/LoginModal.js:47-64 | the dialog closes iff the login succeeds, and then the fields are cleared; a failure shows "Invalid credentials" and keeps them |
| LoginModal.LoginForm.HandleResetStep0 | client/src/components/LoginModal.js:66-92 | a blank name is refused without a lookup; the trimmed name is looked up, a missing address shows "User not found", a failed request its message; the code step is reached iff an address was found and the code sent |
| LoginModal.LoginForm.HandleResetStep2 | client/src/components/LoginModal.js:94-109 | sends the address and the code; success moves to the last step, failure shows the server's message or "Invalid OTP" |
| LoginModal.LoginForm.HandleResetPasswordChange | client/src/components/LoginModal.js:118-124 | stores the new password with its flags and clears the messages |
| LoginModal.LoginForm.HandleResetStep3 | client/src/components/LoginModal.js:126-157 | a password breaking a rule is refused without a request; otherwise the address and password are sent, and success schedules the return to login while failure shows the message |
| LoginModal.LoginForm.AfterResetDelay | client/src/components/LoginModal.js:141-153 | the delayed reset returns to the login step with every reset field empty |
| LoginModal.SentPasswordPassesServer | client/src/components/LoginModal.js:126-140 | a password the dialog sends passes the server's rule in `resetPassword` |
| RegisterModal.IndexOf | client/src/components/RegisterModal.js:120 | the first position of the character, and none iff it does not occur |
| RegisterModal.EmailCheckSound | client/src/components/RegisterModal.js:120-122 | every address the check accepts matches `^[^\s@]+@[^\s@]+\.[^\s@]+$` |
| RegisterModal.EmailCheckComplete | client/src/components/RegisterModal.js:120-122 | every address matching the expression is accepted |
| RegisterModal.EmailCheckIsPattern | client/src/components/RegisterModal.js:120-122 | the check accepts exactly the language of the expression |
| RegisterModal.AcceptsPlainAddress | client/src/components/RegisterModal.js:120-122 | "a@b.co" passes the e-mail check |
| RegisterModal.RefusesMissingDot | client/src/components/RegisterModal.js:120-122 | "a@b", with no dot after the '@', fails the e-mail check |
| RegisterModal.RefusesSpace | client/src/components/RegisterModal.js:120-122 | "a b@c.d", with a space before the '@', fails the e-mail check |
| RegisterModal.WithField | client/src/components/RegisterModal.js:46 | the named field takes the value and the others are kept |
| RegisterModal.SubmitHandler | client/src/components/RegisterModal.js:201-205 | the form checks the code iff one was sent and the details are not being edited |
| RegisterModal.AttemptsCountDown | client/src/components/RegisterModal.js:104-114 | after the first failure two attempts are left, after the second one, and from the third on the form gives up |
| RegisterModal.RegisterDialog.constructor | client/src/components/RegisterModal.js:7-28 | the dialog opens with an empty form, no code sent and no attempt used |
| RegisterModal.RegisterDialog.HandleChange | client/src/components/RegisterModal.js:44-50 | the field takes the value, the messages are cleared, and the flags follow a changed password |
| RegisterModal.RegisterDialog.SendOtp | client/src/components/RegisterModal.js:52-66 | success marks the code sent, leaves editing and disables resending; failure shows "Failed to send OTP" and enables it |
| RegisterModal.RegisterDialog.ResendTimerFires | client/src/components/RegisterModal.js:61 | the 15-second timer enables resending and changes nothing else |
| RegisterModal.RegisterDialog.HandleSubmit | client/src/components/RegisterModal.js:118-127 | an invalid address, then a password breaking a rule, is refused; a code is requested for the address iff both checks pass |
| RegisterModal.RegisterDialog.VerifyOtpAndRegister | client/src/components/RegisterModal.js:68-116 | a code of other than six characters, then a bad password, is refused; otherwise the form and code are sent; success schedules the close, and each failure uses an attempt, the third scheduling the reset |
| RegisterModal.RegisterDialog.AfterRegisterDelay | client/src/components/RegisterModal.js:82-102 | the delayed close empties the form, the code and the flags and keeps the attempt count |
| RegisterModal.RegisterDialog.HandleTryAgain | client/src/components/RegisterModal.js:129-150 | starting over gives a fresh form with all attempts available |
| RegisterModal.RegisterDialog.HandleEditDetails | client/src/components/RegisterModal.js:152-156 | editing the details makes the next submit request a new code, keeping the code state |
| RegisterModal.ThreeFailures | client/src/components/RegisterModal.js:104-114 | three failed checks from no attempts report two, then one attempt left, then give up and schedule the reset |
| UpgradePremiumPage.GetStatus | client/src/pages/UpgradePremiumPage.js:239-273 | no account is loading; an active subscription set to cancel, or one whose status is 'canceled', is canceled; an active one otherwise subscribed; else a stored trial end gives trial before it and expired after; else not started |
| UpgradePremiumPage.TrialAgreesWithServer | client/src/pages/UpgradePremiumPage.js:265-271 | without a subscription the page shows a running trial iff the server reports `isTrial` |
| UpgradePremiumPage.SubscribedIsPremium | client/src/pages/UpgradePremiumPage.js:253-258 | a subscription shown as subscribed, before its end, has premium access on the server |
| UpgradePremiumPage.StartedTrialShown | client/src/pages/UpgradePremiumPage.js:265-268 | right after starting a trial the page shows a trial ending four days later |
| UpgradePremiumPage.TrialExpires | client/src/pages/UpgradePremiumPage.js:265-271 | as time passes a trial becomes expired and never the reverse |
| AdminSubscriptionsPage.SubscriptionLabel | client/src/pages/admin/AdminSubscriptionsPage.js:5-28 | cancelled first, then a running trial with its end, then subscribed with its end, and no subscription otherwise, each condition stated both ways |
| AdminSubscriptionsPage.CancelledOnBothPages | client/src/pages/admin/AdminSubscriptionsPage.js:7-9 | what the plan page calls canceled the admin list calls cancelled |
| AdminSubscriptionsPage.TrialOutranksSubscription | client/src/pages/admin/AdminSubscriptionsPage.js:10-17 | an active subscriber with a running old trial is subscribed on the plan page but in trial on the admin list |
| AdminSubscriptionsPage.StaleCancelFlag | client/src/pages/admin/AdminSubscriptionsPage.js:7-9 | a left-over cancel flag without a subscription is cancelled on the admin list but not started on the plan page |
| AdminSubscriptionsPage.AgreeOnPlainSubscriber | client/src/pages/admin/AdminSubscriptionsPage.js:17-26 | an active subscriber without a running trial or cancellation is subscribed, with the same end, on both pages |
| TranscriptPreview.CalculateGpaFromPercent | client/src/pages/TranscriptPreview.js:16-22 | the course grade point is one of 0, 1, 2, 3 and 4 |
| TranscriptPreview.SameScaleAsServer | client/src/pages/TranscriptPreview.js:16-22 | it is the server's five-step scale, for every percentage |
| TranscriptPreview.Percent | client/src/pages/TranscriptPreview.js:126-136 | from the marks when the total is positive and the obtained marks non-negative, else the mean of the logs' percentages, none without logs |
| TranscriptPreview.PercentFromLogsBounds | client/src/pages/TranscriptPreview.js:130-136 | without marks, logs with percentages in 0..100 give a percentage in 0..100 |
| TranscriptPreview.RowOf | client/src/pages/TranscriptPreview.js:138-163 | hours-based and grade 6 up: rounded percentage, the credit hours and the course grade point; hours-based below grade 6: pass, fail or incomplete with credit only for a pass; otherwise completed or incomplete with credit only when completed |
| TranscriptPreview.TotalCreditsBounds | client/src/pages/TranscriptPreview.js:67-81 | with non-negative credit hours the total lies between 0 and the sum of all credit hours |
| TranscriptPreview.TotalMatchesRows | client/src/pages/TranscriptPreview.js:67-163 | the total is the sum of the rows' credits, unless a primary subject in an hours-based state has no logs |
| TranscriptPreview.ZeroLogSubjectCounted | client/src/pages/TranscriptPreview.js:72-76 | such a subject adds its credit hours to the total while its row reads incomplete with no credit |
| TranscriptPreview.SummaryOf | client/src/pages/TranscriptPreview.js:176-190 | the summary shows the total and, only for an hours-based state and grade 6 up, the student's stored GPA |
| TranscriptPreview.RegimeIsCaseSensitive | client/src/pages/TranscriptPreview.js:143 | "local" in lower case is not hours-based, so no course grade point is shown |
| ViewStudentModal.Scale12 | client/src/components/ViewStudentModal.js:35-48 | the grade point is one of the eleven steps; it is 4 iff the percentage is at least 93 and 0 iff it is below 65 |
| ViewStudentModal.Scale12Monotone | client/src/components/ViewStudentModal.js:35-48 | a higher percentage never gives a lower grade point, and all lie within 0..4 |
| ViewStudentModal.ScalesDiffer | client/src/components/ViewStudentModal.js:35-48 | the overview and the server disagree: 88 is 3.3 here and 3 on the server, 62 is 0 here and 1 there |
| ViewStudentModal.SubjectStatsOf | client/src/components/ViewStudentModal.js:50-69 | a primary student sees the pass-versus-fail majority; any other sees the mean percentage of the logs (0 without logs) and its grade point |
| ViewStudentModal.NoLogsStats | client/src/components/ViewStudentModal.js:53-63 | a subject without logs shows Pass for a primary student and 0% with grade point 0 otherwise |
| ViewStudentModal.AverageBounds | client/src/components/ViewStudentModal.js:60-63 | logs with percentages in 0..100 average to within 0..100 |
| ViewStudentModal.TotalsAppend | client/src/components/ViewStudentModal.js:71-79 | a further subject adds exactly its hours and its credit hours to the two totals |
| ViewStudentModal.OverallStatus | client/src/components/ViewStudentModal.js:81-90 | the loop reports Pass iff the passes pooled over all subjects are at least the pooled failures |
| ViewStudentModal.EveryMajorityPasses | client/src/components/ViewStudentModal.js:81-90 | when every subject's majority is Pass, so is the overall status |
| ViewStudentModal.EntryOf | client/src/components/ViewStudentModal.js:215-221 | an entry is dated by its log day and shows pass/fail for a primary student, the percentage otherwise |
| ViewStudentModal.NullStatusShowsFail | client/src/components/ViewStudentModal.js:217-220 | a primary log without a status shows Fail |
| ViewStudentModal.FilterLogsByDate | client/src/components/ViewStudentModal.js:92-117 | "all" and unknown filters keep every entry; "today" keeps exactly today's, the others exactly those on or after their cutoff |
| ViewStudentModal.FilterKeepsOrder | client/src/components/ViewStudentModal.js:92-117 | every filter keeps the entries in their order |
| ViewStudentModal.SortDays | client/src/components/ViewStudentModal.js:234-236 | the dates are exactly the given ones, strictly newest first |
| ViewStudentModal.GroupByDate | client/src/components/ViewStudentModal.js:226-236 | every entry lands in the group of its day and only there, no group is empty, and the dates are exactly the groups' keys, newest first |
| HomeschoolMapPage.Word | client/src/pages/HomeschoolMapPage.js:161 | the longest separator-free prefix of the query |
| HomeschoolMapPage.TermsSpec | client/src/pages/HomeschoolMapPage.js:161 | the terms are non-empty, hold no separator, and together spell the query without its separators |
| HomeschoolMapPage.FilterByTerms | client/src/pages/HomeschoolMapPage.js:163-167 | a resource is kept iff every term occurs in its lower-cased title or state |
| HomeschoolMapPage.HandleSearch | client/src/pages/HomeschoolMapPage.js:151-172 | an empty trimmed query shows every resource, any other the resources matching all its terms; both clear the selection |
| HomeschoolMapPage.SearchKeepsOrder | client/src/pages/HomeschoolMapPage.js:163-169 | the results keep the resources' order |
| HomeschoolMapPage.NoTermsKeepsAll | client/src/pages/HomeschoolMapPage.js:166 | with no terms every resource matches |
| HomeschoolMapPage.MoreTermsNarrow | client/src/pages/HomeschoolMapPage.js:166 | a further term never adds a result |
| HomeschoolMapPage.HandleReset | client/src/pages/HomeschoolMapPage.js:174-179 | the query is cleared, every resource is shown and the selection cleared |
| HomeschoolMapPage.SearchAfterReset | client/src/pages/HomeschoolMapPage.js:151-179 | searching right after a reset changes nothing |
| StudentsPage.GradeLabel | client/src/pages/Students.js:14-28 | an own label exists iff the grade is one of the thirteen keys, and an inherited member is found iff the grade names an `Object.prototype` member; "0" is Kindergarten |
| StudentsPage.FilteredStudents | client/src/pages/Students.js:161-168 | the filter throws iff the trimmed, lower-cased term is non-empty and some student's grade names an inherited member; otherwise a student is listed iff the term is empty or occurs in the full name, the grade label or the e-mail |
| StudentsPage.InheritedGradeBreaksSearch | client/src/pages/Students.js:161-168 | one student with the grade "constructor" makes a non-blank search throw, whatever the other students match |
| StudentsPage.FilteredStudentsSpec | client/src/pages/Students.js:161-168 | a rendered list keeps the students' order, and an empty term lists them all, never throwing |
| StudentsPage.ViewFor | client/src/pages/Students.js:136-143 | the hours view opens iff the definition is exactly "Carnegie Unit" |
| StudentsPage.LocalOpensCompletionView | client/src/pages/Students.js:138 | "Local" and a lower-case "carnegie unit" open the completion view |
| StudentsPage.PictureUrl | client/src/pages/Students.js:150-158 | no picture gives the default avatar, an "/uploads" or "/images" path gets the API prefix, any other value is kept |
| StudentsPage.DefaultAvatarNotPrefixed | client/src/pages/Students.js:150-158 | the fallback avatar is returned without the prefix while the same path stored gets it |
| StudentsPage.AbsoluteUrlKept | client/src/pages/Students.js:154-157 | a picture value not starting with "/" is used as is |
| StudentsPage.Added | client/src/pages/Students.js:185-186 | an added student goes at the end and the others are kept |
| StudentsPage.Deleted | client/src/pages/Students.js:129 | exactly the students with other ids remain |
| StudentsPage.DeletedSpec | client/src/pages/Students.js:129 | the rest keep their order, and an id that is not there changes nothing |
| StudentsPage.Updated | client/src/pages/Students.js:270-273 | each student with the updated id is replaced, the others kept in place |
| StudentsPage.UpdatedSpec | client/src/pages/Students.js:270-273 | the ids stay in place and repeating the update changes nothing |
| StudentsPage.AddedIsFound | client/src/pages/Students.js:161-186 | an added student matching the search is listed |
| AdminResourceManagerPage.NormalizeResource | client/src/pages/admin/AdminResourceManagerPage.js:32-50 | the page's copy: numeric `location` coordinates, then numeric top-level ones, else undefined; falsy text fields become null |
| AdminResourceManagerPage.SameAsServer | client/src/pages/admin/AdminResourceManagerPage.js:32-50 | the page's copy agrees with the server's on every resource |
| AdminResourceManagerPage.ToUpload | client/src/pages/admin/AdminResourceManagerPage.js:200-202 | one normalised resource per parsed item, a single object counting as one |
| AdminResourceManagerPage.HandleFileUpload | client/src/pages/admin/AdminResourceManagerPage.js:185-212 | no file leaves the spinner on; unparsable JSON shows its message; a parsed file posts `ToUpload` and reports success or failure |
| AdminResourceManagerPage.OnlyJsonIsPosted | client/src/pages/admin/AdminResourceManagerPage.js:188-203 | something is posted iff the file parsed |
| AdminResourceManagerPage.ImportStoresWhatWasSent | client/src/pages/admin/AdminResourceManagerPage.js:200-203 | the server's second normalisation keeps what the page sent |
| AdminResourceManagerPage.EditSubmit | client/src/pages/admin/AdminResourceManagerPage.js:70-73 | the saved form has numeric coordinates: the form's own, or NaN when there were none; the rest of the form is kept |
| AdminResourceManagerPage.Sent | client/src/pages/admin/AdminResourceManagerPage.js:168 | what the server receives of a resource sent as JSON has no NaN, and a resource without NaN arrives unchanged |
| AdminResourceManagerPage.EditKeepsCoordinates | client/src/pages/admin/AdminResourceManagerPage.js:72 | finite coordinates of a submitted edit are the ones `update` stores; a NaN coordinate arrives as null and the stored location falls back to the numeric top-level pair, else to undefined |
| AdminResourceManagerPage.ClearedCoordinateErasesLocation | client/src/pages/admin/AdminResourceManagerPage.js:62-72 | a cleared or missing coordinate, with no numeric top-level pair, has the stored location erased, no NaN is stored, and the schema then depends on the title and the four String fields alone |
| JsValues.JsonRoundTrip | client/src/pages/admin/AdminResourceManagerPage.js:168 | after the JSON encoding no value is NaN, a value is a number iff it was a finite number, truthiness is kept, and every value but NaN is unchanged |
| AddStudentModal.GradeOfLabel | client/src/components/AddStudentModal.js:7-21 | a label names a grade only for the thirteen options, and that grade is between 0 and 12 |
| AddStudentModal.GradeOptionsBijection | client/src/components/AddStudentModal.js:7-21 | the thirteen options pair option i with grade i, and distinct options carry distinct labels |
| AddStudentModal.OptionValue | client/src/components/AddStudentModal.js:271-272 | the value a chosen option puts in the form is a non-empty digit string whose decimal value is the grade |
| AddStudentModal.OptionValuesAreGradeKeys | client/src/components/AddStudentModal.js:271-272 | the value of option i is the Students page's grade key i |
| AddStudentModal.OptionsMatchStudentList | client/src/components/AddStudentModal.js:7-21 | a grade stored from option i is shown in the student list with option i's own label |
| AddStudentModal.CheckForm | client/src/components/AddStudentModal.js:99-116 | the form passes exactly when both names, the birth date and a grade are filled in and the date is valid-and-at-least-a-year-old or invalid; a missing field gives the required-fields message, anything else the one-year message |
| AddStudentModal.KindergartenAccepted | client/src/components/AddStudentModal.js:99-102 | grade "0" (Kindergarten) counts as chosen: the check tests for the empty string, not falsiness |
| AddStudentModal.AgeLimits | client/src/components/AddStudentModal.js:105-116 | a future birth date and one less than 365.25 days ago are refused; one at least that long ago passes |
| AddStudentModal.ImageChoice | client/src/components/AddStudentModal.js:54-64 | a file over 2 MiB is dropped with the size message; any other choice is kept and clears the error; a kept file never exceeds 2 MiB |
| AddStudentModal.FailureText | client/src/components/AddStudentModal.js:145-152 | a server message mentioning "2MB" shows the size message; any other failure shows the server's message or the fallback |
| AddStudentModal.AddStudentForm.constructor | client/src/components/AddStudentModal.js:38-46 | the form starts empty, with no picture, no error and the calendar closed |
| AddStudentModal.AddStudentForm.HandleChange | client/src/components/AddStudentModal.js:48-52 | the named field takes the value, every other field is kept, and the error is cleared |
| AddStudentModal.AddStudentForm.HandleImageChange | client/src/components/AddStudentModal.js:54-64 | the picture and the error become what ImageChoice gives; the text fields are kept |
| AddStudentModal.AddStudentForm.HandleDaySelect | client/src/components/AddStudentModal.js:67-73 | a picked day becomes the birth date as its ISO day and closes the calendar; no day changes nothing |
| AddStudentModal.AddStudentForm.HandleSubmit | client/src/components/AddStudentModal.js:94-154 | an upload is sent exactly when CheckForm passes, holding the fields, an empty subject list and the chosen picture; a check failure shows its message; success empties the form and closes it; a failed request keeps the fields and shows FailureText |
| EditStudentModal.Prefill | client/src/components/EditStudentModal.js:49-61 | the opened form holds the stored names, the birth date as its ISO day or "" when there is none, and the stored grade or "" when there is none |
| EditStudentModal.PrefillRequiredFields | client/src/components/EditStudentModal.js:110-113 | an opened profile fails the required-fields check exactly when a name, the birth date or the grade is missing |
| EditStudentModal.UnchangedSaveKeepsProfile | client/src/components/EditStudentModal.js:128-133 | saving the opened form unchanged keeps the stored names, picture and grade, keeps the birth date unless the server casts the sent day to a date, which it then stores |
| EditStudentModal.EditStudentForm.constructor | client/src/components/EditStudentModal.js:38-46 | the form starts empty, with no picture, no error and the calendar closed |
| EditStudentModal.EditStudentForm.Open | client/src/components/EditStudentModal.js:49-61 | opening for a student sets the fields to Prefill of the profile and drops any chosen picture |
| EditStudentModal.EditStudentForm.HandleChange | client/src/components/EditStudentModal.js:63-67 | the named field takes the value, every other field is kept, and the error is cleared |
| EditStudentModal.EditStudentForm.HandleImageChange | client/src/components/EditStudentModal.js:69-81 | the picture and the error become what the add form's 2 MiB rule gives; the text fields are kept |
| EditStudentModal.EditStudentForm.HandleDaySelect | client/src/components/EditStudentModal.js:83-89 | a picked day becomes the birth date as its ISO day and closes the calendar; no day changes nothing |
| EditStudentModal.EditStudentForm.HandleSubmit | client/src/components/EditStudentModal.js:106-158 | an update is sent exactly when the add form's checks pass, holding the four fields and the chosen picture but no subject list; success closes the dialog; failure shows the size message or the server's message or "Failed to update student"; the fields are kept either way |

## Left out

- Network and persistence: axios and fetch calls, Mongoose queries and saves. Collections are in-memory classes, and the outcome of each request is a parameter (`Reply`, or a boolean such as `putSucceeds`).
- Stripe, bcrypt, JWT, cookies and e-mail: the Stripe session and subscription objects, the password hash, the verified token payload, the generated OTP and whether the mail went out are all parameters.
- DailyLogController.LogRequest: `comment` is an `Option<string>`, so a truthy comment that is not a string (a number, `true`) counts as absent and `CreateLog` answers 400, where the source passes `if (!comment)` and the schema casts the value to a String.
- Clocks: `Date.now()` and `new Date()` are the parameter `now`, in UTC milliseconds. Local time zones are not modelled, so a "day" is a UTC day.
- Date parsing: what `new Date(string)` makes of a date string is a parameter (`None` for an invalid date); on the server, whether the schema's Date cast accepts a birth date is a parameter too (`StudentController.DateField`).
- Timers: a `setTimeout` callback is its own method (for example `LoginModal.LoginForm.AfterResetDelay`), to be called after the handler that schedules it.
- React rendering: JSX, effects, styling and routing. Only the state the handlers change and the values the pages compute are modelled.
- Display formatting: `toFixed` and `toLocaleString` are not modelled. The dashboard's month names are replaced by the month index.
- Floating point: amounts are `real`, so there is no IEEE rounding and no NaN arithmetic. `Math.round` is modelled where it produces a stored or compared value.
- Text.Lower: lower-cases the ASCII letters only, where `toLowerCase` also maps the other Unicode letters ("É" to "é"). So for names outside ASCII, `DailyLogController.FindSubject` and `Register`, `LogDailyModal.AlreadyRegistered`, `CompletionLogModal.FindByName`, `HomeschoolMapPage.FilterByTerms`, `StudentsPage.FilteredStudents` and the address lookups of `Models.UserCollection` tell apart strings the source treats as equal.
- Whitespace: `Text.IsSpace` covers the ASCII whitespace, the no-break space and the byte-order mark only, not the other Unicode spaces of JavaScript's `\s`.
- Text.ParseFloat: reads decimal notation only; exponents, `Infinity` and hexadecimal are not modelled.
- Text.ParseInt: reads radix 10 only; `parseInt` without a radix reads a "0x" or "0X" prefix as hexadecimal ("0x1e" is 30), which the model reads as 0.
- JsValues.ToNumber: a string is a number only when it is decimal digits with surrounding whitespace, or blank; signs, fractions and exponents in strings are NaN here.
- Http.ToNumber: the numeric value of a non-empty body string is a parameter of the request body (`Num(v)` or `NotNumeric`), not computed from its characters.
- DiplomaServer: Python's `str.isdigit` is taken as the ASCII digits only, not the other Unicode digits it also accepts. The PIL drawing and the Flask response are not modelled.
- HomeschoolResourceController: `getAll`, `create` and `getOne` are plain query wrappers and are not modelled; only `normalizeResource` and `bulkCreate` are. Of `update`, only what it writes for an edit from the page is modelled (`AdminResourceManagerPage.SavedEdit`): `findByIdAndUpdate` runs no validators and its reply is not modelled.
- StudentController: `createStudent`, `getStudents` and the multer upload and file deletion are not modelled.
- EditStudentModal.Prefill: a stored grade of `null` is not distinguished from a missing one; both pre-fill "".
- ViewStudentModal: `getProfilePicture` and the log table's date formatting are display-only and are not modelled.
- CompletionViewModal: the log-date cell is display formatting and is not modelled.
- AddStudentModal.AddStudentForm.HandleImageChange: a file choice is `Option<Picture>`. Clearing the input element itself is not modelled.
- Concurrency: concurrent requests, and last-write-wins on a student document, are not modelled.

## Findings

| source | as written | input that shows it | evidently intended | confidence | as-written member | corrected member |
|---|---|---|---|---|---|---|
| backend/controllers/dailyLogController.js:67 | `createLog` takes the hours per credit from `req.user.hoursPerCredit`, but the token payload set by the auth middleware has no such field, so it is undefined and every log earns 0 credits | any log, e.g. 120 minutes for a new subject with an account at 60 hours per credit | the account's own `hoursPerCredit`, so that logged hours earn credits | high, not executed | DailyLogController.WiredLoggingEarnsNoCredit | DailyLogController.AccountLoggingEarnsCredit |
| backend/controllers/dailyLogController.js:158-177 | `updateCompletionStatus` pushes a plain object for a missing subject and then toggles that plain object; the push stored a copy, so the saved subject stays not completed with 0 credits while the reply is 200 | `isCompleted: true` for a subject the student does not have yet | toggle the subject as stored in the array, as for a registered one | high, not executed | DailyLogController.NewSubjectCompletionLost | DailyLogController.IntendedToggleRecordsCompletion |
| backend/controllers/userController.js:40-42 | `updateCredits` assigns to `req.user` and calls `req.user.save()`, but `req.user` is the plain token payload, which has no `save`, so every valid request ends in a 500 and nothing is stored | `{ minCreditsRequired: 24, hoursPerCredit: 120 }` from a logged-in parent | load the user document, assign the two fields and save it | high, not executed | UserController.CreditsNeverSaved | UserController.UpdateCredits |
