# Tutoring platform backend: ownership and visibility policy

This project models the request handlers of a small tutoring platform's REST backend.
Teachers create students and manage their subjects. They upload recorded videos and
schedule live sessions. Students see the videos and sessions of the subjects they are
enrolled in.

What the handlers implement is an ownership and visibility policy over three collections:

- **Users.** A teacher lists, creates, re-subjects and soft-deletes the students they created.
- **Videos.** A teacher lists, creates and soft-deletes their own videos. A student lists the
  active videos of their subjects.
- **Live sessions.** These work like videos, and every list is ordered by `scheduledAt`.

Each collection is a `seq` of records in insertion order. The GET handlers are pure functions
of a collection's contents and the principal (`Videos.List`, `Lives.List`, `Students.List`).
The handlers that save a document are methods of a collection class (`VideoCollection`,
`LiveSessionCollection`, `UserCollection`). Each method changes its `seq` field in place.
Its contract ties the new contents to a function of the old contents (`SoftDeleted`,
`WithSubjects`, an append). It also keeps the lifecycle invariant `Evolves`: no record is
ever removed, no field other than `isActive` (and, for users, `subjects`) ever changes, and
an inactive record never becomes active again.

The principal is `Teacher(id) | Student(id, subjects)`. The teacher-only gate in front of
every mutating route, and in front of the student list, is `Access.RequireTeacher`. It
answers `Forbidden`. The failures are `Forbidden`, `DuplicateEmail` (400), `NotFound` (404)
and `Invalid`. `Invalid` is a schema validation failure on save, which the handlers' catch
blocks answer with 500.

The schema files become `VideoModel.NewVideo` and `LiveSessionModel.NewLiveSession`. These
apply the defaults: `description` is "" and `isActive` is true. They store the title trimmed
the way `String.prototype.trim` does it (`Text.Trim`). They reject a missing or empty
required string path, which is what Mongoose's `required` does, so a title of only
whitespace is rejected. A missing `scheduledAt` is rejected too.

The update and delete lookups (routes/students.js:68-72 and 99-103, routes/videos.js:63-66,
routes/lives.js:64-67) match on id and owner (and, for users, on role). They do not filter on
`isActive`. So a deleted record can be deleted again with a success answer, and a deleted
student can still be re-subjected (`Students.LookupIgnoresDeletion`, `Videos.DeleteRepeatable`,
`Lives.DeleteRepeatable`).

`scenarios.dfy` replays example request sequences against the handlers' contracts.
Teacher B gets NotFound on teacher A's student. Subjects are replaced, not merged. A math
video is seen by math students only. Sessions at T+1 and T-1 are listed T-1 first.

## Model

| member | source | states |
|---|---|---|
| Access.RequireTeacher | routes/videos.js:35 | the gate lets exactly teachers through, with their own id, and refuses everyone else with Forbidden |
| Access.EnrolledSubjects | routes/videos.js:20 | a student's subjects are the stored list, or the empty list when the user has none |
| Query.Filter | routes/students.js:9-13 | a `find` returns exactly the stored records that satisfy the filter, each as often as it is stored |
| Query.FilterAppend | routes/videos.js:47 | after a record is added, each `find` returns its old result, plus the new record exactly when it satisfies the filter; the model keeps stored order, so the record comes last, an order of the model's own that the source does not fix |
| Query.FindFirst | routes/students.js:68-72 | `findOne` yields a record that satisfies the filter, and none before it does; it yields nothing exactly when no stored record matches |
| Text.LeadingWhitespace | models/Video.js:7 | counts the whitespace prefix: everything before the count is whitespace and the next character is not |
| Text.TrailingWhitespace | models/Video.js:7 | counts the whitespace suffix: everything after it is whitespace and the character before it is not |
| Text.Trim | models/Video.js:4-8 | the trimmed title has no whitespace at either end and is the middle of the input, with only whitespace cut from each side |
| Text.TrimUnpads | models/Video.js:4-8 | trimming a trimmed string padded with whitespace on both sides gives back that string, so the trimmed form is unique |
| Text.TrimPadded | models/Video.js:4-8 | whitespace added around any string does not change its trimmed form |
| Text.TrimIdempotent | models/Video.js:4-8 | trimming an already trimmed title changes nothing |
| Text.TrimEmptyIffBlank | models/Video.js:4-8 | trimming leaves the empty string exactly when the title is all whitespace |
| VideoModel.NewVideo | models/Video.js:3-29 | a video is created exactly when the trimmed title, the link and the subject are non-empty; it is then well-formed, active, owned by the uploader, titled with the trimmed title, with description "" when none was given; otherwise the save fails with Invalid |
| VideoModel.BlankTitleRejected | models/Video.js:4-8 | a whitespace-only video title fails validation |
| VideoModel.StoredTitleUnpadded | models/Video.js:4-8 | whitespace added around any submitted title makes no difference to the outcome: the same video is stored, or the same validation failure is answered |
| LiveSessionModel.NewLiveSession | models/LiveSession.js:3-33 | a session is created exactly when the trimmed title, the link and the subject are non-empty and a time is given; it is then well-formed, active, owned by its creator, scheduled at the given time, with description "" when none was given; otherwise the save fails with Invalid |
| LiveSessionModel.BlankTitleRejected | models/LiveSession.js:4-8 | a whitespace-only session title fails validation |
| Videos.List | routes/videos.js:12-25 | a teacher gets exactly the active videos they uploaded; a student gets exactly the active videos whose subject is among theirs, whoever uploaded them, and nothing when they have no subjects; each video appears as often as it is stored |
| Videos.DeletedVideoHidden | routes/videos.js:72-73 | after a delete, no teacher's or student's list shows the video |
| Videos.DeleteRepeatable | routes/videos.js:63-66 | the delete lookup still finds a video its owner already deleted, so a repeat delete succeeds |
| Videos.DeleteIdempotent | routes/videos.js:72-73 | deleting a video twice leaves the collection as deleting it once |
| Videos.CreatedVideoListed | routes/videos.js:39-47 | a new video joins exactly the lists of the principals it is visible to, and nothing else in any list changes; that it comes last is the model's own stored order, which the source does not fix |
| Videos.SoftDeletePermanent | routes/videos.js:14-24 | a video that was inactive at some point is absent from every list in every later state of the collection |
| Videos.EvolvesTransitive | routes/videos.js:61-80 | the lifecycle invariant the handlers keep composes across any number of calls: records are never removed, only deactivated, and never reactivated |
| Videos.VideoCollection.Create | routes/videos.js:35-58 | teacher only; on success exactly one video is appended, owned by the requesting teacher, and the existing videos are untouched; a failed validation changes nothing |
| Videos.VideoCollection.Remove | routes/videos.js:61-80 | teacher only; NotFound, with nothing changed, unless a video matches both id and uploader, so a missing video and another teacher's video get the same answer; otherwise only that video's `isActive` becomes false and the video stays stored |
| Lives.InsertBySchedule | routes/lives.js:17 | inserting a session into a schedule-ordered list keeps it ordered and adds exactly that session |
| Lives.SortBySchedule | routes/lives.js:17 | the sorted list is in non-decreasing `scheduledAt` order and is a permutation of its input |
| Lives.List | routes/lives.js:12-25 | a teacher gets exactly their own active sessions; a student gets exactly the active sessions of their subjects, past and future alike, and nothing when they have no subjects; in both cases each appears as often as it is stored, in non-decreasing `scheduledAt` order |
| Lives.DeletedSessionHidden | routes/lives.js:73-74 | after a delete, no teacher's or student's list shows the session |
| Lives.DeleteRepeatable | routes/lives.js:64-67 | the delete lookup still finds a session its owner already deleted, so a repeat delete succeeds |
| Lives.DeleteIdempotent | routes/lives.js:73-74 | deleting a session twice leaves the collection as deleting it once |
| Lives.CreatedSessionListed | routes/lives.js:39-48 | a new session joins exactly the lists of the principals it is visible to, and nothing else in any list changes |
| Lives.SoftDeletePermanent | routes/lives.js:14-24 | a session that was inactive at some point is absent from every list in every later state of the collection |
| Lives.EvolvesTransitive | routes/lives.js:62-81 | the lifecycle invariant the handlers keep composes across any number of calls: records are never removed, only deactivated, and never reactivated |
| Lives.LiveSessionCollection.Create | routes/lives.js:35-59 | teacher only; on success exactly one session is appended, owned by the requesting teacher, and the existing sessions are untouched; a failed validation changes nothing |
| Lives.LiveSessionCollection.Remove | routes/lives.js:62-81 | teacher only; NotFound, with nothing changed, unless a session matches both id and creator; otherwise only its `isActive` becomes false and the session stays stored |
| Students.List | routes/students.js:7-26 | teacher only; the list holds exactly the active students the requesting teacher created, never another teacher's, each with the password projected away and `subjects` present ([] when absent) |
| Students.DeletedStudentUnlisted | routes/students.js:109-112 | after a delete, the student is absent from the list |
| Students.LookupIgnoresDeletion | routes/students.js:99-103 | soft-deleting any user does not change whether the owner-scoped lookup finds a student, so a deleted student can be deleted again or re-subjected |
| Students.DeleteIdempotent | routes/students.js:109-110 | deleting a student twice leaves the collection as deleting them once |
| Students.SubjectsReplaced | routes/students.js:78-79 | a second subjects update wins outright: nothing of the first list is merged in |
| Students.CreatedStudentListed | routes/students.js:39-48 | a new student joins their creator's list and no other teacher's list, and nothing else in any list changes; that they come last is the model's own stored order, which the source does not fix |
| Students.SoftDeletePermanent | routes/students.js:9-13 | a student who was inactive at some point is absent from the list in every later state of the collection |
| Students.EvolvesTransitive | routes/students.js:66-117 | the lifecycle invariant the handlers keep composes across any number of calls: users are never removed, only their subjects and `isActive` change, and an inactive user never becomes active again |
| Students.UserCollection.Create | routes/students.js:29-63 | teacher only; DuplicateEmail with nothing changed when any user (any role, any creator, active or not) has the email; otherwise exactly one active student is appended, created by the requesting teacher, with the given subjects or []; the answer carries id, name, email and subjects but no password; unique emails stay unique |
| Students.UserCollection.UpdateSubjects | routes/students.js:66-94 | teacher only; NotFound, with nothing changed, unless a student with this id was created by the requesting teacher, active or not; otherwise that student's subjects become the given list or [], every other field and user unchanged, and the answer shows the saved subjects |
| Students.UserCollection.Remove | routes/students.js:97-117 | teacher only; the same owner-scoped lookup and NotFound as the update; on a match only that student's `isActive` becomes false and the student stays stored |
| Scenarios.MathVideoSeenByMathStudentsOnly | routes/videos.js:19-24 | an active math video is listed to a math student and not to a physics student or a student without subjects |
| Scenarios.TeacherSessionsEarliestFirst | routes/lives.js:12-17 | a teacher's sessions stored as T+1 then T-1 are listed T-1 first |

## Left out

- Students.List: states which students are listed and with what fields, but not their order or how many times each appears. Ids are unique, so each student appears once.
- Videos.List: states which videos are listed and how often, but not that they come in stored order. The unsorted `find` order is the database's natural order, which the source does not fix.
- Server wiring (CORS, body parsing, the database connection, the health check with its wall-clock timestamp, the catch-all 404 and the error handler) is plumbing and I/O.
- Authentication middleware/auth.js is not part of this model. The principal is a parameter, and `Unauthorized` (no or a bad token) is not modelled. `requireTeacher` becomes `RequireTeacher`; its HTTP status is set by that middleware and is not modelled.
- models/User.js is not part of this model. Password hashing, user-schema validation, and any email normalisation are left out: emails are compared exactly. A new student's `isActive` is taken to default to true, as the list's `isActive: true` filter implies.
- The `populate` joins that attach the uploader's or creator's name and email are a lookup into the users collection with no logic of the repository's own.
- Mongoose internals are left out: ObjectId and Date casting (a malformed id or date raises a cast error that ends in a 500), `toObject` and `select`, and storage failures that end in a 500. Only validation failures on save are modelled, as `Invalid`.
- Ids are modelled as numbers handed out in increasing order instead of generated ObjectIds.
- `timestamps: true` (createdAt/updatedAt) is left out. `scheduledAt` is an integer key. The order of sessions with equal `scheduledAt` is left unspecified.
- Response message strings and HTTP status codes are given in comments only. Each failure is a distinct `Error` value, so responses that must be indistinguishable are the same value.
- A request body whose `subjects` is a falsy non-array value is not modelled: subjects are either absent or a list.
- Requests are processed one at a time. Each handler saves at most one document, so no concurrency is modelled.
