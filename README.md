# schooldiary client logic in Dafny

A model of the client-side logic of the schooldiary web front-end, a
school diary where students see grades, absences, homework, timetable
and messages, and teachers keep a gradebook and mark attendance, all
over a hosted document store. The model covers:

- **The live binding `useFirestore`** (`live_collection.dfy`, module
  `LiveCollection`). Its three state fields are `data`, `loading` and
  `error`. Only the snapshot and error callbacks change them. The
  binding re-subscribes when its collection or its serialised
  constraints change. Its writes `add`, `update` and `remove` leave the
  local state alone.
- **The notification feed `useNotifications`** (`notifications.dfy`).
  Each snapshot replaces the entries of one type and keeps the others.
- **The teacher's attendance sheet** (`teacher_absences.dfy`). It holds
  a toggle map, builds absence records from it, and saves them one by
  one, stopping at the first failure.
- **The derived views and form checks of the pages:**
  - `teacher_gradebook.dfy`, `grades.dfy`, `homework.dfy`;
  - `absences.dfy`, `dashboard.dfy`, `class_list.dfy`;
  - `messages.dfy`, `timetable.dfy`.

Each module holds two kinds of member:

- Pure functions, pinned down by lemmas.
- Classes with the page state the handlers update in place. Their
  methods state the whole new state in terms of the pure functions.

Shared modules:

- `common.dfy`: option and result types, filtering, counting, `slice`,
  sums and means, subsequences, ASCII case folding with substring
  search, and the order in which `Object.entries` lists a plain
  object's keys.
- `documents.dfy`: field values, stored documents, query constraints
  and write requests.
- `types.dfy`: the record shapes of `src/types/index.ts`.

How the outside world enters the model:

- The store's answers enter as parameters: the `Ack` of a write, an
  `accept(i)` oracle for the `i`-th write of a loop, or a boolean.
- The current time enters as a parameter in milliseconds. ISO-8601
  time stamps, both those `add` writes and those a query compares
  against, are `Time` values, which order like the instants they denote.
- On the grade page the key order of `Object.entries` is computed
  (`Common.EntriesOrder`): array-index keys such as `1` first in
  ascending numeric order, then the other keys in the order they were
  created. On the attendance sheet the toggle map is a Dafny map with
  no creation order, so there the order enters as a parameter; the
  `IsEnumeration` predicate demands each key exactly once.
- Grade values are `real` (exact arithmetic).

Two behaviours of the hook worth knowing:

- Re-subscribing neither sets `loading` back to true nor clears `error`
  (`LiveCollection.Binding.Rerender`, `LiveCollection.ErrorIsSticky`):
  React keeps state across effect re-runs, and no callback sets `error`
  back to null.
- An error delivery leaves `data` as it was (`LiveCollection.RunData`).

## Model

| member | source | states |
|---|---|---|
| LiveCollection.ToRecord | src/hooks/useFirestore.ts:31-34 | a record has the stored fields plus `id`; the store id is used only when no stored field is called `id`, otherwise the stored one wins |
| LiveCollection.ToRecords | src/hooks/useFirestore.ts:31-35 | one record per delivered document, in delivery order |
| LiveCollection.AddPayload | src/hooks/useFirestore.ts:50-53 | the payload has the caller's keys plus `createdAt`; `createdAt` is always the current time, as a `Time` value, and every other key is the caller's |
| LiveCollection.RunData | src/hooks/useFirestore.ts:30-42 | after any deliveries, `data` is the records of the last snapshot; with no snapshot it is unchanged, so an error never touches it |
| LiveCollection.RunError | src/hooks/useFirestore.ts:24-42 | `error` is the message of the last error delivered, or its earlier value |
| LiveCollection.RunLoading | src/hooks/useFirestore.ts:23-42 | `loading` stays true until the first delivery of either kind and is false from then on |
| LiveCollection.ErrorIsSticky | src/hooks/useFirestore.ts:24-42 | the binding has an error exactly when it had one before or some delivery was an error |
| LiveCollection.Binding.constructor | src/hooks/useFirestore.ts:22-29 | the first render starts with an empty list, loading, no error and one active listener |
| LiveCollection.Binding.Rerender | src/hooks/useFirestore.ts:26-46 | a new listener is registered exactly when the name or the serialised constraints change; the state fields are kept |
| LiveCollection.Binding.Unmount | src/hooks/useFirestore.ts:45 | cleanup stops the listener and changes no state |
| LiveCollection.Binding.HandleSnapshot | src/hooks/useFirestore.ts:30-37 | the current listener's snapshot replaces `data` and clears `loading`; a stale or released listener changes nothing |
| LiveCollection.Binding.HandleError | src/hooks/useFirestore.ts:38-42 | the current listener's error sets `error` and clears `loading`, and keeps `data`; a stale listener changes nothing |
| LiveCollection.Binding.Add | src/hooks/useFirestore.ts:48-60 | it issues one add request with the stamped payload and returns the store id, or the store's failure; no state field can change |
| LiveCollection.Binding.Update | src/hooks/useFirestore.ts:62-71 | it issues one partial write of exactly the given fields and passes a failure on; no state field can change |
| LiveCollection.Binding.Remove | src/hooks/useFirestore.ts:73-82 | it issues one delete of the given id and passes a failure on; no state field can change |
| Notifications.AnnouncementCutoff | src/hooks/useNotifications.ts:24 | the cutoff is now minus 604,800,000 ms |
| Notifications.MessagesQuery | src/hooks/useNotifications.ts:15-19 | the query admits exactly the documents addressed to the user whose `read` is false |
| Notifications.AnnouncementsQuery | src/hooks/useNotifications.ts:22-25 | the query admits exactly the documents whose `createdAt` is a time stamp less than seven days before now |
| Notifications.Subscriptions | src/hooks/useNotifications.ts:11-25 | no listener without a user; otherwise two, on the user's unread messages and on the announcements of the last seven days |
| Notifications.AnnouncementWindow | src/hooks/useNotifications.ts:22-25 | an announcement is listened to exactly when it is less than seven days old; the bound is strict |
| Notifications.Tag | src/hooks/useNotifications.ts:30-34 | a tagged entry has the stored fields plus `id` and `type`; the tags apply only where no stored field overrides them |
| Notifications.TagAll | src/hooks/useNotifications.ts:30-34 | one tagged entry per document, in delivery order |
| Notifications.ReplaceTypeShape | src/hooks/useNotifications.ts:28-35 | the result is the earlier entries not of that type, in order, followed by the tagged documents; the length follows from that |
| Notifications.ReplaceTypeKeepsOtherTypes | src/hooks/useNotifications.ts:28-46 | when no delivered document carries a `type` of its own other than the snapshot's, the entries of every other type are unchanged and in order |
| Notifications.ReplaceTypeOwnEntries | src/hooks/useNotifications.ts:28-35 | after a snapshot, the entries of its type are exactly its tagged documents |
| Notifications.ReplaceTypeIdempotent | src/hooks/useNotifications.ts:28-35 | applying the same snapshot twice equals applying it once, when no document has a foreign `type` |
| Notifications.ListenersDoNotInterfere | src/hooks/useNotifications.ts:27-47 | when no delivered document carries a `type` field of its own, a message snapshot keeps every announcement entry, and an announcement snapshot keeps every message entry |
| Notifications.Feed.constructor | src/hooks/useNotifications.ts:8-25 | the feed starts empty with count 0, and listens to exactly the two queries of the user, or to none without a user |
| Notifications.Feed.SetUser | src/hooks/useNotifications.ts:11-53 | a user change replaces the listeners by the two queries of the new user, or by none, and keeps the list |
| Notifications.Feed.HandleMessages | src/hooks/useNotifications.ts:27-36 | a message snapshot replaces the message entries, and `unreadCount` stays the length of the whole list |
| Notifications.Feed.HandleAnnouncements | src/hooks/useNotifications.ts:38-47 | an announcement snapshot replaces the announcement entries, and `unreadCount` stays the length of the whole list |
| TeacherAbsences.Toggle | src/pages/TeacherAbsences.tsx:58-63 | the entry becomes present if it already had the chosen status, and that status otherwise; every other entry is unchanged |
| TeacherAbsences.ToggleTwice | src/pages/TeacherAbsences.tsx:61 | toggling present leaves the student present; toggling the same absence twice leaves the student present, or with that absence again if the student started with it |
| TeacherAbsences.FindName | src/pages/TeacherAbsences.tsx:38 | the name comes from the first roster entry with that id, and is absent when there is no such entry |
| TeacherAbsences.AbsencesFor | src/pages/TeacherAbsences.tsx:34-44 | every record is built from its student's own map entry and the session |
| TeacherAbsences.AbsencesForIds | src/pages/TeacherAbsences.tsx:34-44 | a student has a record exactly when listed and not present; records follow the key order without repeats |
| TeacherAbsences.BuildAbsencesSpec | src/pages/TeacherAbsences.tsx:34-44 | exactly one record per non-present entry and none for students without an entry; each record carries the status, the roster name, and the class, date, period and teacher |
| TeacherAbsences.FirstRejected | src/pages/TeacherAbsences.tsx:47-49 | the index of the first refused write, or the count when every write is accepted |
| TeacherAbsences.AttendanceSheet.constructor | src/pages/TeacherAbsences.tsx:16-19 | the sheet starts with no class, today's date, period 1 and an empty map |
| TeacherAbsences.AttendanceSheet.ToggleAttendance | src/pages/TeacherAbsences.tsx:58-63 | the map becomes the toggled map; the selection is kept |
| TeacherAbsences.AttendanceSheet.MarkAttendance | src/pages/TeacherAbsences.tsx:32-56 | records are written in order up to the first refusal; the map is emptied exactly when every write succeeds |
| TeacherGradebook.GradeQuery | src/pages/TeacherGradebook.tsx:33-39 | the query filters on class and subject once both are chosen, and has no constraints otherwise |
| TeacherGradebook.ValidateGrade | src/pages/TeacherGradebook.tsx:44-53 | missing input when no student or an empty field; out of range below 2 or above 6; otherwise the value, which lies in [2, 6] |
| TeacherGradebook.GradebookForm.constructor | src/pages/TeacherGradebook.tsx:17-21 | the form starts empty |
| TeacherGradebook.GradebookForm.SaveGrade | src/pages/TeacherGradebook.tsx:43-74 | a rejected input writes nothing; the record holds the student, class, subject, value, comment, date and teacher; success clears student, value and comment, and failure keeps them |
| TeacherGradebook.StudentAverageSpec | src/pages/TeacherGradebook.tsx:76-81 | the average is null exactly when the student has no grade; otherwise it is their mean, between their lowest and highest |
| TeacherGradebook.ShownGradesSpec | src/pages/TeacherGradebook.tsx:154-168 | the student's first three grades are shown, or all when there are fewer; `+n more` appears exactly beyond three grades, with n the number of grades minus 3 |
| TeacherGradebook.ClassAverageSpec | src/pages/TeacherGradebook.tsx:203 | 0 for no grades, otherwise between the lowest and the highest grade; when one student has them all, it equals that student's average |
| Grades.GradeBand | src/pages/Grades.tsx:19-23 | green exactly from 5.5, red exactly below 4, yellow between |
| Grades.GradeBandMonotone | src/pages/Grades.tsx:19-23 | a higher grade never gets a lower band |
| Grades.Subjects | src/pages/Grades.tsx:26-32 | the accumulator's keys are created for exactly the subjects that occur, each once |
| Grades.SubjectsInFirstAppearanceOrder | src/pages/Grades.tsx:26-32 | the keys are created in the order the subjects first appear: every grade of a later key comes after some grade of an earlier one |
| Common.EntriesOrderSpec | src/pages/Grades.tsx:35 | `Object.entries` lists every key once; array indices first, in ascending numeric order; the others in creation order; with no array index, the creation order itself |
| Grades.KeysSpec | src/pages/Grades.tsx:26-35 | the subjects are listed once each; array-index subjects first, ascending; the others in the order of their first grade |
| Grades.IndexSubjectListedFirst | src/pages/Grades.tsx:26-35 | with grades of `b` then `1`, the keys are created as `b`, `1` but listed as `1`, `b` |
| Grades.SubjectsOfOneSubject | src/pages/Grades.tsx:26-32 | grades of one subject give exactly one key |
| Grades.KeysOfOneSubject | src/pages/Grades.tsx:26-35 | grades of one subject give exactly one entry |
| Grades.GroupsPartition | src/pages/Grades.tsx:26-32 | every grade is in the group of its subject and in no other; each group keeps the original order |
| Grades.SubjectsHaveGrades | src/pages/Grades.tsx:26-32 | no group is empty |
| Grades.GroupBySubject | src/pages/Grades.tsx:26-32 | the accumulator loop creates the keys in first-occurrence order, so `Object.entries` lists them in `Keys` order, and holds each subject's grades in order |
| Grades.InheritedSubjectBreaksGrouping | src/pages/Grades.tsx:27-30 | a grade of subject `constructor` makes the reduce as written throw, while the corrected grouping gives it its own group |
| Grades.CountsSumToTotal | src/pages/Grades.tsx:35-38 | the group sizes of any list of distinct subjects that covers every grade add up to the number of grades |
| Grades.AveragesFor | src/pages/Grades.tsx:35-38 | one entry per subject, with the mean and the size of its group |
| Grades.SubjectAveragesSpec | src/pages/Grades.tsx:35-38 | entries follow the `Object.entries` order of `Keys`; each count is its group's size, and each average lies between the group's minimum and maximum |
| Grades.SubjectCountsSumToTotal | src/pages/Grades.tsx:35-38 | the per-subject counts add up to the number of grades |
| Grades.OverallAverageBounds | src/pages/Grades.tsx:40 | the overall average is 0 for no grades, and otherwise between the lowest and the highest grade |
| Grades.FilteredSubjectsSpec | src/pages/Grades.tsx:43-45 | exactly the subjects containing the term, ignoring case, every copy of each, in order; an empty term keeps all |
| Homework.TrimStart | src/pages/Homework.tsx:54 | the result is a suffix; every character removed is white space and the result does not start with white space; it is empty exactly for white space only |
| Homework.TrimEnd | src/pages/Homework.tsx:54 | the result is a prefix; every character removed is white space and the result does not end with white space; it is empty exactly for white space only |
| Homework.TrimEmptyIffBlank | src/pages/Homework.tsx:54 | the trimmed text is empty exactly when every character is white space |
| Homework.MarkSubmitted | src/pages/Homework.tsx:69-75 | same length and order; assignments with the id become submitted with the text, and the rest are unchanged |
| Homework.MarkSubmittedSpec | src/pages/Homework.tsx:69-75 | only matching assignments change, and only in status and text; an id that is not listed leaves the list unchanged |
| Homework.PendingAfterSubmit | src/pages/Homework.tsx:69-90 | the pending count drops by the number of pending assignments with that id |
| Homework.SubmitPendingLowersByOne | src/pages/Homework.tsx:69-90 | with unique ids, submitting a pending assignment lowers the pending count by exactly one |
| Homework.HomeworkPage.constructor | src/pages/Homework.tsx:22-25 | the page starts with the given list, no search, no selection and no text |
| Homework.HomeworkPage.SubmitAssignment | src/pages/Homework.tsx:53-83 | a blank text changes nothing; otherwise the assignment is marked submitted and the selection and text are reset |
| Homework.FilteredAssignmentsSpec | src/pages/Homework.tsx:85-88 | exactly the assignments whose subject or title contains the term, ignoring case, every copy of each, in order; an empty term keeps all |
| Absences.AbsenceStatsSpec | src/pages/Absences.tsx:19-21 | total is the list length; the excused and unexcused figures are how often each status occurs among the absences' statuses, and they add up to the total |
| Absences.FilteredAbsencesSpec | src/pages/Absences.tsx:23-26 | exactly the absences whose subject (empty when the record has none) or status contains the term, ignoring case, every copy of each, as a subsequence; an empty term keeps all |
| Absences.AsWrittenFailsOnMissingSubject | src/pages/Absences.tsx:23-26 | the page's own search throws exactly when some absence has no subject, and otherwise agrees with the corrected search |
| Absences.RecordedAbsenceBreaksSearch | src/pages/Absences.tsx:23-26 | an absence without a subject, as the attendance sheet writes it, makes the page's search throw even for the empty term, while the corrected search lists it |
| Absences.ExcusedTermMatchesBoth | src/pages/Absences.tsx:23-26 | the term `excused` keeps every absence, since it occurs inside `unexcused` |
| Dashboard.StudentQuery | src/pages/Dashboard.tsx:53-61 | the grade and absence queries filter by the user's id, and have no constraints without a user |
| Dashboard.OverallAverageSpec | src/pages/Dashboard.tsx:73-77 | no average exactly when there are no grades, otherwise one between the lowest and the highest |
| Dashboard.AgreesWithGradesPageForOneSubject | src/pages/Dashboard.tsx:73-77 | for grades of one subject, the dashboard's mean equals the grade page's mean of subject means |
| Dashboard.UnexcusedAbsencesSpec | src/pages/Dashboard.tsx:79 | the figure is the absence page's unexcused count; with the excused count it adds up to the total, and it is 0 exactly when every absence is excused |
| Dashboard.UpcomingHomeworkSpec | src/pages/Dashboard.tsx:81-82 | exactly the homework due now or later, inclusive, every copy of each, in list order |
| Dashboard.ListedDeadlinesSpec | src/pages/Dashboard.tsx:191 | at most five are listed, the first upcoming ones |
| Dashboard.InsertByDateBounded | src/pages/Dashboard.tsx:84-85 | insertion keeps an upper bound on the times |
| Dashboard.InsertByDateOrdered | src/pages/Dashboard.tsx:84-85 | insertion keeps the list newest first |
| Dashboard.InsertByDatePermutes | src/pages/Dashboard.tsx:84-85 | insertion adds exactly the new element |
| Dashboard.SortByNewestSpec | src/pages/Dashboard.tsx:84-85 | the sorted copy is newest first and a permutation of the input |
| Dashboard.RecentAnnouncementsSpec | src/pages/Dashboard.tsx:84-86 | at most three, three when available, newest first, taken from the input; none it leaves out is newer than one it shows |
| Dashboard.LoadingUntilAllDelivered | src/pages/Dashboard.tsx:88 | the page is loading exactly while some of the four bindings has had no delivery |
| ClassList.FilteredStudentsSpec | src/pages/ClassList.tsx:28-32 | exactly the students of the selected class (any class when none is selected) whose name or e-mail contains the term, every copy of each, in order; with no class and no term, all |
| ClassList.GradeColorSpec | src/pages/ClassList.tsx:34-39 | gray exactly for a missing or zero average; otherwise green from 5.5, red below 4, yellow between |
| ClassList.AbsenceDisplaySpec | src/pages/ClassList.tsx:113-118 | a missing count shows as 0; the count is highlighted exactly when the shown number is above 3 |
| Messages.MailboxQuery | src/pages/Messages.tsx:20-34 | the inbox and outbox queries filter on the user's uid, newest first, and have no constraints exactly when no user is signed in |
| Messages.EmailPrefix | src/pages/Messages.tsx:47 | the prefix ends at the first `@`, or at the end of the address |
| Messages.SenderNameSpec | src/pages/Messages.tsx:47 | the name is the address before `@` when that is non-empty, and `User` without a user or an address, for an empty address, and for one that starts with `@` |
| Messages.Outgoing | src/pages/Messages.tsx:45-55 | the message is unread, from the user's uid and role, to the chosen recipient with name `Teacher` and role teacher, with the form's subject and content |
| Messages.MessagesPage.constructor | src/pages/Messages.tsx:13-18 | the page starts on the inbox with an empty form |
| Messages.MessagesPage.SendMessage | src/pages/Messages.tsx:38-63 | with an empty subject, content or recipient nothing is written or changed; success switches to the outbox and empties the form, and failure keeps everything |
| Messages.MessagesPage.MarkAsRead | src/pages/Messages.tsx:65-68 | no write is issued and no field changes |
| Messages.UnreadBadgeSpec | src/pages/Messages.tsx:101-104 | the badge is shown exactly for a non-empty inbox, and its number is how often `read` is false among the inbox messages, at most the inbox size |
| Timetable.SlotFor | src/pages/Timetable.tsx:26-28 | the first slot with that day and period, and nothing exactly when none has them |
| Timetable.Grid | src/pages/Timetable.tsx:55-61 | one row per period and one cell per weekday, each cell being the lookup for its day and period |
| Timetable.GridSpec | src/pages/Timetable.tsx:6-61 | 8 rows of 5 cells; a cell holds at most one slot, of its own day and period, and is empty exactly when no slot has them |

## Left out

- The store itself. `onSnapshot`, `addDoc`, `updateDoc`, `deleteDoc` and `getDocs` cannot be seen, so query evaluation, delivery timing and consistency between clients are out. Deliveries and write outcomes are inputs.
- Toasts, rendering, routing, navigation, loading skeletons and empty states: these are user-interface effects only.
- The connectivity test component and the debug helpers: they do I/O and read the environment.
- `TeacherHomework`: its write is commented out, and its field checks belong to a form library that is not part of this model.
- The mock rosters and seed data: these are constants.
- `parseFloat`, NaN and IEEE rounding: grade values are exact reals, and the gradebook receives the value already parsed. A non-numeric field parses to NaN, which passes the range check in the source; this model does not represent NaN.
- `toFixed(2)`: the averages are exact and are not rounded for display.
- Date parsing and `toLocaleDateString`: deadlines and creation times are integer milliseconds, and ISO time stamps are `Time` values of those milliseconds.
- TeacherAbsences.BuildAbsences: the key order of `Object.entries(attendance)` is a parameter, because the map has no creation order; array-index student ids would be listed first in the source.
- Dashboard.SortByNewest: stable like `Array.prototype.sort`, but only the ordering and the permutation are proved, not stability.
- The rejection of `undefined` field values: a `teacherId` or `fromId` without a signed-in user, and a `studentName` for an id that is not in the roster. This happens in the store; the model carries these values as `None`.
- Notifications.Feed.HandleMessages and HandleAnnouncements: the source sets `unreadCount` in a second effect, one render after the list changes; the model updates both in the same step, so `Valid()` holds after every handler.
- Concurrency between an in-flight write and a new snapshot or render: the handlers are modelled as atomic steps.
- Grades.FilteredSubjectsSpec, Homework.FilteredAssignmentsSpec, Absences.FilteredAbsencesSpec, ClassList.FilteredStudentsSpec: "ignoring case" means ASCII letters only; `toLowerCase` folds every Unicode letter, so a search such as `Ä` against `ä` matches in the source but not in the model.

## Findings

| source | as written | input that shows it | evidently intended | confidence | as-written member | corrected member |
|---|---|---|---|---|---|---|
| src/pages/Grades.tsx:27-30 | `if (!acc[grade.subject])` over a plain `{}` treats inherited `Object.prototype` members as existing groups, so `acc[grade.subject].push(grade)` throws | one grade whose subject is `constructor` (likewise `toString`, `valueOf`, `__proto__`, …) | every subject gets its own group | not executed; only matters when a subject name collides with an inherited key | Grades.GroupAsWritten | Grades.GroupBySubject |
| src/pages/Absences.tsx:23-26 | `absence.subject.toLowerCase()` is called for every absence, but the attendance sheet (src/pages/TeacherAbsences.tsx:34-44), the only writer of absences, stores them without `subject`, so the call throws | one absence recorded by the attendance sheet, any search term | every absence is listed and searchable, a missing subject counting as empty | not executed; the student's absence page then fails while rendering | Absences.FilteredAbsencesAsWritten | Absences.FilteredAbsences |
