# Course enrollment engine — a Dafny model

This project models the in-memory core of a course registration system
(`app/models`). It covers:

- **Courses.** Each course has a seat counter that `enroll_student` and
  `drop_student` update, prerequisites, and a weekly schedule (days plus an
  `"HH:MM-HH:MM"` time and a room).
- **Course catalog.** A table keyed by course id. It supports soft delete,
  filters by activity, instructor and credits, and a pairwise scan for
  schedule conflicts.
- **Registrations.** A student's registration in a course moves between the
  statuses ENROLLED, DROPPED, WAITLISTED and PENDING. It carries a grade and
  notes.
- **Registration book.** The registrations in insertion order. It supports
  create (with a duplicate-active guard), drop, status update, list queries,
  statistics and age-based cleanup of dropped records.
- **Users.** Students keep a duplicate-free list of enrolled courses and are
  limited to 18 credits per semester. Administrators get permissions by
  level. A factory builds users from a type name or from a stored record.

Modules, one file each:

| file | module | models |
|---|---|---|
| `wrappers.dfy` | `Wrappers` | `Option` with the `:-` failure propagation |
| `text.dfy` | `Text` | digit strings, `split`/`join` on one separator, ASCII `lower()` |
| `records.dfy` | `Records` | the dictionaries `to_dict`/`from_dict` exchange: `data[key]` and `data.get(key, default)` |
| `sequences.dfy` | `Sequences` | "in order, some left out" for filter results |
| `schedules.dfy` | `Schedules` | `Schedule`, the time parser, `_time_overlaps`, `conflicts_with` |
| `courses.dfy` | `Courses` | `Course`: seats, prerequisites, `set_schedule`, records |
| `course_catalog.dfy` | `CourseCatalog` | `CourseManager` |
| `registrations.dfy` | `Registrations` | `RegistrationStatus`, `Registration` |
| `registration_book.dfy` | `RegistrationBook` | `RegistrationManager` |
| `users.dfy` | `Users` | `Student`, `Administrator`, `UserFactory` |

How the model is built:

- **Objects that change become classes.** `Course`, `Registration` and
  `Student` are classes, and their identifying fields are `const`. Each class
  has a `Data()` value. Each method is specified by a transition function on
  that value, for example `(ok, Data()) == AfterEnroll(old(Data()), now)`,
  and the lemmas are stated about those functions.
- **Managers hold sequences.** The two managers keep their objects in a
  sequence in insertion order, which mirrors a Python dict. The ids in the
  sequence are distinct.
- **Time, ids and hashes are parameters.**
  - Timestamps are integers counting seconds, and "now" is passed in.
  - Generated ids (the uuid-based registration ids and `STU…` student ids)
    are passed in.
  - The bcrypt password hash is an opaque string.
- **Failures become `None`.** Where the source raises (a malformed time, a
  missing required key, an unknown status or role), the model returns
  `None`.

Two points where a reader might expect more than the code does:

- **Duplicate guard.** `create_registration` (app/models/registration.py:121-130)
  refuses a create only when the FIRST stored record for the (student, course)
  pair is active (the lookup at lines 136-142 returns the first match, whatever
  its status). After create → drop → create, that first record is the dropped
  one. A further create therefore succeeds, leaving two ENROLLED records that
  `drop_registration` cannot reach.
  `RegistrationBook.ReCreateAfterDropAllowsDuplicates` proves exactly this.
  No global one-active-per-pair invariant is claimed.
- **Course catalog.** `create_registration` does not look the course up in
  the catalog, and neither does the model.

## Model

| member | source | states |
|---|---|---|
| Schedules.SharesDay | app/models/course.py:108-111 | true exactly when some day is named in both day lists (the set intersection is non-empty) |
| Schedules.SlotsOverlapIffCommonMinute | app/models/course.py:136-138 | the half-open test: slots with a common minute overlap, and two non-empty slots that overlap have a common minute |
| Schedules.ConflictsWithSymmetric | app/models/course.py:105-138 | `a` conflicts with `b` exactly when `b` conflicts with `a`, including when a time is malformed |
| Schedules.ConflictsWithIgnoresRoom | app/models/course.py:105-116 | changing the room of either schedule never changes the answer |
| Schedules.NoCommonDayNoConflict | app/models/course.py:108-111 | two schedules with no day in common never conflict, whatever their time texts |
| Schedules.NoDaysNoConflict | app/models/course.py:108-111 | a schedule without days conflicts with nothing, whatever its time text |
| Schedules.CommonDayConflictIsOverlap | app/models/course.py:105-138 | on a common day with both times well formed, the answer is exactly whether the parsed slots overlap |
| Schedules.ConflictsWithItself | app/models/course.py:105-138 | a schedule meeting on some day in a non-empty slot conflicts with itself |
| Schedules.ParseClock | app/models/course.py:128-130 | `time_to_minutes`: "H:M" as `h*60+m`; see ParseFormatClock |
| Schedules.ParseSlot | app/models/course.py:120-126 | `parse_time`: exactly one '-' with a clock on each side; see ParseFormatSlot and TimeWithoutDashRejected |
| Schedules.TimeOverlaps | app/models/course.py:118-138 | `_time_overlaps`: the half-open test on the parsed slots, None on a malformed time; see SlotsOverlapIffCommonMinute |
| Schedules.ConflictsWith | app/models/course.py:105-116 | `conflicts_with`: no schedule or no common day gives false, otherwise the time overlap; see ConflictsWithSymmetric, NoCommonDayNoConflict, CommonDayConflictIsOverlap |
| Schedules.ToDict | app/models/course.py:13-18 | `Schedule.to_dict`; see Schedules.DictRoundTrip |
| Schedules.FromDict | app/models/course.py:20-26 | `Schedule.from_dict`; see Schedules.DictRoundTrip |
| Schedules.ParseFormatClock | app/models/course.py:128-130 | every minute of the day written as zero-padded "HH:MM" parses back to `h*60+m` |
| Schedules.ParseFormatSlot | app/models/course.py:118-130 | every slot written as "HH:MM-HH:MM" parses back to the same start and end |
| Schedules.TouchingSlotsDoNotConflict | app/models/course.py:105-138 | on a shared day, 10:00-11:30 and 11:30-13:00 do not conflict |
| Schedules.OverlappingSlotsConflict | app/models/course.py:105-138 | on a shared day, 10:00-11:30 and 11:00-12:00 conflict, whatever the rooms |
| Schedules.TimeWithoutDashRejected | app/models/course.py:120-122 | a time without '-' cannot be unpacked into start and end, so it is rejected |
| Schedules.DictRoundTrip | app/models/course.py:13-26 | `Schedule.from_dict(to_dict(s))` gives back `s` |
| Courses.CourseData.AvailableSeats | app/models/course.py:63-65 | the seats left are never negative; see AvailableSeatsTrackEnrolment |
| Courses.AvailableSeatsTrackEnrolment | app/models/course.py:63-89 | no seats left exactly when the course is full; with a consistent counter, taken plus left is the capacity; a successful enroll uses one seat and a successful drop gives one back |
| Courses.NewCourse | app/models/course.py:35-48 | the constructor's course; see Course.constructor and NewCourseKeepsSeatsConsistent |
| Courses.AfterEnroll | app/models/course.py:75-81 | `enroll_student`'s answer and new state; see EnrollTakesOneSeat |
| Courses.AfterDrop | app/models/course.py:83-89 | `drop_student`'s answer and new state; see DropFreesOneSeat |
| Courses.ToDict | app/models/course.py:146-162 | `Course.to_dict`; see Courses.DictRoundTrip |
| Courses.FromDict | app/models/course.py:164-184 | `Course.from_dict` with its defaults; see Courses.DictRoundTrip |
| Courses.AllCompleted | app/models/course.py:99-103 | true exactly when every prerequisite appears among the completed courses (vacuously for none) |
| Courses.PrerequisitesMonotone | app/models/course.py:99-103 | completing more courses never turns a passed prerequisite check into a failed one |
| Courses.EnrollTakesOneSeat | app/models/course.py:67-81 | enroll succeeds exactly when active and `enrolled < capacity`, then adds exactly one seat; otherwise nothing changes |
| Courses.DropFreesOneSeat | app/models/course.py:83-89 | drop succeeds exactly when `enrolled > 0`, then frees exactly one seat; otherwise nothing changes; a non-negative counter stays non-negative |
| Courses.EnrollThenDropRestoresSeats | app/models/course.py:75-89 | a successful enroll followed by a drop restores the course except for its update time |
| Courses.RunKeepsSeatsConsistent | app/models/course.py:75-89 | any sequence of enrolls and drops keeps `0 <= enrolled <= capacity` and changes nothing but the counter and the update time |
| Courses.NewCourseKeepsSeatsConsistent | app/models/course.py:35-89 | every course the constructor builds, whatever its arguments, with a non-negative capacity keeps the seat invariant under every sequence of enrolls and drops |
| Courses.CapacityOneScenario | app/models/course.py:67-89 | with capacity 1: enroll succeeds, a second enroll fails, a drop frees the seat |
| Courses.Course.constructor | app/models/course.py:35-48 | a new course has no seats taken, no schedule, is active, and was created and updated now |
| Courses.Course.SetSchedule | app/models/course.py:50-53 | replaces the schedule and the update time, nothing else |
| Courses.Course.EnrollStudent | app/models/course.py:75-81 | follows `AfterEnroll`; succeeds exactly when active and not full; preserves the seat invariant |
| Courses.Course.DropStudent | app/models/course.py:83-89 | follows `AfterDrop`; succeeds exactly when a seat is taken; preserves the seat invariant |
| Courses.DictRoundTrip | app/models/course.py:146-184 | `Course.from_dict(to_dict(c))` reproduces every field, the schedule included |
| CourseCatalog.Select | app/models/course.py:225-261 | a filter result holds exactly the matching courses of the table, in table order |
| CourseCatalog.Find | app/models/course.py:217-219 | finds a course with the given id, or reports that none has it |
| CourseCatalog.CourseManager.constructor | app/models/course.py:206-208 | the table starts empty |
| CourseCatalog.CourseManager.GetCourse | app/models/course.py:217-219 | returns the stored course with the id, or None when no course has it |
| CourseCatalog.CourseManager.AddCourse | app/models/course.py:210-215 | stores the course exactly when its id is not taken; a taken id leaves the table unchanged |
| CourseCatalog.CourseManager.ActiveCourses | app/models/course.py:225-227 | exactly the active courses, in table order |
| CourseCatalog.CourseManager.DeleteCourse | app/models/course.py:240-247 | soft delete: the course stays, marked inactive and updated now; every other course is unchanged; unknown ids answer false |
| CourseCatalog.CourseManager.FindByInstructor | app/models/course.py:249-252 | exactly the courses whose instructor equals the name after lower-casing, in table order |
| CourseCatalog.CourseManager.FindByCredits | app/models/course.py:254-261 | exactly the courses with `min <= credits` and, when a maximum is given, `credits <= max`, in table order |
| CourseCatalog.CourseManager.ResolveSpec | app/models/course.py:266 | the resolved courses are exactly the stored courses whose ids are listed; unknown ids are skipped, so there are never more courses than ids |
| CourseCatalog.CourseManager.ResolveFollowsIds | app/models/course.py:266 | the resolved courses' ids are a subsequence of the student's ids (their order is kept), and each stored id occurs as often as it is listed while unknown ids never occur |
| CourseCatalog.CourseManager.ResolveDistinct | app/models/course.py:266 | distinct listed ids resolve to courses with distinct ids |
| CourseCatalog.CourseManager.ScanOfDistinctIdsInOrder | app/models/course.py:263-277 | for a student's distinct ids, the scan's reports come in nested-loop order and none repeats |
| CourseCatalog.CourseManager.GetCoursesWithConflicts | app/models/course.py:263-277 | the nested loops compute `ScanConflicts` of the resolved courses; for distinct ids, the reports come in nested-loop order with none repeated |
| CourseCatalog.ConflictsWithLater | app/models/course.py:269-275 | the inner loop computes `Row` of the current course against the later ones: its conflicting pairs in order, or failure at the first malformed time |
| CourseCatalog.RowSpec | app/models/course.py:269-275 | one round of the inner loop reports exactly the later courses that conflict with the current one |
| CourseCatalog.RowsSpec | app/models/course.py:268-275 | the first `n` outer rounds report exactly the conflicting pairs `i < j` with `i < n` |
| CourseCatalog.Resolve | app/models/course.py:266 | the list comprehension over the student's ids; see ResolveSpec and ResolveFollowsIds |
| CourseCatalog.Row | app/models/course.py:269-275 | the inner loop as a function; see RowSpec |
| CourseCatalog.Rows | app/models/course.py:268-275 | the first rounds of the outer loop; see RowsSpec |
| CourseCatalog.ScanConflicts | app/models/course.py:263-277 | the whole scan; see ScanConflictsSpec and ScanConflictsInOrder |
| CourseCatalog.ScanConflictsInOrder | app/models/course.py:268-275 | with distinct ids, the pairs come in the order of the nested loops (by the first course's position, then the second's), so no pair is reported twice |
| CourseCatalog.RowIsRowOf | app/models/course.py:269-275 | the inner loop gives the same answer as first making every comparison and then folding their outcomes in order |
| CourseCatalog.RowInOrder | app/models/course.py:269-275 | with distinct ids, round `k` reports only pairs whose first course is course `k` and whose second lies after it, in list order |
| CourseCatalog.RowsInOrder | app/models/course.py:268-275 | with distinct ids, the first `n` rounds report only first courses before `n`, in the order of the nested loops |
| CourseCatalog.RepeatedIdReportedBothWays | app/models/course.py:266-275 | a list naming one course twice, all on one slot, reports a-b, a-a and b-a: uniqueness needs distinct ids |
| CourseCatalog.ScanConflictsSpec | app/models/course.py:263-277 | the scan fails exactly when some pair `i < j` has a malformed time; otherwise it reports exactly the pairs `i < j` that conflict, first id first (their order and uniqueness: ScanConflictsInOrder) |
| CourseCatalog.ScanConflictsReportsEachPairOnce | app/models/course.py:268-275 | with distinct ids, a pair reported as A-B is never also reported as B-A |
| Registrations.StatusEncoding | app/models/registration.py:6-11 | the four statuses and their stored strings are in one-to-one correspondence |
| Registrations.DropCourseSpec | app/models/registration.py:30-36 | drop succeeds exactly from ENROLLED, then sets DROPPED and the drop date; otherwise nothing changes |
| Registrations.ReEnrollSpec | app/models/registration.py:38-44 | re-enroll succeeds exactly from DROPPED, then sets ENROLLED and clears the drop date; otherwise nothing changes |
| Registrations.DropThenReEnroll | app/models/registration.py:30-44 | drop then re-enroll leaves an enrolled registration ENROLLED with no drop date |
| Registrations.ReservedStatusesAreInert | app/models/registration.py:30-44 | WAITLISTED and PENDING records are refused by both transitions and unchanged |
| Registrations.SideChannelsKeepStatus | app/models/registration.py:46-59 | grades and notes never change the status or the ids; notes only grow, and on empty notes the note is the whole text |
| Registrations.NotesJoinedWithSemicolon | app/models/registration.py:54-59 | two notes added to empty notes read "first; second" |
| Registrations.Registration.constructor | app/models/registration.py:20-28 | a new registration is ENROLLED now, with no drop date, no grade and empty notes |
| Registrations.Registration.DropCourse | app/models/registration.py:30-36 | follows `AfterDropCourse` |
| Registrations.Registration.ReEnroll | app/models/registration.py:38-44 | follows `AfterReEnroll` |
| Registrations.Registration.SetGrade | app/models/registration.py:46-48 | sets the grade, nothing else |
| Registrations.Registration.AddNote | app/models/registration.py:54-59 | appends the note with "; " when notes exist, else sets it |
| Registrations.NewRegistration | app/models/registration.py:20-28 | the constructor's registration; see Registration.constructor |
| Registrations.AfterDropCourse | app/models/registration.py:30-36 | `drop_course`'s answer and new state; see DropCourseSpec |
| Registrations.AfterReEnroll | app/models/registration.py:38-44 | `re_enroll`'s answer and new state; see ReEnrollSpec |
| Registrations.WithGrade | app/models/registration.py:46-48 | `set_grade`; see SideChannelsKeepStatus |
| Registrations.WithNote | app/models/registration.py:54-59 | `add_note`; see SideChannelsKeepStatus and NotesJoinedWithSemicolon |
| Registrations.ToDict | app/models/registration.py:69-81 | `Registration.to_dict`; see Registrations.DictRoundTrip |
| Registrations.FromDict | app/models/registration.py:83-95 | `Registration.from_dict` with its defaults; see Registrations.DictRoundTrip and EmptyIdReplaced |
| Registrations.DictRoundTrip | app/models/registration.py:69-95 | `from_dict(to_dict(r))` reproduces every field of a registration with a non-empty id |
| Registrations.EmptyIdReplaced | app/models/registration.py:83-95 | an empty id is falsy, so a fresh id replaces it and every other field survives |
| RegistrationBook.FirstFor | app/models/registration.py:136-142 | the index of the first record for the pair, whatever its status, or None when there is none |
| RegistrationBook.AfterCreate | app/models/registration.py:121-130 | `create_registration` on the book's values; see SecondCreateRefused and CreateRegistration |
| RegistrationBook.AfterDropFor | app/models/registration.py:164-169 | `drop_registration` on the book's values; see DropForChangesOneRecord |
| RegistrationBook.AfterStatusUpdate | app/models/registration.py:171-179 | `update_registration_status` on the book's values; see UpdateRegistrationStatus |
| RegistrationBook.CountStatus | app/models/registration.py:184-185 | the length of a status filter; see CountStatusIsMultiplicity |
| RegistrationBook.CountStatusIsMultiplicity | app/models/registration.py:184-185 | the count of a status is the number of times it occurs among the records' statuses |
| RegistrationBook.ActiveOfCourseCount | app/models/registration.py:211-214 | the ENROLLED records among a course's records are as many as its active-registrations query returns |
| RegistrationBook.SecondCreateRefused | app/models/registration.py:121-142 | on a pair with no record, a create succeeds and an immediate second create is refused |
| RegistrationBook.ReCreateAfterDropAllowsDuplicates | app/models/registration.py:121-169 | create, drop, create, create on one pair: all succeed, leaving two ENROLLED records, and a further drop answers false |
| RegistrationBook.DropForChangesOneRecord | app/models/registration.py:164-169 | a drop succeeds exactly when the pair's first record is ENROLLED; it changes only that record's status and drop date |
| RegistrationBook.StatusCountsDisjoint | app/models/registration.py:181-192 | ENROLLED count plus DROPPED count never exceeds the total |
| RegistrationBook.StatisticsOf | app/models/registration.py:181-192 | total is the record count; active and dropped are the numbers of ENROLLED and DROPPED records (multiplicities among the statuses); `active + dropped <= total`; there is no rate exactly when there are no records; otherwise the rate is active over total |
| RegistrationBook.SummaryOf | app/models/registration.py:211-223 | the same for one course's records, active and dropped being their ENROLLED and DROPPED counts: `active + dropped <= total`, no rate exactly for no records, otherwise active over total |
| RegistrationBook.KeepFresh | app/models/registration.py:225-242 | the records cleanup keeps; see KeepFreshSpec |
| RegistrationBook.StaleIds | app/models/registration.py:229-235 | the first cleanup pass; see StaleIdsSpec, StaleIdsCount and StaleIdsDistinct |
| RegistrationBook.KeepFreshSpec | app/models/registration.py:225-242 | a record is kept exactly when it is not DROPPED with a drop date strictly before the cutoff; the kept records keep their order |
| RegistrationBook.CleanupKeepsOtherStatuses | app/models/registration.py:230-235 | a record that is not DROPPED is kept, however old |
| RegistrationBook.StaleIdsSpec | app/models/registration.py:229-235 | the first pass collects the id of every stale record and only those |
| RegistrationBook.StaleIdsCount | app/models/registration.py:225-242 | the collected ids and the kept records together account for every record |
| RegistrationBook.StaleIdsDistinct | app/models/registration.py:229-235 | with distinct record ids, the collected ids are distinct |
| RegistrationBook.WithoutIdsSpec | app/models/registration.py:237-239 | deleting a set of ids keeps exactly the objects whose id is not among them, and keeps ids distinct |
| RegistrationBook.WithoutStaleIsKeepFresh | app/models/registration.py:225-242 | when the deleted ids are exactly the stale records' ids, the records left are `KeepFresh` of the old ones |
| RegistrationBook.RemovalStep | app/models/registration.py:237-239 | each id the second pass deletes is still present, so `del` never fails |
| RegistrationBook.CleanupOutcome | app/models/registration.py:225-242 | after both passes exactly the kept records remain, and the count equals the number removed |
| RegistrationBook.Pick | app/models/registration.py:144-162 | a list query holds exactly the matching records, in insertion order |
| RegistrationBook.RegistrationManager.constructor | app/models/registration.py:117-119 | the book starts empty |
| RegistrationBook.RegistrationManager.GetRegistration | app/models/registration.py:132-134 | the record with the id, or None when no record has it |
| RegistrationBook.RegistrationManager.GetByStudentAndCourse | app/models/registration.py:136-142 | the first record for the pair, whatever its status; None when the pair has no record |
| RegistrationBook.RegistrationManager.CreateRegistration | app/models/registration.py:121-130 | refused exactly when the pair's first record is ENROLLED, storing nothing; otherwise appends one fresh ENROLLED record |
| RegistrationBook.RegistrationManager.DropRegistration | app/models/registration.py:164-169 | follows `AfterDropFor` on the book's values |
| RegistrationBook.RegistrationManager.UpdateRegistrationStatus | app/models/registration.py:171-179 | sets any status on the record with the id and stamps the drop date for DROPPED; an unknown id answers false |
| RegistrationBook.RegistrationManager.StudentRegistrations | app/models/registration.py:144-147 | exactly the student's records, in insertion order |
| RegistrationBook.RegistrationManager.CourseRegistrations | app/models/registration.py:149-152 | exactly the course's records, in insertion order |
| RegistrationBook.RegistrationManager.ActiveStudentRegistrations | app/models/registration.py:154-157 | exactly the student's ENROLLED records, in insertion order |
| RegistrationBook.RegistrationManager.ActiveCourseRegistrations | app/models/registration.py:159-162 | exactly the course's ENROLLED records, in insertion order |
| RegistrationBook.RegistrationManager.GetStatistics | app/models/registration.py:181-192 | total is the number of records; active and dropped are the numbers of ENROLLED and DROPPED records; the rate is active over total, and there is none exactly when the book is empty |
| RegistrationBook.RegistrationManager.GetCourseEnrollmentSummary | app/models/registration.py:211-223 | total is the number of the course's records; active is the size of its active-registrations query and dropped the number of its DROPPED records; the rate is active over total, and there is none exactly when the course has no records |
| RegistrationBook.RegistrationManager.CleanupOldRegistrations | app/models/registration.py:225-242 | the remaining records are exactly `KeepFresh` of the old ones at `now - days_old` days; the result is the number removed; ids stay distinct |
| RegistrationBook.RegistrationManager.CollectStaleIds | app/models/registration.py:229-235 | the first pass collects `StaleIds` of the book's values and changes nothing |
| RegistrationBook.RegistrationManager.DeleteIds | app/models/registration.py:237-240 | the second pass deletes every collected id and counts exactly one per id |
| Users.RemoveFirst | app/models/user.py:90-95 | `list.remove`; see RemoveFirstSpec |
| Users.AfterEnrollIn | app/models/user.py:83-88 | `enroll_in_course`'s answer and new list; see EnrollInSpec |
| Users.AfterDropId | app/models/user.py:90-95 | `drop_course`'s answer and new list; see DropIdSpec |
| Users.NewStudent | app/models/user.py:74-81 | the constructor's student; see Student.constructor |
| Users.NewAdmin | app/models/user.py:150-155 | the constructor's administrator; see AdminAbilities |
| Users.StudentToDict | app/models/user.py:120-131 | `Student.to_dict`; see StudentDictRoundTrip |
| Users.StudentFromDict | app/models/user.py:133-141 | `Student.from_dict` with its defaults; see StudentDictRoundTrip |
| Users.AdminToDict | app/models/user.py:194-203 | `Administrator.to_dict`; see AdminDictRoundTrip |
| Users.AdminFromDict | app/models/user.py:205-211 | `Administrator.from_dict`, which reads permissions back; see AdminDictRoundTrip and StoredPermissionsWin |
| Users.RemoveFirstSpec | app/models/user.py:90-95 | `list.remove` takes away exactly one occurrence of a present element and leaves an absent one's list unchanged |
| Users.EnrollInSpec | app/models/user.py:83-88 | enroll succeeds exactly for an absent id, appends it, and keeps the list duplicate-free |
| Users.DropIdSpec | app/models/user.py:90-95 | drop succeeds exactly for a present id; it removes one occurrence and keeps the others; an absent id leaves the list unchanged |
| Users.RemoveAppended | app/models/user.py:90-95 | removing an element appended to a list that lacked it gives the list back |
| Users.EnrollThenDropRestores | app/models/user.py:83-95 | enrolling in a new course and then dropping it restores the original list |
| Users.CanEnrollInCourse | app/models/user.py:105-108 | `can_enroll_in_course`; see CanEnrollUpToRemaining and CanEnrollMonotone |
| Users.CanEnrollUpToRemaining | app/models/user.py:105-108 | for a student within the limit, a course of exactly the remaining credits is accepted and one credit more is refused; a full student is refused any course with credits |
| Users.CanEnrollMonotone | app/models/user.py:105-108 | a student who can take a course can take any course with fewer credits |
| Users.Student.constructor | app/models/user.py:74-81 | a new student has the given or a generated id, the major or "Undecided", and no courses or credits |
| Users.Student.EnrollInCourse | app/models/user.py:83-88 | follows `AfterEnrollIn`; keeps the list duplicate-free |
| Users.Student.DropCourse | app/models/user.py:90-95 | follows `AfterDropId` |
| Users.PermissionsFor | app/models/user.py:157-166 | starts with view_reports and manage_courses; manage_users exactly for "super" and "standard"; system_settings and delete_data exactly for "super"; no other permission ever, so any other level gets only the base pair |
| Users.AdminAbilities | app/models/user.py:150-178 | a constructed administrator manages the system exactly at level "super", and users exactly at "super" or "standard" |
| Users.SuperExtendsStandard | app/models/user.py:157-166 | every permission of level "standard" is also a permission of level "super" |
| Users.StudentDictRoundTrip | app/models/user.py:120-141 | `Student.from_dict(to_dict(s))` reproduces every field |
| Users.AdminDictRoundTrip | app/models/user.py:194-211 | `Administrator.from_dict(to_dict(a))` reproduces every field |
| Users.StoredPermissionsWin | app/models/user.py:204-211 | a stored "super" administrator without a permissions entry gets no permissions, so it cannot manage the system |
| Users.RoleOf | app/models/user.py:221-228 | `create_user`'s dispatch on the lower-cased name; see RoleOfSpec and RoleOfIgnoresCase |
| Users.RoleOfSpec | app/models/user.py:221-228 | each role's own name selects it; a name selects a role only when it is that role's name up to case; every other name is refused |
| Users.RoleOfIgnoresCase | app/models/user.py:221-228 | lower-casing the type name first never changes the dispatch |
| Users.CreateFromDict | app/models/user.py:231-240 | builds a student only for role exactly "student" and an administrator only for role exactly "administrator" |
| Users.CreateStudentFromDict | app/models/user.py:231-240 | a stored student comes back as the same student |
| Users.CreateAdminFromDict | app/models/user.py:231-240 | a stored administrator comes back as the same administrator |
| Users.RoleCaseOnlyIgnoredByCreateUser | app/models/user.py:220-240 | "Student" selects a student in `create_user`, but a record whose role is "Student" is refused |
| Users.CreateUser | app/models/user.py:220-228 | builds a fresh student or a new administrator according to the lower-cased type name; refuses any other name |

## Left out

- Schedules.ParseClock: the clock parser accepts ASCII digit strings only. Python's `int()` also accepts surrounding whitespace, a sign, `_` separators and non-ASCII Unicode decimal digits (such as Arabic-Indic digits). Those spellings are rejected here instead of parsed.
- Schedules.ParseSlot: `parse_time` strips whitespace around each half of the time; the model does not strip, so a time such as "09:00 - 10:00" is rejected here where the source parses it.
- Users.RoleOf: lower-casing is ASCII-only. Python's `str.lower()` also folds non-ASCII letters.
- CourseCatalog.CourseManager.FindByInstructor: lower-casing is ASCII-only, so an instructor name that differs from the query only in non-ASCII case (such as "ÉMILE" against "émile") matches in Python's `str.lower()` comparison but not here.
- Default arguments are not modelled; every caller passes the value explicitly. The defaults are `capacity=30` for a new course (app/models/course.py:36), `min_credits=0` for `find_courses_by_credits` (app/models/course.py:254), `days_old=365` for `cleanup_old_registrations` (app/models/registration.py:225) and `admin_level="standard"` for a new administrator (app/models/user.py:151). The defaults that `from_dict` applies to missing keys are modelled.
- Records: a stored value of the wrong type is rejected (`None`). Python would keep it in the object unchecked.
- Timestamps (`created_at`, `updated_at`, `enrollment_date`, `drop_date`, `last_login`) are integer seconds instead of ISO-8601 strings. `datetime.now()` is a `now` parameter. `fromisoformat` is not modelled.
- RegistrationBook.StatisticsOf: the float percentages are kept as the pair (part, whole). Only the zero-total guard is modelled.
- RegistrationBook.SummaryOf: same as `StatisticsOf`.
- `get_enrollment_percentage` is float arithmetic and is not modelled.
- RegistrationBook.RegistrationManager.CreateRegistration: requires that the new id is not already stored, as a uuid is assumed to be. A colliding uuid would overwrite an entry in the source.
- RegistrationBook.RegistrationManager.UpdateRegistrationStatus: models the fields that `update_registration_status` assigns (status and drop date).
- `CourseManager.update_course` is not modelled. It sets arbitrary attributes by name through `setattr`.
- Courses.NewCourseKeepsSeatsConsistent: holds only for a non-negative capacity. The constructor accepts any integer, and with a negative capacity `0 <= enrolled <= capacity` fails from the start.
- Courses.EnrollThenDropRestoresSeats: requires a non-negative counter. A negative stored `enrolled` makes the drop fail.
- Registrations.DictRoundTrip: requires a non-empty id. `Registrations.EmptyIdReplaced` covers the empty one.
- Users.CreateUser: does not model keyword arguments that do not fit the selected constructor. The source raises `TypeError` for those.
- `get_student_course_history` is not modelled. It only reshapes records into dictionaries.
- `get_dashboard_data` is not modelled; it only reshapes fields into dictionaries.
- `__str__` and `__repr__` are not modelled; they only reshape fields into text.
- Trivial getters are fields in the model: `get_all_courses`, `get_schedule`, `has_schedule`, `has_prerequisites`, `get_prerequisites`, `get_grade`, `get_total_credits`.
- `get_enrolled_courses` returns a copy of the list. A Dafny sequence is a value, so the `enrolledCourses` field already cannot be altered through a result.
- Password hashing and checking (`_hash_password`, `verify_password`) are foreign calls to bcrypt. The hash is an opaque string parameter.
- The uuids are foreign calls. Generated ids are parameters.
- `Administrator.update_last_login` only stores the clock. The last login is a field of `AdminData` and is carried through the records.
- Administrators are values, because no modelled operation changes them in place.
- The singleton `__new__` of both managers is not modelled. Each manager is an ordinary object that its owner constructs once.
- The routes, the JSON persistence service, the authenticator and the logger are outside this model. So are configuration apart from the 18-credit limit (config.py:31) and application start-up.
