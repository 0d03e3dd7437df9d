/**
 * A student's registration in a course (app/models/registration.py, class
 * Registration) and its status machine. `RegData` is the value of one
 * registration; class `Registration` is the mutable object the registration
 * book stores, specified by the transition functions on `RegData`.
 * The ids are constants: no operation ever changes them.
 */
module Registrations {
  import opened Wrappers
  import opened Records

  datatype Status = Enrolled | Dropped | Waitlisted | Pending

  /** The string each status is stored as. */
  function StatusValue(s: Status): string {
    match s
    case Enrolled => "enrolled"
    case Dropped => "dropped"
    case Waitlisted => "waitlisted"
    case Pending => "pending"
  }

  /** `RegistrationStatus(value)`: None where the source raises `ValueError`. */
  function ParseStatus(v: string): Option<Status> {
    if v == "enrolled" then Some(Enrolled)
    else if v == "dropped" then Some(Dropped)
    else if v == "waitlisted" then Some(Waitlisted)
    else if v == "pending" then Some(Pending)
    else None
  }

  /** The status encoding is a bijection between the four statuses and their strings. */
  lemma StatusEncoding(s: Status, v: string)
    ensures ParseStatus(StatusValue(s)) == Some(s)
    ensures ParseStatus(v) == Some(s) ==> StatusValue(s) == v
  {
  }

  datatype RegData = RegData(
    registrationId: string,
    studentId: string,
    courseId: string,
    status: Status,
    enrollmentDate: int,
    dropDate: Option<int>,
    grade: Option<string>,
    notes: string)
  {
    /** `is_active`: the registration is ENROLLED. */
    predicate IsActive() {
      status == Enrolled
    }

    /** `is_dropped`: the registration is DROPPED. */
    predicate IsDropped() {
      status == Dropped
    }

    /** The fields no operation may change. */
    predicate SameIdentity(other: RegData) {
      registrationId == other.registrationId && studentId == other.studentId &&
      courseId == other.courseId
    }
  }

  /** A registration as the constructor builds it. */
  function NewRegistration(registrationId: string, studentId: string, courseId: string, now: int): RegData {
    RegData(registrationId, studentId, courseId, Enrolled, now, None, None, "")
  }

  /** `drop_course`: its answer and the registration afterwards. */
  function AfterDropCourse(r: RegData, now: int): (bool, RegData) {
    if r.status == Enrolled then (true, r.(status := Dropped, dropDate := Some(now)))
    else (false, r)
  }

  /** `re_enroll`: its answer and the registration afterwards. */
  function AfterReEnroll(r: RegData): (bool, RegData) {
    if r.status == Dropped then (true, r.(status := Enrolled, dropDate := None))
    else (false, r)
  }

  /** `set_grade`. */
  function WithGrade(r: RegData, grade: string): RegData {
    r.(grade := Some(grade))
  }

  /** `add_note`: the first note is stored as is, later ones are joined with "; ". */
  function WithNote(r: RegData, note: string): RegData {
    r.(notes := if r.notes != "" then r.notes + "; " + note else note)
  }

  /** Only ENROLLED can be dropped; a drop sets the drop date and changes nothing else. */
  lemma DropCourseSpec(r: RegData, now: int)
    ensures AfterDropCourse(r, now).0 <==> r.status == Enrolled
    ensures AfterDropCourse(r, now).0 ==>
              AfterDropCourse(r, now).1 == r.(status := Dropped, dropDate := Some(now))
    ensures !AfterDropCourse(r, now).0 ==> AfterDropCourse(r, now).1 == r
  {
  }

  /** Only DROPPED can be re-enrolled; a re-enroll clears the drop date and changes nothing else. */
  lemma ReEnrollSpec(r: RegData)
    ensures AfterReEnroll(r).0 <==> r.status == Dropped
    ensures AfterReEnroll(r).0 ==> AfterReEnroll(r).1 == r.(status := Enrolled, dropDate := None)
    ensures !AfterReEnroll(r).0 ==> AfterReEnroll(r).1 == r
  {
  }

  /** Dropping and then re-enrolling an enrolled registration leaves it ENROLLED with no drop date. */
  lemma DropThenReEnroll(r: RegData, now: int)
    requires r.status == Enrolled
    ensures var (dropped, r1) := AfterDropCourse(r, now);
            var (back, r2) := AfterReEnroll(r1);
            dropped && back && r2 == r.(dropDate := None)
  {
  }

  /** WAITLISTED and PENDING are left alone by both transitions. */
  lemma ReservedStatusesAreInert(r: RegData, now: int)
    requires r.status == Waitlisted || r.status == Pending
    ensures AfterDropCourse(r, now) == (false, r) && AfterReEnroll(r) == (false, r)
  {
  }

  /**
   * Grades and notes are side channels: they never touch the status or the ids,
   * and notes only ever grow (the old notes are a prefix of the new ones).
   */
  lemma SideChannelsKeepStatus(r: RegData, grade: string, note: string)
    ensures WithGrade(r, grade).status == r.status && WithGrade(r, grade).SameIdentity(r)
    ensures WithNote(r, note).status == r.status && WithNote(r, note).SameIdentity(r)
    ensures r.notes <= WithNote(r, note).notes
    ensures r.notes == "" ==> WithNote(r, note).notes == note
  {
  }

  /** Two notes added to a fresh registration read back as "first; second". */
  lemma NotesJoinedWithSemicolon(r: RegData, first: string, second: string)
    requires r.notes == "" && first != ""
    ensures WithNote(WithNote(r, first), second).notes == first + "; " + second
  {
  }

  class Registration {
    const registrationId: string
    const studentId: string
    const courseId: string
    var status: Status
    var enrollmentDate: int
    var dropDate: Option<int>
    var grade: Option<string>
    var notes: string

    function Data(): RegData
      reads this
    {
      RegData(registrationId, studentId, courseId, status, enrollmentDate, dropDate, grade, notes)
    }

    /** The id is either the caller's or a fresh uuid; the model receives whichever is used. */
    constructor (studentId: string, courseId: string, registrationId: string, now: int)
      ensures Data() == NewRegistration(registrationId, studentId, courseId, now)
    {
      this.registrationId, this.studentId, this.courseId := registrationId, studentId, courseId;
      status, enrollmentDate, dropDate, grade, notes := Enrolled, now, None, None, "";
    }

    /** The object `from_dict` builds from a decoded record. */
    constructor FromData(d: RegData)
      ensures Data() == d
    {
      registrationId, studentId, courseId := d.registrationId, d.studentId, d.courseId;
      status, enrollmentDate, dropDate, grade, notes := d.status, d.enrollmentDate, d.dropDate, d.grade, d.notes;
    }

    method DropCourse(now: int) returns (ok: bool)
      modifies this
      ensures (ok, Data()) == AfterDropCourse(old(Data()), now)
    {
      ok := status == Enrolled;
      if ok {
        status := Dropped;
        dropDate := Some(now);
      }
    }

    method ReEnroll() returns (ok: bool)
      modifies this
      ensures (ok, Data()) == AfterReEnroll(old(Data()))
    {
      ok := status == Dropped;
      if ok {
        status := Enrolled;
        dropDate := None;
      }
    }

    method SetGrade(g: string)
      modifies this
      ensures Data() == WithGrade(old(Data()), g)
    {
      grade := Some(g);
    }

    method AddNote(note: string)
      modifies this
      ensures Data() == WithNote(old(Data()), note)
    {
      if notes != "" {
        notes := notes + "; " + note;
      } else {
        notes := note;
      }
    }
  }

  function ToDict(r: RegData): Value {
    Dict(map[
      "registration_id" := Str(r.registrationId),
      "student_id" := Str(r.studentId),
      "course_id" := Str(r.courseId),
      "status" := Str(StatusValue(r.status)),
      "enrollment_date" := Int(r.enrollmentDate),
      "drop_date" := IntValue(r.dropDate),
      "grade" := StrValue(r.grade),
      "notes" := Str(r.notes)])
  }

  /** `registration_id or uuid4()`: a missing or falsy id is replaced by a fresh one. */
  function IdOf(d: map<string, Value>, freshId: string): Option<string> {
    if "registration_id" !in d || !Truthy(d["registration_id"]) then Some(freshId)
    else if d["registration_id"].Str? then Some(d["registration_id"].s)
    else None
  }

  /** `RegistrationStatus(data.get('status', 'enrolled'))`. */
  function StatusOf(d: map<string, Value>): Option<Status> {
    var v :- StrOr(d, "status", "enrolled");
    ParseStatus(v)
  }

  /**
   * `Registration.from_dict`: student_id and course_id are required; the status
   * defaults to ENROLLED, the enrollment date to `now`, the notes to "".
   */
  function FromDict(d: map<string, Value>, freshId: string, now: int): Option<RegData> {
    var studentId :- RequiredStr(d, "student_id");
    var courseId :- RequiredStr(d, "course_id");
    var registrationId :- IdOf(d, freshId);
    var status :- StatusOf(d);
    var enrollmentDate :- IntOr(d, "enrollment_date", now);
    var dropDate :- NullableInt(d, "drop_date");
    var grade :- NullableStr(d, "grade");
    var notes :- StrOr(d, "notes", "");
    Some(RegData(registrationId, studentId, courseId, status, enrollmentDate, dropDate, grade, notes))
  }

  /** `from_dict(to_dict(r))` reproduces every field, the status through its string. */
  lemma DictRoundTrip(r: RegData, freshId: string, now: int)
    requires r.registrationId != ""
    ensures ToDict(r).Dict? && FromDict(ToDict(r).fields, freshId, now) == Some(r)
  {
    IdsRead(r);
    OtherFieldsRead(r, now);
    assert Truthy(Str(r.registrationId));
  }

  /** An empty id does not survive the round trip: `""` is falsy, so a fresh id replaces it. */
  lemma EmptyIdReplaced(r: RegData, freshId: string, now: int)
    requires r.registrationId == ""
    ensures FromDict(ToDict(r).fields, freshId, now) == Some(r.(registrationId := freshId))
  {
    IdsRead(r);
    OtherFieldsRead(r, now);
  }

  lemma IdsRead(r: RegData)
    ensures var d := ToDict(r).fields;
            RequiredStr(d, "student_id") == Some(r.studentId) && RequiredStr(d, "course_id") == Some(r.courseId) &&
            "registration_id" in d && d["registration_id"] == Str(r.registrationId)
  {
    var d := ToDict(r).fields;
    assert d["student_id"] == Str(r.studentId) && d["course_id"] == Str(r.courseId);
  }

  lemma OtherFieldsRead(r: RegData, now: int)
    ensures var d := ToDict(r).fields;
            StatusOf(d) == Some(r.status) && IntOr(d, "enrollment_date", now) == Some(r.enrollmentDate) &&
            NullableInt(d, "drop_date") == Some(r.dropDate) && NullableStr(d, "grade") == Some(r.grade) &&
            StrOr(d, "notes", "") == Some(r.notes)
  {
    var d := ToDict(r).fields;
    StatusEncoding(r.status, StatusValue(r.status));
    assert d["status"] == Str(StatusValue(r.status)) && d["enrollment_date"] == Int(r.enrollmentDate);
    assert d["drop_date"] == IntValue(r.dropDate) && d["grade"] == StrValue(r.grade);
    assert d["notes"] == Str(r.notes);
  }
}
