/**
 * A course offering (app/models/course.py, class Course): a catalog entry with a
 * seat counter, an optional weekly schedule and a list of prerequisite ids.
 * `CourseData` is the value of one course at one moment; class `Course` is the
 * mutable object the catalog hands out, whose methods are specified by the
 * transition functions on `CourseData`.
 */
module Courses {
  import opened Wrappers
  import opened Records
  import Schedules

  /** Capacity used by `from_dict` when the record has none. */
  const DEFAULT_CAPACITY := 30

  datatype CourseData = CourseData(
    courseId: string,
    name: string,
    description: string,
    credits: int,
    instructor: string,
    capacity: int,
    enrolled: int,
    prerequisites: seq<string>,
    schedule: Option<Schedules.Schedule>,
    isActive: bool,
    createdAt: int,
    updatedAt: int)
  {
    /** `get_available_seats`: the seats left, never negative. */
    function AvailableSeats(): (n: int)
      ensures n >= 0
    {
      if capacity - enrolled > 0 then capacity - enrolled else 0
    }

    predicate IsFull() {
      enrolled >= capacity
    }

    /** `can_enroll`: the course is active and not full. */
    predicate CanEnroll() {
      isActive && !IsFull()
    }

    /** The seat invariant: the counter lies between zero and the capacity. */
    predicate SeatsConsistent() {
      0 <= enrolled <= capacity
    }

    /** `check_prerequisites`: every prerequisite id is among the completed ones. */
    predicate CheckPrerequisites(completed: seq<string>) {
      AllCompleted(prerequisites, completed)
    }
  }

  /** `all(p in completed for p in prereqs)`, one prerequisite at a time. */
  function AllCompleted(prereqs: seq<string>, completed: seq<string>): (r: bool)
    ensures r <==> forall p :: p in prereqs ==> p in completed
  {
    if prereqs == [] then true
    else prereqs[0] in completed && AllCompleted(prereqs[1..], completed)
  }

  /** Completing more courses never takes a prerequisite check back. */
  lemma PrerequisitesMonotone(c: CourseData, completed: seq<string>, more: seq<string>)
    requires c.CheckPrerequisites(completed)
    ensures c.CheckPrerequisites(completed + more)
  {
  }

  /** A course as the constructor builds it: no seats taken, no schedule, active. */
  function NewCourse(courseId: string, name: string, description: string, credits: int,
                     instructor: string, capacity: int, prerequisites: seq<string>, now: int): CourseData
  {
    CourseData(courseId, name, description, credits, instructor, capacity, 0,
               prerequisites, None, true, now, now)
  }

  /** `enroll_student`: its answer and the course afterwards. */
  function AfterEnroll(c: CourseData, now: int): (bool, CourseData) {
    if c.CanEnroll() then (true, c.(enrolled := c.enrolled + 1, updatedAt := now))
    else (false, c)
  }

  /** `drop_student`: its answer and the course afterwards. */
  function AfterDrop(c: CourseData, now: int): (bool, CourseData) {
    if c.enrolled > 0 then (true, c.(enrolled := c.enrolled - 1, updatedAt := now))
    else (false, c)
  }

  /** Enrolling succeeds exactly when the course can enroll, and then takes exactly one seat. */
  lemma EnrollTakesOneSeat(c: CourseData, now: int)
    ensures AfterEnroll(c, now).0 <==> c.isActive && c.enrolled < c.capacity
    ensures AfterEnroll(c, now).0 ==> AfterEnroll(c, now).1.enrolled == c.enrolled + 1
    ensures !AfterEnroll(c, now).0 ==> AfterEnroll(c, now).1 == c
  {
  }

  /** Dropping succeeds exactly when a seat is taken; the counter never goes below zero. */
  lemma DropFreesOneSeat(c: CourseData, now: int)
    ensures AfterDrop(c, now).0 <==> c.enrolled > 0
    ensures AfterDrop(c, now).0 ==> AfterDrop(c, now).1.enrolled == c.enrolled - 1
    ensures !AfterDrop(c, now).0 ==> AfterDrop(c, now).1 == c
    ensures c.enrolled >= 0 ==> AfterDrop(c, now).1.enrolled >= 0
  {
  }

  /**
   * The seats left agree with the other seat operations: none exactly when the
   * course is full; with a consistent counter, taken plus left is the capacity;
   * a successful enroll uses one and a successful drop of a course that is not
   * over capacity gives one back.
   */
  lemma AvailableSeatsTrackEnrolment(c: CourseData, now: int)
    ensures c.AvailableSeats() == 0 <==> c.IsFull()
    ensures c.SeatsConsistent() ==> c.enrolled + c.AvailableSeats() == c.capacity
    ensures AfterEnroll(c, now).0 ==> AfterEnroll(c, now).1.AvailableSeats() == c.AvailableSeats() - 1
    ensures AfterDrop(c, now).0 && c.enrolled <= c.capacity ==>
              AfterDrop(c, now).1.AvailableSeats() == c.AvailableSeats() + 1
  {
  }

  /** A successful enroll followed by a drop gives back the seat. */
  lemma EnrollThenDropRestoresSeats(c: CourseData, t1: int, t2: int)
    requires c.enrolled >= 0 && AfterEnroll(c, t1).0
    ensures AfterDrop(AfterEnroll(c, t1).1, t2) == (true, c.(updatedAt := t2))
  {
  }

  datatype SeatOp = Enroll(at: int) | Drop(at: int)

  /** The course after a sequence of `enroll_student` / `drop_student` calls. */
  function Run(c: CourseData, ops: seq<SeatOp>): CourseData
    decreases |ops|
  {
    if ops == [] then c
    else
      var next := match ops[0]
        case Enroll(t) => AfterEnroll(c, t).1
        case Drop(t) => AfterDrop(c, t).1;
      Run(next, ops[1..])
  }

  /**
   * Any sequence of enrolls and drops keeps `0 <= enrolled <= capacity`, and
   * touches nothing but the counter and the update time.
   */
  lemma {:induction false} RunKeepsSeatsConsistent(c: CourseData, ops: seq<SeatOp>)
    requires c.SeatsConsistent()
    ensures Run(c, ops).SeatsConsistent()
    ensures Run(c, ops).(enrolled := c.enrolled, updatedAt := c.updatedAt) == c
    decreases |ops|
  {
    if ops != [] {
      var next := match ops[0]
        case Enroll(t) => AfterEnroll(c, t).1
        case Drop(t) => AfterDrop(c, t).1;
      RunKeepsSeatsConsistent(next, ops[1..]);
    }
  }

  /** A freshly constructed course with a non-negative capacity satisfies the seat invariant forever after. */
  lemma NewCourseKeepsSeatsConsistent(courseId: string, name: string, description: string, credits: int,
                                       instructor: string, capacity: int, prerequisites: seq<string>,
                                       now: int, ops: seq<SeatOp>)
    requires capacity >= 0
    ensures Run(NewCourse(courseId, name, description, credits, instructor, capacity, prerequisites, now),
                ops).SeatsConsistent()
  {
    RunKeepsSeatsConsistent(NewCourse(courseId, name, description, credits, instructor, capacity, prerequisites, now),
                            ops);
  }

  /** Capacity one: enroll succeeds, a second enroll fails, a drop frees the seat again. */
  lemma CapacityOneScenario(now: int)
    ensures var c0 := NewCourse("CS101", "Intro", "", 3, "Smith", 1, [], now);
            var (ok1, c1) := AfterEnroll(c0, now + 1);
            var (ok2, c2) := AfterEnroll(c1, now + 2);
            var (ok3, c3) := AfterDrop(c2, now + 3);
            ok1 && c1.enrolled == 1 && !ok2 && c2.enrolled == 1 && ok3 && c3.enrolled == 0
  {
  }

  class Course {
    const courseId: string
    const name: string
    const description: string
    const credits: int
    const instructor: string
    const capacity: int
    const prerequisites: seq<string>
    const createdAt: int
    var enrolled: int
    var schedule: Option<Schedules.Schedule>
    var isActive: bool
    var updatedAt: int

    /** The course's current value. */
    function Data(): CourseData
      reads this
    {
      CourseData(courseId, name, description, credits, instructor, capacity, enrolled,
                 prerequisites, schedule, isActive, createdAt, updatedAt)
    }

    constructor (courseId: string, name: string, description: string, credits: int,
                 instructor: string, capacity: int, prerequisites: seq<string>, now: int)
      ensures Data() == NewCourse(courseId, name, description, credits, instructor,
                                  capacity, prerequisites, now)
    {
      this.courseId, this.name, this.description := courseId, name, description;
      this.credits, this.instructor, this.capacity := credits, instructor, capacity;
      this.prerequisites, this.createdAt := prerequisites, now;
      enrolled, schedule, isActive, updatedAt := 0, None, true, now;
    }

    /** The object `from_dict` builds from a decoded record. */
    constructor FromData(d: CourseData)
      ensures Data() == d
    {
      courseId, name, description := d.courseId, d.name, d.description;
      credits, instructor, capacity := d.credits, d.instructor, d.capacity;
      prerequisites, createdAt := d.prerequisites, d.createdAt;
      enrolled, schedule, isActive, updatedAt := d.enrolled, d.schedule, d.isActive, d.updatedAt;
    }

    /** `set_schedule`: replaces the schedule (the time is not checked here). */
    method SetSchedule(days: seq<string>, time: string, room: string, now: int)
      modifies this
      ensures Data() == old(Data()).(schedule := Some(Schedules.Schedule(days, time, room)),
                                     updatedAt := now)
    {
      schedule := Some(Schedules.Schedule(days, time, room));
      updatedAt := now;
    }

    method EnrollStudent(now: int) returns (ok: bool)
      modifies this
      ensures (ok, Data()) == AfterEnroll(old(Data()), now)
      ensures ok <==> old(isActive && enrolled < capacity)
      ensures old(Data().SeatsConsistent()) ==> Data().SeatsConsistent()
    {
      ok := Data().CanEnroll();
      if ok {
        enrolled := enrolled + 1;
        updatedAt := now;
      }
    }

    method DropStudent(now: int) returns (ok: bool)
      modifies this
      ensures (ok, Data()) == AfterDrop(old(Data()), now)
      ensures ok <==> old(enrolled) > 0
      ensures old(Data().SeatsConsistent()) ==> Data().SeatsConsistent()
    {
      ok := enrolled > 0;
      if ok {
        enrolled := enrolled - 1;
        updatedAt := now;
      }
    }
  }

  function ToDict(c: CourseData): Value {
    Dict(map[
      "course_id" := Str(c.courseId),
      "name" := Str(c.name),
      "description" := Str(c.description),
      "credits" := Int(c.credits),
      "instructor" := Str(c.instructor),
      "capacity" := Int(c.capacity),
      "enrolled" := Int(c.enrolled),
      "prerequisites" := StrListValue(c.prerequisites),
      "schedule" := match c.schedule
                    case Some(s) => Schedules.ToDict(s)
                    case None => Null,
      "is_active" := Bool(c.isActive),
      "created_at" := Int(c.createdAt),
      "updated_at" := Int(c.updatedAt)])
  }

  /** `prerequisites or []`: a missing or falsy entry reads as no prerequisites. */
  function PrerequisitesOf(d: map<string, Value>): Option<seq<string>> {
    if "prerequisites" !in d || !Truthy(d["prerequisites"]) then Some([])
    else StrList(d["prerequisites"])
  }

  /** `if data.get('schedule')`: a falsy entry means no schedule; a truthy one must be a record. */
  function ScheduleOf(d: map<string, Value>): Option<Option<Schedules.Schedule>> {
    if "schedule" !in d || !Truthy(d["schedule"]) then Some(None)
    else if d["schedule"].Dict? then
      match Schedules.FromDict(d["schedule"].fields)
      case Some(s) => Some(Some(s))
      case None => None
    else None
  }

  /**
   * `Course.from_dict`: course_id, name, description, credits and instructor are
   * required; capacity defaults to 30, enrolled to 0, is_active to true, created_at
   * to `now` and updated_at to created_at.
   */
  function FromDict(d: map<string, Value>, now: int): Option<CourseData> {
    var courseId :- RequiredStr(d, "course_id");
    var name :- RequiredStr(d, "name");
    var description :- RequiredStr(d, "description");
    var credits :- RequiredInt(d, "credits");
    var instructor :- RequiredStr(d, "instructor");
    var capacity :- IntOr(d, "capacity", DEFAULT_CAPACITY);
    var prerequisites :- PrerequisitesOf(d);
    var enrolled :- IntOr(d, "enrolled", 0);
    var isActive :- BoolOr(d, "is_active", true);
    var createdAt :- IntOr(d, "created_at", now);
    var updatedAt :- IntOr(d, "updated_at", createdAt);
    var schedule :- ScheduleOf(d);
    Some(CourseData(courseId, name, description, credits, instructor, capacity, enrolled,
                    prerequisites, schedule, isActive, createdAt, updatedAt))
  }

  /** `from_dict(to_dict(c))` reproduces every field of the course. */
  lemma DictRoundTrip(c: CourseData, now: int)
    ensures ToDict(c).Dict? && FromDict(ToDict(c).fields, now) == Some(c)
  {
    RequiredFieldsRead(c);
    CountersRead(c, now);
    NestedFieldsRead(c);
  }

  lemma RequiredFieldsRead(c: CourseData)
    ensures var d := ToDict(c).fields;
            RequiredStr(d, "course_id") == Some(c.courseId) && RequiredStr(d, "name") == Some(c.name) &&
            RequiredStr(d, "description") == Some(c.description) &&
            RequiredInt(d, "credits") == Some(c.credits) && RequiredStr(d, "instructor") == Some(c.instructor)
  {
    var d := ToDict(c).fields;
    assert d["course_id"] == Str(c.courseId) && d["name"] == Str(c.name);
    assert d["description"] == Str(c.description) && d["credits"] == Int(c.credits);
    assert d["instructor"] == Str(c.instructor);
  }

  lemma CountersRead(c: CourseData, now: int)
    ensures var d := ToDict(c).fields;
            IntOr(d, "capacity", DEFAULT_CAPACITY) == Some(c.capacity) && IntOr(d, "enrolled", 0) == Some(c.enrolled) &&
            BoolOr(d, "is_active", true) == Some(c.isActive) && IntOr(d, "created_at", now) == Some(c.createdAt) &&
            IntOr(d, "updated_at", c.createdAt) == Some(c.updatedAt)
  {
    var d := ToDict(c).fields;
    assert d["capacity"] == Int(c.capacity) && d["enrolled"] == Int(c.enrolled);
    assert d["is_active"] == Bool(c.isActive);
    assert d["created_at"] == Int(c.createdAt) && d["updated_at"] == Int(c.updatedAt);
  }

  lemma NestedFieldsRead(c: CourseData)
    ensures var d := ToDict(c).fields;
            PrerequisitesOf(d) == Some(c.prerequisites) && ScheduleOf(d) == Some(c.schedule)
  {
    var d := ToDict(c).fields;
    StrListRoundTrip(c.prerequisites);
    assert d["prerequisites"] == StrListValue(c.prerequisites);
    match c.schedule {
      case Some(s) =>
        Schedules.DictRoundTrip(s);
        assert d["schedule"] == Schedules.ToDict(s);
        assert "days" in Schedules.ToDict(s).fields;
      case None =>
        assert d["schedule"] == Null;
    }
  }
}
