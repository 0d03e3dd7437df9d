/**
 * Users (app/models/user.py): students with their enrolled-course list,
 * administrators with permissions by level, and the factory that builds
 * either from a type name or from a stored record. The password hash is an
 * opaque string supplied by the caller, as are the generated ids and `now`.
 */
module Users {
  import opened Wrappers
  import opened Text
  import opened Records

  /** config.py: the credit limit per semester. */
  const MAX_CREDITS_PER_SEMESTER := 18

  /** The fields every user has (class User). */
  datatype Account = Account(
    id: string,
    username: string,
    email: string,
    passwordHash: string,
    role: string,
    createdAt: int,
    isActive: bool)

  /** A user as the base constructor builds it: active, created now. */
  function NewAccount(id: string, username: string, email: string, passwordHash: string,
                      role: string, now: int): Account {
    Account(id, username, email, passwordHash, role, now, true)
  }

  // ---------------------------------------------------------------- students

  datatype StudentData = StudentData(
    account: Account,
    studentId: Option<string>,
    major: Option<string>,
    enrolledCourses: seq<string>,
    completedCourses: seq<string>,
    totalCredits: int)

  /** Python's `x or default` for an optional string: None and "" both give the default. */
  function OrDefault(x: Option<string>, default: string): string {
    if x.Some? && x.value != "" then x.value else default
  }

  /** A student as the constructor builds it; `generatedId` stands for the `STU…` id drawn from a uuid. */
  function NewStudent(id: string, username: string, email: string, passwordHash: string, now: int,
                      studentId: Option<string>, major: Option<string>, generatedId: string): StudentData {
    StudentData(NewAccount(id, username, email, passwordHash, "student", now),
                Some(OrDefault(studentId, generatedId)), Some(OrDefault(major, "Undecided")),
                [], [], 0)
  }

  ghost predicate NoDuplicates(xs: seq<string>) {
    forall i, j :: 0 <= i < j < |xs| ==> xs[i] != xs[j]
  }

  /** `enroll_in_course` on the list: append an absent id. */
  function AfterEnrollIn(xs: seq<string>, courseId: string): (bool, seq<string>) {
    if courseId in xs then (false, xs) else (true, xs + [courseId])
  }

  /** Python's `list.remove`: drop the first occurrence. */
  function RemoveFirst(xs: seq<string>, x: string): seq<string> {
    if xs == [] then []
    else if xs[0] == x then xs[1..]
    else [xs[0]] + RemoveFirst(xs[1..], x)
  }

  /** `drop_course` on the list: remove a present id. */
  function AfterDropId(xs: seq<string>, courseId: string): (bool, seq<string>) {
    if courseId in xs then (true, RemoveFirst(xs, courseId)) else (false, xs)
  }

  /** `list.remove` takes away exactly one occurrence of a present element and nothing else. */
  lemma {:induction false} RemoveFirstSpec(xs: seq<string>, x: string)
    ensures x !in xs ==> RemoveFirst(xs, x) == xs
    ensures x in xs ==> |RemoveFirst(xs, x)| == |xs| - 1 &&
                        multiset(RemoveFirst(xs, x)) == multiset(xs) - multiset{x}
  {
    if xs != [] {
      RemoveFirstSpec(xs[1..], x);
      assert xs == [xs[0]] + xs[1..];
    }
  }

  /** Enrolling succeeds exactly for an absent id, appends it, and keeps the list duplicate-free. */
  lemma EnrollInSpec(xs: seq<string>, courseId: string)
    ensures var (ok, ys) := AfterEnrollIn(xs, courseId);
            (ok <==> courseId !in xs) &&
            (ok ==> ys == xs + [courseId]) &&
            (!ok ==> ys == xs) &&
            courseId in ys &&
            (NoDuplicates(xs) ==> NoDuplicates(ys))
  {
  }

  /** `list.remove` keeps every element other than the removed one. */
  lemma {:induction false} RemoveFirstKeepsOthers(xs: seq<string>, x: string, y: string)
    requires y in xs && y != x
    ensures y in RemoveFirst(xs, x)
  {
    if xs[0] != x && xs[0] != y {
      RemoveFirstKeepsOthers(xs[1..], x, y);
    }
  }

  /** In a duplicate-free list, `list.remove` leaves no occurrence behind. */
  lemma {:induction false} RemoveFirstLeavesNone(xs: seq<string>, x: string)
    requires NoDuplicates(xs)
    ensures x !in RemoveFirst(xs, x)
  {
    if xs != [] {
      if xs[0] == x {
        forall i | 0 <= i < |xs| - 1
          ensures xs[1..][i] != x
        {
          assert xs[i + 1] != xs[0];
        }
      } else {
        assert NoDuplicates(xs[1..]) by {
          forall i, j | 0 <= i < j < |xs| - 1
            ensures xs[1..][i] != xs[1..][j]
          {
            assert xs[i + 1] != xs[j + 1];
          }
        }
        RemoveFirstLeavesNone(xs[1..], x);
      }
    }
  }

  /** Dropping succeeds exactly for a present id; in a duplicate-free list it is then gone, the others stay. */
  lemma DropIdSpec(xs: seq<string>, courseId: string)
    ensures var (ok, ys) := AfterDropId(xs, courseId);
            (ok <==> courseId in xs) &&
            (!ok ==> ys == xs) &&
            (ok ==> multiset(ys) == multiset(xs) - multiset{courseId}) &&
            (ok && NoDuplicates(xs) ==> courseId !in ys) &&
            (forall y :: y in xs && y != courseId ==> y in ys)
  {
    RemoveFirstSpec(xs, courseId);
    if courseId in xs {
      if NoDuplicates(xs) {
        RemoveFirstLeavesNone(xs, courseId);
      }
      forall y | y in xs && y != courseId
        ensures y in RemoveFirst(xs, courseId)
      {
        RemoveFirstKeepsOthers(xs, courseId, y);
      }
    }
  }

  /** Removing the first occurrence of an element appended to a list without it gives the list back. */
  lemma {:induction false} RemoveAppended(xs: seq<string>, x: string)
    requires x !in xs
    ensures RemoveFirst(xs + [x], x) == xs
  {
    if xs != [] {
      assert (xs + [x])[1..] == xs[1..] + [x];
      RemoveAppended(xs[1..], x);
      assert [xs[0]] + xs[1..] == xs;
    }
  }

  /** Enrolling in a new course and then dropping it restores the original list. */
  lemma EnrollThenDropRestores(xs: seq<string>, courseId: string)
    requires courseId !in xs
    ensures AfterEnrollIn(xs, courseId) == (true, xs + [courseId])
    ensures AfterDropId(AfterEnrollIn(xs, courseId).1, courseId) == (true, xs)
  {
    RemoveAppended(xs, courseId);
  }

  /** `can_enroll_in_course`: the course's credits fit in what remains of the semester limit. */
  function CanEnrollInCourse(s: StudentData, courseCredits: int): bool {
    s.totalCredits + courseCredits <= MAX_CREDITS_PER_SEMESTER
  }

  /** A student who can take a course can take any course with fewer credits. */
  lemma CanEnrollMonotone(s: StudentData, c1: int, c2: int)
    requires c2 <= c1 && CanEnrollInCourse(s, c1)
    ensures CanEnrollInCourse(s, c2)
  {
  }

  /**
   * For a student within the limit, the accepted course sizes are exactly those up
   * to the credits that remain: that many is accepted and one more is refused.
   */
  lemma CanEnrollUpToRemaining(s: StudentData)
    requires 0 <= s.totalCredits <= MAX_CREDITS_PER_SEMESTER
    ensures CanEnrollInCourse(s, MAX_CREDITS_PER_SEMESTER - s.totalCredits)
    ensures !CanEnrollInCourse(s, MAX_CREDITS_PER_SEMESTER - s.totalCredits + 1)
    ensures s.totalCredits == MAX_CREDITS_PER_SEMESTER ==> !CanEnrollInCourse(s, 1)
  {
  }

  class Student {
    const account: Account
    const studentId: Option<string>
    const major: Option<string>
    var enrolledCourses: seq<string>
    const completedCourses: seq<string>
    const totalCredits: int

    function Data(): StudentData
      reads this
    {
      StudentData(account, studentId, major, enrolledCourses, completedCourses, totalCredits)
    }

    constructor (id: string, username: string, email: string, passwordHash: string, now: int,
                 studentId: Option<string>, major: Option<string>, generatedId: string)
      ensures Data() == NewStudent(id, username, email, passwordHash, now, studentId, major, generatedId)
    {
      account := NewAccount(id, username, email, passwordHash, "student", now);
      this.studentId := Some(OrDefault(studentId, generatedId));
      this.major := Some(OrDefault(major, "Undecided"));
      enrolledCourses, completedCourses, totalCredits := [], [], 0;
    }

    /** The object `Student.from_dict` builds from a decoded record. */
    constructor FromData(d: StudentData)
      ensures Data() == d
    {
      account, studentId, major := d.account, d.studentId, d.major;
      enrolledCourses, completedCourses, totalCredits := d.enrolledCourses, d.completedCourses, d.totalCredits;
    }

    method EnrollInCourse(courseId: string) returns (ok: bool)
      modifies this
      ensures (ok, enrolledCourses) == AfterEnrollIn(old(enrolledCourses), courseId)
      ensures NoDuplicates(old(enrolledCourses)) ==> NoDuplicates(enrolledCourses)
    {
      ok := courseId !in enrolledCourses;
      if ok {
        enrolledCourses := enrolledCourses + [courseId];
      }
      EnrollInSpec(old(enrolledCourses), courseId);
    }

    method DropCourse(courseId: string) returns (ok: bool)
      modifies this
      ensures (ok, enrolledCourses) == AfterDropId(old(enrolledCourses), courseId)
    {
      ok := courseId in enrolledCourses;
      if ok {
        enrolledCourses := RemoveFirst(enrolledCourses, courseId);
      }
    }
  }

  // ---------------------------------------------------------------- administrators

  datatype AdminData = AdminData(
    account: Account,
    adminLevel: string,
    permissions: seq<string>,
    lastLogin: Option<int>)
  {
    predicate HasPermission(permission: string) {
      permission in permissions
    }

    predicate CanManageUsers() {
      HasPermission("manage_users")
    }

    predicate CanManageSystem() {
      HasPermission("system_settings")
    }
  }

  /** `_get_permissions`: the base pair, extended by level. */
  function PermissionsFor(adminLevel: string): (ps: seq<string>)
    ensures |ps| >= 2 && ps[..2] == ["view_reports", "manage_courses"]
    ensures "manage_users" in ps <==> adminLevel == "super" || adminLevel == "standard"
    ensures "system_settings" in ps <==> adminLevel == "super"
    ensures "delete_data" in ps <==> adminLevel == "super"
    ensures forall p :: p in ps ==>
              p in ["view_reports", "manage_courses", "manage_users", "system_settings", "delete_data"]
  {
    var base := ["view_reports", "manage_courses"];
    if adminLevel == "super" then base + ["manage_users", "system_settings", "delete_data"]
    else if adminLevel == "standard" then base + ["manage_users"]
    else base
  }

  /** An administrator as the constructor builds it: permissions from the level, no login yet. */
  function NewAdmin(id: string, username: string, email: string, passwordHash: string, now: int,
                    adminLevel: string): AdminData {
    AdminData(NewAccount(id, username, email, passwordHash, "administrator", now),
              adminLevel, PermissionsFor(adminLevel), None)
  }

  /** For a constructed administrator, only "super" manages the system; "super" and "standard" manage users. */
  lemma AdminAbilities(id: string, username: string, email: string, passwordHash: string, now: int,
                       adminLevel: string)
    ensures var a := NewAdmin(id, username, email, passwordHash, now, adminLevel);
            (a.CanManageSystem() <==> adminLevel == "super") &&
            (a.CanManageUsers() <==> adminLevel == "super" || adminLevel == "standard") &&
            a.HasPermission("view_reports") && a.HasPermission("manage_courses")
  {
    var ps := PermissionsFor(adminLevel);
    assert ps[0] == "view_reports" && ps[1] == "manage_courses";
  }

  /** Every permission a constructed "standard" administrator has, a "super" one has too. */
  lemma SuperExtendsStandard(p: string)
    requires p in PermissionsFor("standard")
    ensures p in PermissionsFor("super")
  {
  }

  // ---------------------------------------------------------------- records

  function AccountFields(a: Account): map<string, Value> {
    map[
      "id" := Str(a.id),
      "username" := Str(a.username),
      "email" := Str(a.email),
      "password_hash" := Str(a.passwordHash),
      "role" := Str(a.role),
      "created_at" := Int(a.createdAt),
      "is_active" := Bool(a.isActive)]
  }

  /** `User.from_dict`: every base field but is_active (default true) is required. */
  function AccountOf(d: map<string, Value>): Option<Account> {
    var id :- RequiredStr(d, "id");
    var username :- RequiredStr(d, "username");
    var email :- RequiredStr(d, "email");
    var passwordHash :- RequiredStr(d, "password_hash");
    var role :- RequiredStr(d, "role");
    var createdAt :- RequiredInt(d, "created_at");
    var isActive :- BoolOr(d, "is_active", true);
    Some(Account(id, username, email, passwordHash, role, createdAt, isActive))
  }

  /** The base fields read back unchanged, whatever a subclass adds under other keys. */
  lemma AccountRead(a: Account, extra: map<string, Value>)
    requires extra.Keys !! AccountFields(a).Keys
    ensures AccountOf(AccountFields(a) + extra) == Some(a)
  {
    var d := AccountFields(a) + extra;
    assert d["id"] == Str(a.id) && d["username"] == Str(a.username) && d["email"] == Str(a.email);
    assert d["password_hash"] == Str(a.passwordHash) && d["role"] == Str(a.role);
    assert d["created_at"] == Int(a.createdAt) && d["is_active"] == Bool(a.isActive);
  }

  function StudentToDict(s: StudentData): Value {
    Dict(AccountFields(s.account) + map[
      "student_id" := StrValue(s.studentId),
      "major" := StrValue(s.major),
      "enrolled_courses" := StrListValue(s.enrolledCourses),
      "completed_courses" := StrListValue(s.completedCourses),
      "total_credits" := Int(s.totalCredits)])
  }

  /** `data.get('major', 'Undecided')`: absent gives the default, null stays None. */
  function MajorOf(d: map<string, Value>): Option<Option<string>> {
    if "major" !in d then Some(Some("Undecided")) else NullableStr(d, "major")
  }

  /** `Student.from_dict`. */
  function StudentFromDict(d: map<string, Value>): Option<StudentData> {
    var account :- AccountOf(d);
    var studentId :- NullableStr(d, "student_id");
    var major :- MajorOf(d);
    var enrolled :- StrListOr(d, "enrolled_courses", []);
    var completed :- StrListOr(d, "completed_courses", []);
    var totalCredits :- IntOr(d, "total_credits", 0);
    Some(StudentData(account, studentId, major, enrolled, completed, totalCredits))
  }

  /** `Student.from_dict(s.to_dict())` reproduces every field. */
  lemma StudentDictRoundTrip(s: StudentData)
    ensures StudentToDict(s).Dict? && StudentFromDict(StudentToDict(s).fields) == Some(s)
  {
    StudentAccountRead(s);
    StudentFieldsRead(s);
  }

  lemma StudentAccountRead(s: StudentData)
    ensures AccountOf(StudentToDict(s).fields) == Some(s.account)
  {
    var extra := StudentToDict(s).fields - AccountFields(s.account).Keys;
    assert StudentToDict(s).fields == AccountFields(s.account) + extra;
    AccountRead(s.account, extra);
  }

  lemma StudentFieldsRead(s: StudentData)
    ensures var d := StudentToDict(s).fields;
            NullableStr(d, "student_id") == Some(s.studentId) &&
            MajorOf(d) == Some(s.major) &&
            StrListOr(d, "enrolled_courses", []) == Some(s.enrolledCourses) &&
            StrListOr(d, "completed_courses", []) == Some(s.completedCourses) &&
            IntOr(d, "total_credits", 0) == Some(s.totalCredits)
  {
    var d := StudentToDict(s).fields;
    assert d["student_id"] == StrValue(s.studentId) && d["major"] == StrValue(s.major);
    assert d["enrolled_courses"] == StrListValue(s.enrolledCourses);
    assert d["completed_courses"] == StrListValue(s.completedCourses);
    assert d["total_credits"] == Int(s.totalCredits);
    StrListRoundTrip(s.enrolledCourses);
    StrListRoundTrip(s.completedCourses);
  }

  function AdminToDict(a: AdminData): Value {
    Dict(AccountFields(a.account) + map[
      "admin_level" := Str(a.adminLevel),
      "permissions" := StrListValue(a.permissions),
      "last_login" := IntValue(a.lastLogin)])
  }

  /** `Administrator.from_dict`: the permissions are read back, never recomputed from the level. */
  function AdminFromDict(d: map<string, Value>): Option<AdminData> {
    var account :- AccountOf(d);
    var adminLevel :- StrOr(d, "admin_level", "standard");
    var permissions :- StrListOr(d, "permissions", []);
    var lastLogin :- NullableInt(d, "last_login");
    Some(AdminData(account, adminLevel, permissions, lastLogin))
  }

  /** `Administrator.from_dict(a.to_dict())` reproduces every field. */
  lemma AdminDictRoundTrip(a: AdminData)
    ensures AdminToDict(a).Dict? && AdminFromDict(AdminToDict(a).fields) == Some(a)
  {
    AdminAccountRead(a);
    var d := AdminToDict(a).fields;
    assert d["admin_level"] == Str(a.adminLevel) && d["last_login"] == IntValue(a.lastLogin);
    assert d["permissions"] == StrListValue(a.permissions);
    StrListRoundTrip(a.permissions);
  }

  lemma AdminAccountRead(a: AdminData)
    ensures AccountOf(AdminToDict(a).fields) == Some(a.account)
  {
    var extra := AdminToDict(a).fields - AccountFields(a.account).Keys;
    assert AdminToDict(a).fields == AccountFields(a.account) + extra;
    AccountRead(a.account, extra);
  }

  /** A stored "super" administrator without a permissions entry can manage nothing. */
  lemma StoredPermissionsWin(a: AdminData)
    requires a.adminLevel == "super"
    ensures var d := AdminToDict(a).fields - {"permissions"};
            AdminFromDict(d).Some? && !AdminFromDict(d).value.CanManageSystem()
  {
    var d := AdminToDict(a).fields - {"permissions"};
    var extra := d - AccountFields(a.account).Keys;
    assert d == AccountFields(a.account) + extra;
    AccountRead(a.account, extra);
    assert "permissions" !in d;
    assert d["admin_level"] == Str(a.adminLevel) && d["last_login"] == IntValue(a.lastLogin);
  }

  // ---------------------------------------------------------------- factory

  datatype Role = StudentRole | AdminRole

  /** `create_user`'s dispatch: the type name compared after lower-casing. */
  function RoleOf(userType: string): Option<Role> {
    var t := Lower(userType);
    if t == "student" then Some(StudentRole)
    else if t == "administrator" then Some(AdminRole)
    else None
  }

  /** The type name each role is created under. */
  function RoleName(r: Role): string {
    match r
    case StudentRole => "student"
    case AdminRole => "administrator"
  }

  /**
   * Each role's own name selects it, and a name selects a role only when it is
   * that role's name up to case; every other name is refused.
   */
  lemma RoleOfSpec(userType: string, r: Role)
    ensures RoleOf(RoleName(r)) == Some(r)
    ensures RoleOf(userType) == Some(r) ==> Lower(userType) == RoleName(r)
    ensures Lower(userType) != RoleName(StudentRole) && Lower(userType) != RoleName(AdminRole) ==>
              RoleOf(userType) == None
  {
    assert Lower("student") == "student";
    assert Lower("administrator") == "administrator";
  }

  /** The dispatch ignores case: a lower-cased type name selects the same role. */
  lemma RoleOfIgnoresCase(userType: string)
    ensures RoleOf(Lower(userType)) == RoleOf(userType)
  {
    LowerIdempotent(userType);
  }

  /** What `create_from_dict` builds. */
  datatype UserData = StudentRecord(student: StudentData) | AdminRecord(admin: AdminData)

  /** `create_from_dict`: the role (default "user") must be exactly "student" or "administrator". */
  function CreateFromDict(d: map<string, Value>): (r: Option<UserData>)
    ensures r.Some? ==> "role" in d && d["role"].Str?
    ensures r.Some? && r.value.StudentRecord? ==> d["role"].s == "student"
    ensures r.Some? && r.value.AdminRecord? ==> d["role"].s == "administrator"
  {
    var role :- StrOr(d, "role", "user");
    if role == "student" then
      var s :- StudentFromDict(d);
      Some(StudentRecord(s))
    else if role == "administrator" then
      var a :- AdminFromDict(d);
      Some(AdminRecord(a))
    else None
  }

  /** A stored student comes back as the same student. */
  lemma CreateStudentFromDict(s: StudentData)
    requires s.account.role == "student"
    ensures CreateFromDict(StudentToDict(s).fields) == Some(StudentRecord(s))
  {
    StudentDictRoundTrip(s);
  }

  /** A stored administrator comes back as the same administrator. */
  lemma CreateAdminFromDict(a: AdminData)
    requires a.account.role == "administrator"
    ensures CreateFromDict(AdminToDict(a).fields) == Some(AdminRecord(a))
  {
    AdminDictRoundTrip(a);
  }

  /** "Student" selects a student in `create_user`, but a record with that role is refused. */
  lemma RoleCaseOnlyIgnoredByCreateUser(s: StudentData)
    requires s.account.role == "Student"
    ensures RoleOf("Student") == Some(StudentRole)
    ensures CreateFromDict(StudentToDict(s).fields) == None
  {
    assert Lower("Student") == "student";
  }

  /** A user object `create_user` hands out. */
  datatype UserObject = StudentObject(student: Student) | AdminObject(admin: AdminData)

  /**
   * `create_user`: dispatch on the lower-cased type name; the arguments of
   * both constructors are given, and each role uses its own.
   */
  method CreateUser(userType: string, id: string, username: string, email: string, passwordHash: string,
                    now: int, studentId: Option<string>, major: Option<string>, generatedId: string,
                    adminLevel: string)
    returns (u: Option<UserObject>)
    ensures u.None? <==> RoleOf(userType).None?
    ensures RoleOf(userType) == Some(StudentRole) ==>
              u.Some? && u.value.StudentObject? && fresh(u.value.student) &&
              u.value.student.Data() == NewStudent(id, username, email, passwordHash, now, studentId, major, generatedId)
    ensures RoleOf(userType) == Some(AdminRole) ==>
              u == Some(AdminObject(NewAdmin(id, username, email, passwordHash, now, adminLevel)))
  {
    var role := RoleOf(userType);
    match role {
      case Some(StudentRole) =>
        var s := new Student(id, username, email, passwordHash, now, studentId, major, generatedId);
        u := Some(StudentObject(s));
      case Some(AdminRole) =>
        u := Some(AdminObject(NewAdmin(id, username, email, passwordHash, now, adminLevel)));
      case None =>
        u := None;
    }
  }
}
