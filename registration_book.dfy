/**
 * The registration book (app/models/registration.py, class RegistrationManager):
 * registration objects in insertion order, keyed by their ids. The functions
 * on `seq<RegData>` below are its specification; the class's methods are
 * proved against them. The source makes the book a process-wide singleton;
 * here it is an ordinary object that its owner constructs once.
 *
 * The lookup by (student, course) returns the FIRST record for the pair,
 * whatever its status. So the duplicate-active guard of `create_registration`
 * only looks at that first record: once a pair has a dropped record, further
 * creates for the pair all succeed (see `ReCreateAfterDropAllowsDuplicates`).
 */
module RegistrationBook {
  import opened Wrappers
  import opened Sequences
  import opened Registrations

  /** `timedelta(days=1)` with timestamps in seconds. */
  const SECONDS_PER_DAY := 86400

  predicate ForPair(r: RegData, studentId: string, courseId: string) {
    r.studentId == studentId && r.courseId == courseId
  }

  /** The index of the first record for (student, course), whatever its status. */
  function FirstFor(rs: seq<RegData>, studentId: string, courseId: string): (r: Option<nat>)
    ensures r.Some? ==> r.value < |rs| && ForPair(rs[r.value], studentId, courseId)
    ensures r.Some? ==> forall k :: 0 <= k < r.value ==> !ForPair(rs[k], studentId, courseId)
    ensures r.None? ==> forall k :: 0 <= k < |rs| ==> !ForPair(rs[k], studentId, courseId)
  {
    if rs == [] then None
    else if ForPair(rs[0], studentId, courseId) then Some(0)
    else
      match FirstFor(rs[1..], studentId, courseId)
      case Some(i) => Some(i + 1)
      case None => None
  }

  /** The duplicate-active guard: the first record for the pair exists and is ENROLLED. */
  predicate FirstIsActive(rs: seq<RegData>, studentId: string, courseId: string) {
    var f := FirstFor(rs, studentId, courseId);
    f.Some? && rs[f.value].IsActive()
  }

  /** `create_registration`: None when refused, else the records with the new one appended. */
  function AfterCreate(rs: seq<RegData>, studentId: string, courseId: string,
                       registrationId: string, now: int): Option<seq<RegData>>
  {
    if FirstIsActive(rs, studentId, courseId) then None
    else Some(rs + [NewRegistration(registrationId, studentId, courseId, now)])
  }

  /** `drop_registration`: drops the first record for the pair if that one is ENROLLED. */
  function AfterDropFor(rs: seq<RegData>, studentId: string, courseId: string, now: int): (bool, seq<RegData>) {
    var f := FirstFor(rs, studentId, courseId);
    if f.Some? && rs[f.value].IsActive()
    then (true, rs[f.value := AfterDropCourse(rs[f.value], now).1])
    else (false, rs)
  }

  /** The index of the record with the given id. */
  function IndexOfId(rs: seq<RegData>, id: string): (r: Option<nat>)
    ensures r.Some? ==> r.value < |rs| && rs[r.value].registrationId == id
    ensures r.None? ==> forall k :: 0 <= k < |rs| ==> rs[k].registrationId != id
  {
    if rs == [] then None
    else if rs[0].registrationId == id then Some(0)
    else
      match IndexOfId(rs[1..], id)
      case Some(i) => Some(i + 1)
      case None => None
  }

  /** `update_registration_status`: any status may be set; DROPPED also stamps the drop date. */
  function AfterStatusUpdate(rs: seq<RegData>, id: string, status: Status, now: int): (bool, seq<RegData>) {
    match IndexOfId(rs, id)
    case None => (false, rs)
    case Some(i) =>
      var r := rs[i].(status := status);
      (true, rs[i := if status == Dropped then r.(dropDate := Some(now)) else r])
  }

  /** How many records have the given status. */
  function CountStatus(rs: seq<RegData>, status: Status): nat
    decreases |rs|
  {
    if rs == [] then 0
    else CountStatus(rs[..|rs| - 1], status) + (if rs[|rs| - 1].status == status then 1 else 0)
  }

  /** The statuses of the records, in order. */
  function Statuses(rs: seq<RegData>): (ss: seq<Status>)
    ensures |ss| == |rs| && forall i :: 0 <= i < |rs| ==> ss[i] == rs[i].status
  {
    seq(|rs|, i requires 0 <= i < |rs| => rs[i].status)
  }

  /** The count of a status is the number of times it occurs among the records' statuses. */
  lemma {:induction false} CountStatusIsMultiplicity(rs: seq<RegData>, status: Status)
    ensures CountStatus(rs, status) == multiset(Statuses(rs))[status]
    decreases |rs|
  {
    if rs != [] {
      var n := |rs| - 1;
      CountStatusIsMultiplicity(rs[..n], status);
      assert Statuses(rs) == Statuses(rs[..n]) + [rs[n].status];
    }
  }

  /** How many records for the pair are ENROLLED. */
  function ActiveForPair(rs: seq<RegData>, studentId: string, courseId: string): nat {
    if rs == [] then 0
    else (if ForPair(rs[0], studentId, courseId) && rs[0].IsActive() then 1 else 0)
         + ActiveForPair(rs[1..], studentId, courseId)
  }

  /** Enrolled and dropped are disjoint statuses, so together they never exceed the total. */
  lemma {:induction false} StatusCountsDisjoint(rs: seq<RegData>)
    ensures CountStatus(rs, Enrolled) + CountStatus(rs, Dropped) <= |rs|
    decreases |rs|
  {
    if rs != [] {
      StatusCountsDisjoint(rs[..|rs| - 1]);
    }
  }

  /** A percentage `part / whole * 100`; the source gives 0 when there is nothing to divide by. */
  datatype Rate = NoRegistrations | Percent(part: nat, whole: nat)

  datatype Statistics = Statistics(total: nat, active: nat, dropped: nat, enrollmentRate: Rate)

  datatype Summary = Summary(courseId: string, total: nat, active: nat, dropped: nat, retentionRate: Rate)

  /** `get_registration_statistics` over all records. */
  function StatisticsOf(rs: seq<RegData>): (st: Statistics)
    ensures st.total == |rs|
    ensures st.active == multiset(Statuses(rs))[Enrolled] && st.dropped == multiset(Statuses(rs))[Dropped]
    ensures st.active + st.dropped <= st.total
    ensures st.enrollmentRate == NoRegistrations <==> rs == []
    ensures st.enrollmentRate.Percent? ==>
              st.enrollmentRate.part == st.active && st.enrollmentRate.whole == st.total
  {
    StatusCountsDisjoint(rs);
    CountStatusIsMultiplicity(rs, Enrolled);
    CountStatusIsMultiplicity(rs, Dropped);
    var active := CountStatus(rs, Enrolled);
    Statistics(|rs|, active, CountStatus(rs, Dropped),
               if |rs| > 0 then Percent(active, |rs|) else NoRegistrations)
  }

  /** `get_course_enrollment_summary` over the records of one course. */
  function SummaryOf(courseId: string, rs: seq<RegData>): (sm: Summary)
    ensures sm.courseId == courseId && sm.total == |rs|
    ensures sm.active == multiset(Statuses(rs))[Enrolled] && sm.dropped == multiset(Statuses(rs))[Dropped]
    ensures sm.active + sm.dropped <= sm.total
    ensures sm.retentionRate == NoRegistrations <==> rs == []
    ensures sm.retentionRate.Percent? ==>
              sm.retentionRate.part == sm.active && sm.retentionRate.whole == sm.total
  {
    StatusCountsDisjoint(rs);
    CountStatusIsMultiplicity(rs, Enrolled);
    CountStatusIsMultiplicity(rs, Dropped);
    var active := CountStatus(rs, Enrolled);
    Summary(courseId, |rs|, active, CountStatus(rs, Dropped),
            if |rs| > 0 then Percent(active, |rs|) else NoRegistrations)
  }

  /** The instant `daysOld` days before `now`. */
  function Cutoff(now: int, daysOld: int): int {
    now - daysOld * SECONDS_PER_DAY
  }

  /** A record `cleanup_old_registrations` removes: DROPPED, with a drop date before the cutoff. */
  predicate Stale(r: RegData, cutoff: int) {
    r.IsDropped() && r.dropDate.Some? && r.dropDate.value < cutoff
  }

  /** The records cleanup keeps, in order. */
  function KeepFresh(rs: seq<RegData>, cutoff: int): seq<RegData>
    decreases |rs|
  {
    if rs == [] then []
    else
      var init := KeepFresh(rs[..|rs| - 1], cutoff);
      if Stale(rs[|rs| - 1], cutoff) then init else init + [rs[|rs| - 1]]
  }

  /** Cleanup keeps exactly the records that are not stale, in their order. */
  lemma {:induction false} KeepFreshSpec(rs: seq<RegData>, cutoff: int)
    ensures forall r :: r in KeepFresh(rs, cutoff) <==> r in rs && !Stale(r, cutoff)
    ensures IsSubsequence(KeepFresh(rs, cutoff), rs)
    decreases |rs|
  {
    if rs != [] {
      var n := |rs| - 1;
      KeepFreshSpec(rs[..n], cutoff);
      assert rs == rs[..n] + [rs[n]];
    }
  }

  ghost predicate DistinctData(rs: seq<RegData>) {
    forall i, j :: 0 <= i < j < |rs| ==> rs[i].registrationId != rs[j].registrationId
  }

  /** The ids of the stale records, in order: the first pass of cleanup. */
  function StaleIds(rs: seq<RegData>, cutoff: int): seq<string>
    decreases |rs|
  {
    if rs == [] then []
    else
      var n := |rs| - 1;
      var init := StaleIds(rs[..n], cutoff);
      if Stale(rs[n], cutoff) then init + [rs[n].registrationId] else init
  }

  /** Every record is either collected by the first pass or kept. */
  lemma {:induction false} StaleIdsCount(rs: seq<RegData>, cutoff: int)
    ensures |StaleIds(rs, cutoff)| + |KeepFresh(rs, cutoff)| == |rs|
    decreases |rs|
  {
    if rs != [] {
      StaleIdsCount(rs[..|rs| - 1], cutoff);
    }
  }

  /** The first cleanup pass collects the id of every stale record and nothing else. */
  lemma {:induction false} StaleIdsSpec(rs: seq<RegData>, cutoff: int)
    ensures forall id :: id in StaleIds(rs, cutoff) ==>
              exists k :: 0 <= k < |rs| && rs[k].registrationId == id && Stale(rs[k], cutoff)
    ensures forall k :: 0 <= k < |rs| && Stale(rs[k], cutoff) ==> rs[k].registrationId in StaleIds(rs, cutoff)
    decreases |rs|
  {
    if rs != [] {
      var n := |rs| - 1;
      var init := StaleIds(rs[..n], cutoff);
      StaleIdsSpec(rs[..n], cutoff);
      forall id | id in StaleIds(rs, cutoff)
        ensures exists k :: 0 <= k < |rs| && rs[k].registrationId == id && Stale(rs[k], cutoff)
      {
        if id in init {
          var k :| 0 <= k < n && rs[..n][k].registrationId == id && Stale(rs[..n][k], cutoff);
          assert rs[..n][k] == rs[k];
        } else {
          assert rs[n].registrationId == id && Stale(rs[n], cutoff);
        }
      }
      forall k | 0 <= k < |rs| && Stale(rs[k], cutoff)
        ensures rs[k].registrationId in StaleIds(rs, cutoff)
      {
        if k < n {
          assert rs[..n][k] == rs[k];
        }
      }
    }
  }

  ghost predicate NoDuplicates(s: seq<string>) {
    forall i, j :: 0 <= i < j < |s| ==> s[i] != s[j]
  }

  /** Distinct record ids give distinct stale ids, so the second cleanup pass deletes each id once. */
  lemma {:induction false} StaleIdsDistinct(rs: seq<RegData>, cutoff: int)
    requires DistinctData(rs)
    ensures NoDuplicates(StaleIds(rs, cutoff))
    decreases |rs|
  {
    if rs != [] {
      var n := |rs| - 1;
      assert forall k :: 0 <= k < n ==> rs[..n][k] == rs[k];
      StaleIdsDistinct(rs[..n], cutoff);
      var init := StaleIds(rs[..n], cutoff);
      assert !Stale(rs[n], cutoff) ==> StaleIds(rs, cutoff) == init;
      if Stale(rs[n], cutoff) {
        StaleIdsSpec(rs[..n], cutoff);
        forall i | 0 <= i < |init|
          ensures init[i] != rs[n].registrationId
        {
          assert init[i] in init;
          var k :| 0 <= k < n && rs[..n][k].registrationId == init[i] && Stale(rs[..n][k], cutoff);
        }
        var ids := init + [rs[n].registrationId];
        assert StaleIds(rs, cutoff) == ids;
        forall i, j | 0 <= i < j < |ids|
          ensures ids[i] != ids[j]
        {
          assert ids[i] == init[i];
          if j < |init| {
            assert ids[j] == init[j];
          } else {
            assert ids[j] == rs[n].registrationId;
          }
        }
      }
    }
  }

  /** Cleanup never removes a record that is not DROPPED, however old it is. */
  lemma CleanupKeepsOtherStatuses(rs: seq<RegData>, cutoff: int, r: RegData)
    requires r in rs && r.status != Dropped
    ensures r in KeepFresh(rs, cutoff)
  {
    KeepFreshSpec(rs, cutoff);
  }

  /** With no record yet for the pair, a create succeeds and an immediate second create is refused. */
  lemma {:induction false} SecondCreateRefused(rs: seq<RegData>, studentId: string, courseId: string,
                                               id1: string, id2: string, t1: int, t2: int)
    requires FirstFor(rs, studentId, courseId).None?
    ensures AfterCreate(rs, studentId, courseId, id1, t1).Some?
    ensures AfterCreate(AfterCreate(rs, studentId, courseId, id1, t1).value, studentId, courseId, id2, t2).None?
  {
    var rs1 := rs + [NewRegistration(id1, studentId, courseId, t1)];
    var f := FirstFor(rs1, studentId, courseId);
    assert ForPair(rs1[|rs|], studentId, courseId);
    assert f.Some? && f.value == |rs|;
  }

  /**
   * create, drop, create, create for one pair: the first record stays the
   * dropped one, so both later creates succeed and the pair ends up with two
   * ENROLLED records, neither of which `drop_registration` can reach.
   */
  lemma ReCreateAfterDropAllowsDuplicates(studentId: string, courseId: string,
                                          id1: string, id2: string, id3: string,
                                          t1: int, t2: int, t3: int, t4: int)
    ensures var rs1 := AfterCreate([], studentId, courseId, id1, t1);
            rs1.Some? &&
            var (dropped, rs2) := AfterDropFor(rs1.value, studentId, courseId, t2);
            dropped &&
            var rs3 := AfterCreate(rs2, studentId, courseId, id2, t3);
            rs3.Some? &&
            var rs4 := AfterCreate(rs3.value, studentId, courseId, id3, t4);
            rs4.Some? &&
            ActiveForPair(rs4.value, studentId, courseId) == 2 &&
            AfterDropFor(rs4.value, studentId, courseId, t4) == (false, rs4.value)
  {
    var r1 := NewRegistration(id1, studentId, courseId, t1);
    var d1 := r1.(status := Dropped, dropDate := Some(t2));
    var r2 := NewRegistration(id2, studentId, courseId, t3);
    var r3 := NewRegistration(id3, studentId, courseId, t4);
    assert FirstFor([], studentId, courseId) == None;
    assert [] + [r1] == [r1];
    assert FirstFor([r1], studentId, courseId) == Some(0);
    assert [r1][0 := d1] == [d1];
    assert FirstFor([d1], studentId, courseId) == Some(0);
    assert [d1] + [r2] == [d1, r2];
    assert FirstFor([d1, r2], studentId, courseId) == Some(0);
    assert [d1, r2] + [r3] == [d1, r2, r3];
    assert FirstFor([d1, r2, r3], studentId, courseId) == Some(0);
    assert [d1, r2, r3][1..] == [r2, r3] && [r2, r3][1..] == [r3] && [r3][1..] == [];
    assert ActiveForPair([r3], studentId, courseId) == 1;
    assert ActiveForPair([r2, r3], studentId, courseId) == 2;
  }

  /** A successful drop changes exactly the first record for the pair, and only its status and drop date. */
  lemma DropForChangesOneRecord(rs: seq<RegData>, studentId: string, courseId: string, now: int)
    ensures var (ok, rs') := AfterDropFor(rs, studentId, courseId, now);
            |rs'| == |rs| &&
            (ok <==> FirstIsActive(rs, studentId, courseId)) &&
            (ok ==> var i := FirstFor(rs, studentId, courseId).value;
                    rs'[i] == rs[i].(status := Dropped, dropDate := Some(now)) &&
                    forall k :: 0 <= k < |rs| && k != i ==> rs'[k] == rs[k]) &&
            (!ok ==> rs' == rs)
  {
  }

  // ---------------------------------------------------------------- objects

  /** The values of a sequence of registration objects. */
  function DataOf(rs: seq<Registration>): (ds: seq<RegData>)
    reads rs
    ensures |ds| == |rs|
    ensures forall i :: 0 <= i < |rs| ==> ds[i] == rs[i].Data()
  {
    seq(|rs|, i requires 0 <= i < |rs| reads rs => rs[i].Data())
  }

  ghost predicate DistinctIds(rs: seq<Registration>) {
    forall i, j :: 0 <= i < j < |rs| ==> rs[i].registrationId != rs[j].registrationId
  }

  /** The objects whose ids are not in `ids`, in order (the `del` of the second cleanup pass). */
  function WithoutIds(rs: seq<Registration>, ids: set<string>): seq<Registration>
    decreases |rs|
  {
    if rs == [] then []
    else
      var n := |rs| - 1;
      var init := WithoutIds(rs[..n], ids);
      if rs[n].registrationId in ids then init else init + [rs[n]]
  }

  /** Deleting `ids` keeps exactly the objects whose id is not among them, and keeps ids distinct. */
  lemma WithoutIdsSpec(rs: seq<Registration>, ids: set<string>)
    ensures forall x :: x in WithoutIds(rs, ids) ==> x in rs && x.registrationId !in ids
    ensures forall x :: x in rs && x.registrationId !in ids ==> x in WithoutIds(rs, ids)
    ensures DistinctIds(rs) ==> DistinctIds(WithoutIds(rs, ids))
  {
    WithoutIdsMembers(rs, ids);
    if DistinctIds(rs) {
      WithoutIdsDistinct(rs, ids);
    }
  }

  lemma {:induction false} WithoutIdsMembers(rs: seq<Registration>, ids: set<string>)
    ensures forall x :: x in WithoutIds(rs, ids) ==> x in rs && x.registrationId !in ids
    ensures forall x :: x in rs && x.registrationId !in ids ==> x in WithoutIds(rs, ids)
    decreases |rs|
  {
    if rs != [] {
      var n := |rs| - 1;
      WithoutIdsMembers(rs[..n], ids);
      assert rs == rs[..n] + [rs[n]];
    }
  }

  lemma {:induction false} WithoutIdsDistinct(rs: seq<Registration>, ids: set<string>)
    requires DistinctIds(rs)
    ensures DistinctIds(WithoutIds(rs, ids))
    decreases |rs|
  {
    if rs != [] {
      var n := |rs| - 1;
      var front := rs[..n];
      assert DistinctIds(front);
      WithoutIdsDistinct(front, ids);
      if rs[n].registrationId !in ids {
        var init := WithoutIds(front, ids);
        WithoutIdsMembers(front, ids);
        var r := init + [rs[n]];
        forall i, j | 0 <= i < j < |r|
          ensures r[i].registrationId != r[j].registrationId
        {
          if j < |init| {
            assert r[i] == init[i] && r[j] == init[j];
          } else {
            assert r[i] == init[i] && init[i] in init;
            var m :| 0 <= m < n && front[m] == r[i];
            assert rs[m] == r[i];
          }
        }
      }
    }
  }

  lemma {:induction false} WithoutNoIds(rs: seq<Registration>)
    ensures WithoutIds(rs, {}) == rs
    decreases |rs|
  {
    if rs != [] {
      WithoutNoIds(rs[..|rs| - 1]);
      assert rs[..|rs| - 1] + [rs[|rs| - 1]] == rs;
    }
  }

  lemma {:induction false} WithoutMoreIds(rs: seq<Registration>, ids: set<string>, id: string)
    ensures WithoutIds(WithoutIds(rs, ids), {id}) == WithoutIds(rs, ids + {id})
    decreases |rs|
  {
    if rs != [] {
      WithoutMoreIds(rs[..|rs| - 1], ids, id);
    }
  }

  /** Removing exactly the stale records' ids leaves exactly the records cleanup keeps. */
  lemma {:induction false} WithoutStaleIsKeepFresh(rs: seq<Registration>, ids: set<string>, cutoff: int)
    requires forall x :: x in rs ==> (x.registrationId in ids <==> Stale(x.Data(), cutoff))
    ensures DataOf(WithoutIds(rs, ids)) == KeepFresh(DataOf(rs), cutoff)
    decreases |rs|
  {
    if rs != [] {
      var n := |rs| - 1;
      assert forall x :: x in rs[..n] ==> x in rs;
      WithoutStaleIsKeepFresh(rs[..n], ids, cutoff);
      assert rs[n] in rs;
      WithoutStaleStep(rs, ids, cutoff);
    }
  }

  /** The inductive step: the last object is deleted exactly when its record is dropped. */
  lemma WithoutStaleStep(rs: seq<Registration>, ids: set<string>, cutoff: int)
    requires rs != []
    requires rs[|rs| - 1].registrationId in ids <==> Stale(rs[|rs| - 1].Data(), cutoff)
    requires DataOf(WithoutIds(rs[..|rs| - 1], ids)) == KeepFresh(DataOf(rs[..|rs| - 1]), cutoff)
    ensures DataOf(WithoutIds(rs, ids)) == KeepFresh(DataOf(rs), cutoff)
  {
    var n := |rs| - 1;
    var ds := DataOf(rs);
    assert ds[..n] == DataOf(rs[..n]);
    var stale := Stale(ds[n], cutoff);
    assert KeepFresh(ds, cutoff) == if stale then KeepFresh(ds[..n], cutoff)
                                    else KeepFresh(ds[..n], cutoff) + [ds[n]];
    assert WithoutIds(rs, ids) == if stale then WithoutIds(rs[..n], ids)
                                  else WithoutIds(rs[..n], ids) + [rs[n]];
    DataOfAppend(WithoutIds(rs[..n], ids), rs[n]);
  }

  lemma DataOfAppend(rs: seq<Registration>, x: Registration)
    ensures DataOf(rs + [x]) == DataOf(rs) + [x.Data()]
  {
    assert forall i :: 0 <= i < |rs| ==> (rs + [x])[i] == rs[i];
  }

  /**
   * One step of the second cleanup pass: the next id is still present (so
   * `del` finds it) and deleting it extends the set of deleted ids.
   */
  lemma RemovalStep(r0: seq<Registration>, ids: seq<string>, k: nat, cutoff: int)
    requires DistinctIds(r0) && ids == StaleIds(DataOf(r0), cutoff) && k < |ids|
    ensures exists x :: x in WithoutIds(r0, Elements(ids[..k])) && x.registrationId == ids[k]
    ensures WithoutIds(WithoutIds(r0, Elements(ids[..k])), {ids[k]}) == WithoutIds(r0, Elements(ids[..k + 1]))
  {
    NextIdPresent(r0, ids, k, cutoff);
    WithoutMoreIds(r0, Elements(ids[..k]), ids[k]);
    assert ids[..k + 1] == ids[..k] + [ids[k]];
    assert Elements(ids[..k + 1]) == Elements(ids[..k]) + {ids[k]};
  }

  lemma NextIdPresent(r0: seq<Registration>, ids: seq<string>, k: nat, cutoff: int)
    requires DistinctIds(r0) && ids == StaleIds(DataOf(r0), cutoff) && k < |ids|
    ensures exists x :: x in WithoutIds(r0, Elements(ids[..k])) && x.registrationId == ids[k]
  {
    var v0 := DataOf(r0);
    StaleIdsSpec(v0, cutoff);
    assert ids[k] in ids;
    var m :| 0 <= m < |v0| && v0[m].registrationId == ids[k] && Stale(v0[m], cutoff);
    assert ids[k] !in Elements(ids[..k]) by {
      StaleIdsDistinct(v0, cutoff);
    }
    WithoutIdsSpec(r0, Elements(ids[..k]));
    assert r0[m] in WithoutIds(r0, Elements(ids[..k]));
  }

  /** After the second pass has deleted every collected id, exactly the kept records remain. */
  lemma CleanupOutcome(r0: seq<Registration>, ids: seq<string>, cutoff: int)
    requires DistinctIds(r0) && ids == StaleIds(DataOf(r0), cutoff)
    ensures DataOf(WithoutIds(r0, Elements(ids))) == KeepFresh(DataOf(r0), cutoff)
    ensures |ids| == |r0| - |WithoutIds(r0, Elements(ids))|
  {
    var v0 := DataOf(r0);
    StaleIdsSpec(v0, cutoff);
    StaleIdsCount(v0, cutoff);
    forall x | x in r0
      ensures x.registrationId in Elements(ids) <==> Stale(x.Data(), cutoff)
    {
      var m :| 0 <= m < |r0| && r0[m] == x;
      if x.registrationId in Elements(ids) {
        var m' :| 0 <= m' < |v0| && v0[m'].registrationId == x.registrationId && Stale(v0[m'], cutoff);
        assert m' == m;
      }
    }
    WithoutStaleIsKeepFresh(r0, Elements(ids), cutoff);
  }

  /** The set of the elements of a sequence. */
  ghost function Elements(s: seq<string>): set<string> {
    set x | x in s
  }

  /** The query kinds of the four list queries. */
  datatype Query =
    | OfStudent(studentId: string)
    | OfCourse(courseId: string)
    | ActiveOfStudent(studentId: string)
    | ActiveOfCourse(courseId: string)

  predicate Wanted(q: Query, r: RegData) {
    match q
    case OfStudent(s) => r.studentId == s
    case OfCourse(c) => r.courseId == c
    case ActiveOfStudent(s) => r.studentId == s && r.IsActive()
    case ActiveOfCourse(c) => r.courseId == c && r.IsActive()
  }

  /** The objects that answer `q`, in insertion order. */
  function Pick(rs: seq<Registration>, q: Query): (r: seq<Registration>)
    reads rs
    ensures forall x :: x in r ==> x in rs && Wanted(q, x.Data())
    ensures forall x :: x in rs && Wanted(q, x.Data()) ==> x in r
    ensures IsSubsequence(r, rs)
    decreases |rs|
  {
    if rs == [] then []
    else
      var init := Pick(rs[..|rs| - 1], q);
      if Wanted(q, rs[|rs| - 1].Data()) then init + [rs[|rs| - 1]] else init
  }

  /** Counting the ENROLLED records among a course's records counts its active-records query. */
  lemma {:induction false} ActiveOfCourseCount(rs: seq<Registration>, courseId: string)
    ensures CountStatus(DataOf(Pick(rs, OfCourse(courseId))), Enrolled) == |Pick(rs, ActiveOfCourse(courseId))|
    decreases |rs|
  {
    if rs != [] {
      var n := |rs| - 1;
      ActiveOfCourseCount(rs[..n], courseId);
      var all := Pick(rs[..n], OfCourse(courseId));
      if Wanted(OfCourse(courseId), rs[n].Data()) {
        var ds := DataOf(all + [rs[n]]);
        assert ds[..|ds| - 1] == DataOf(all);
      }
    }
  }

  class RegistrationManager {
    var regs: seq<Registration>

    ghost predicate Valid()
      reads this
    {
      DistinctIds(regs)
    }

    /** The records' current values in insertion order. */
    function View(): seq<RegData>
      reads this, regs
    {
      DataOf(regs)
    }

    constructor ()
      ensures Valid() && regs == []
    {
      regs := [];
    }

    /** `get_registration`. */
    function GetRegistration(id: string): (r: Option<Registration>)
      reads this, regs
      ensures r.Some? ==> r.value in regs && r.value.registrationId == id
      ensures r.None? ==> forall x :: x in regs ==> x.registrationId != id
    {
      match IndexOfId(View(), id)
      case Some(i) => Some(regs[i])
      case None => None
    }

    /** `get_registration_by_student_and_course`: the first record for the pair, whatever its status. */
    function GetByStudentAndCourse(studentId: string, courseId: string): (r: Option<Registration>)
      reads this, regs
      ensures r.Some? ==> exists i :: 0 <= i < |regs| && regs[i] == r.value &&
                            r.value.studentId == studentId && r.value.courseId == courseId &&
                            forall k :: 0 <= k < i ==> !(regs[k].studentId == studentId && regs[k].courseId == courseId)
      ensures r.None? ==> forall x :: x in regs ==> !(x.studentId == studentId && x.courseId == courseId)
    {
      match FirstFor(View(), studentId, courseId)
      case Some(i) => Some(regs[i])
      case None => None
    }

    /** `create_registration`; the fresh id stands for the uuid the source draws. */
    method CreateRegistration(studentId: string, courseId: string, freshId: string, now: int)
      returns (r: Option<Registration>)
      requires Valid()
      requires forall x :: x in regs ==> x.registrationId != freshId
      modifies this
      ensures Valid()
      ensures r.None? <==> old(FirstIsActive(View(), studentId, courseId))
      ensures r.None? ==> regs == old(regs)
      ensures r.Some? ==> fresh(r.value) && regs == old(regs) + [r.value]
      ensures AfterCreate(old(View()), studentId, courseId, freshId, now) ==
                if r.None? then None else Some(View())
    {
      ghost var f := FirstFor(View(), studentId, courseId);
      var existing := GetByStudentAndCourse(studentId, courseId);
      assert existing.Some? <==> f.Some?;
      assert existing.Some? ==> existing.value == regs[f.value];
      if existing.Some? && existing.value.status == Enrolled {
        return None;
      }
      var reg := new Registration(studentId, courseId, freshId, now);
      regs := regs + [reg];
      r := Some(reg);
      assert View() == old(View()) + [NewRegistration(freshId, studentId, courseId, now)];
    }

    /** `drop_registration`. */
    method DropRegistration(studentId: string, courseId: string, now: int) returns (ok: bool)
      requires Valid()
      modifies regs
      ensures (ok, View()) == AfterDropFor(old(View()), studentId, courseId, now)
    {
      ghost var f := FirstFor(View(), studentId, courseId);
      var existing := GetByStudentAndCourse(studentId, courseId);
      ok := false;
      if existing.Some? && existing.value.status == Enrolled {
        ghost var i := f.value;
        assert existing.value == regs[i];
        ok := existing.value.DropCourse(now);
        assert forall k :: 0 <= k < |regs| && k != i ==> regs[k] != regs[i];
        assert View() == old(View())[i := AfterDropCourse(old(View())[i], now).1];
      }
    }

    /** `update_registration_status`, over the status field and the drop date it stamps. */
    method UpdateRegistrationStatus(id: string, status: Status, now: int) returns (ok: bool)
      requires Valid()
      modifies regs
      ensures (ok, View()) == AfterStatusUpdate(old(View()), id, status, now)
    {
      ghost var f := IndexOfId(View(), id);
      var found := GetRegistration(id);
      ok := found.Some?;
      if ok {
        var reg := found.value;
        ghost var i := f.value;
        assert reg == regs[i];
        reg.status := status;
        if status == Dropped {
          reg.dropDate := Some(now);
        }
        assert forall k :: 0 <= k < |regs| && k != i ==> regs[k] != regs[i];
        assert View() == AfterStatusUpdate(old(View()), id, status, now).1;
      }
    }

    /** `get_student_registrations`. */
    function StudentRegistrations(studentId: string): (r: seq<Registration>)
      reads this, regs
      ensures forall x :: x in r ==> x in regs && x.studentId == studentId
      ensures forall x :: x in regs && x.studentId == studentId ==> x in r
      ensures IsSubsequence(r, regs)
    {
      Pick(regs, OfStudent(studentId))
    }

    /** `get_course_registrations`. */
    function CourseRegistrations(courseId: string): (r: seq<Registration>)
      reads this, regs
      ensures forall x :: x in r ==> x in regs && x.courseId == courseId
      ensures forall x :: x in regs && x.courseId == courseId ==> x in r
      ensures IsSubsequence(r, regs)
    {
      Pick(regs, OfCourse(courseId))
    }

    /** `get_active_student_registrations`. */
    function ActiveStudentRegistrations(studentId: string): (r: seq<Registration>)
      reads this, regs
      ensures forall x :: x in r ==> x in regs && x.studentId == studentId && x.status == Enrolled
      ensures forall x :: x in regs && x.studentId == studentId && x.status == Enrolled ==> x in r
      ensures IsSubsequence(r, regs)
    {
      Pick(regs, ActiveOfStudent(studentId))
    }

    /** `get_active_course_registrations`. */
    function ActiveCourseRegistrations(courseId: string): (r: seq<Registration>)
      reads this, regs
      ensures forall x :: x in r ==> x in regs && x.courseId == courseId && x.status == Enrolled
      ensures forall x :: x in regs && x.courseId == courseId && x.status == Enrolled ==> x in r
      ensures IsSubsequence(r, regs)
    {
      Pick(regs, ActiveOfCourse(courseId))
    }

    /** `get_registration_statistics`. */
    function GetStatistics(): (st: Statistics)
      reads this, regs
      ensures st.total == |regs| && st.active + st.dropped <= st.total
      ensures st.active == multiset(Statuses(View()))[Enrolled]
      ensures st.dropped == multiset(Statuses(View()))[Dropped]
      ensures st.enrollmentRate == NoRegistrations <==> regs == []
      ensures st.enrollmentRate.Percent? ==> st.enrollmentRate == Percent(st.active, st.total)
    {
      StatisticsOf(View())
    }

    /** `get_course_enrollment_summary`. */
    function GetCourseEnrollmentSummary(courseId: string): (sm: Summary)
      reads this, regs
      ensures sm.courseId == courseId && sm.active + sm.dropped <= sm.total
      ensures sm.total == |CourseRegistrations(courseId)|
      ensures sm.active == |ActiveCourseRegistrations(courseId)|
      ensures sm.dropped == multiset(Statuses(DataOf(CourseRegistrations(courseId))))[Dropped]
      ensures sm.retentionRate == NoRegistrations <==> CourseRegistrations(courseId) == []
      ensures sm.retentionRate.Percent? ==> sm.retentionRate == Percent(sm.active, sm.total)
    {
      ActiveOfCourseCount(regs, courseId);
      SummaryOf(courseId, DataOf(CourseRegistrations(courseId)))
    }

    /**
     * `cleanup_old_registrations`: a first pass collects the ids of the DROPPED
     * records whose drop date is before `now - daysOld` days, a second pass
     * deletes them one by one, counting.
     */
    method CleanupOldRegistrations(daysOld: int, now: int) returns (removed: int)
      requires Valid()
      modifies this
      ensures Valid()
      ensures View() == KeepFresh(old(View()), Cutoff(now, daysOld))
      ensures forall x :: x in regs ==> x in old(regs)
      ensures removed == |old(regs)| - |regs|
    {
      var cutoff := Cutoff(now, daysOld);
      ghost var r0 := regs;
      ghost var v0 := View();
      var toRemove := CollectStaleIds(cutoff);
      removed := DeleteIds(toRemove, cutoff, r0, v0);
      CleanupOutcome(r0, toRemove, cutoff);
      WithoutIdsSpec(r0, Elements(toRemove));
    }

    /** The first pass of cleanup: the ids of the stale records, in order. */
    method CollectStaleIds(cutoff: int) returns (ids: seq<string>)
      ensures ids == StaleIds(View(), cutoff)
    {
      ghost var v := View();
      ids := [];
      var i := 0;
      while i < |regs|
        invariant 0 <= i <= |regs|
        invariant ids == StaleIds(v[..i], cutoff)
      {
        var reg := regs[i];
        assert reg.Data() == v[i];
        if reg.status == Dropped && reg.dropDate.Some? && reg.dropDate.value < cutoff {
          ids := ids + [reg.registrationId];
        }
        assert v[..i + 1][..i] == v[..i];
        i := i + 1;
      }
      assert v[..i] == v;
    }

    /** The second pass of cleanup: deletes the collected ids one by one and counts them. */
    method DeleteIds(ids: seq<string>, cutoff: int, ghost r0: seq<Registration>, ghost v0: seq<RegData>)
      returns (removed: int)
      requires Valid() && regs == r0 && v0 == DataOf(r0) && ids == StaleIds(v0, cutoff)
      modifies this
      ensures regs == WithoutIds(r0, Elements(ids)) && removed == |ids| && v0 == DataOf(r0)
    {
      removed := 0;
      var k := 0;
      WithoutNoIds(r0);
      assert Elements(ids[..0]) == {};
      while k < |ids|
        invariant 0 <= k <= |ids| && removed == k
        invariant regs == WithoutIds(r0, Elements(ids[..k]))
        invariant v0 == DataOf(r0)
      {
        RemovalStep(r0, ids, k, cutoff);
        regs := WithoutIds(regs, {ids[k]});
        removed := removed + 1;
        k := k + 1;
      }
      assert ids[..k] == ids;
    }
  }
}
