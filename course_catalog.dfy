/**
 * The course catalog (app/models/course.py, class CourseManager): an
 * insertion-ordered table of course objects keyed by their ids, with soft
 * delete, filters and the pairwise schedule-conflict scan over a student's
 * course list. The source makes it a process-wide singleton; here it is an
 * ordinary object that its owner constructs once.
 */
module CourseCatalog {
  import opened Wrappers
  import opened Text
  import Schedules
  import opened Courses
  import opened Sequences

  /** The table's keys are the courses' own ids, so no id occurs twice. */
  ghost predicate DistinctIds(cs: seq<Course>) {
    forall i, j :: 0 <= i < j < |cs| ==> cs[i].courseId != cs[j].courseId
  }

  /** The filters the catalog offers. */
  datatype Criterion =
    | Active
    | ByInstructor(instructor: string)
    | ByCredits(minCredits: int, maxCredits: Option<int>)

  predicate Matches(k: Criterion, c: CourseData) {
    match k
    case Active => c.isActive
    case ByInstructor(name) => Lower(c.instructor) == Lower(name)
    case ByCredits(lo, hi) => lo <= c.credits && (hi.None? || c.credits <= hi.value)
  }

  /** The courses of `cs` that match `k`, in table order. */
  function Select(cs: seq<Course>, k: Criterion): (r: seq<Course>)
    reads cs
    ensures forall c :: c in r ==> c in cs && Matches(k, c.Data())
    ensures forall c :: c in cs && Matches(k, c.Data()) ==> c in r
    ensures IsSubsequence(r, cs)
    decreases |cs|
  {
    if cs == [] then []
    else
      var init := Select(cs[..|cs| - 1], k);
      if Matches(k, cs[|cs| - 1].Data()) then init + [cs[|cs| - 1]] else init
  }

  /** The first course with the given id (with distinct ids, the only one). */
  function Find(cs: seq<Course>, id: string): (r: Option<Course>)
    ensures r.Some? ==> r.value in cs && r.value.courseId == id
    ensures r.None? ==> forall c :: c in cs ==> c.courseId != id
  {
    if cs == [] then None
    else if cs[0].courseId == id then Some(cs[0])
    else Find(cs[1..], id)
  }

  /** One reported conflict; the source also tags each with the constant type "schedule". */
  datatype Conflict = Conflict(course1: string, course2: string)

  /** What the conflict scan looks at in a course: its id and schedule. */
  datatype Entry = Entry(id: string, schedule: Option<Schedules.Schedule>)

  function Entries(cs: seq<Course>): (es: seq<Entry>)
    reads cs
    ensures |es| == |cs|
  {
    seq(|cs|, i requires 0 <= i < |cs| reads cs => Entry(cs[i].courseId, cs[i].schedule))
  }

  /** The ids of a list of courses, in list order. */
  function CourseIds(cs: seq<Course>): (ids: seq<string>)
    ensures |ids| == |cs|
    ensures forall i :: 0 <= i < |cs| ==> ids[i] == cs[i].courseId
  {
    seq(|cs|, i requires 0 <= i < |cs| => cs[i].courseId)
  }

  ghost predicate DistinctStrings(xs: seq<string>) {
    forall i, j :: 0 <= i < j < |xs| ==> xs[i] != xs[j]
  }

  predicate ConflictAt(es: seq<Entry>, i: int, j: int)
    requires 0 <= i < |es| && 0 <= j < |es|
  {
    Schedules.ConflictsWith(es[i].schedule, es[j].schedule) == Some(true)
  }

  predicate FailsAt(es: seq<Entry>, i: int, j: int)
    requires 0 <= i < |es| && 0 <= j < |es|
  {
    Schedules.ConflictsWith(es[i].schedule, es[j].schedule).None?
  }

  /** The inner loop: `a` against each of `others` in order; None when a comparison raises. */
  function Row(a: Entry, others: seq<Entry>): Option<seq<Conflict>>
    decreases |others|
  {
    if others == [] then Some([])
    else
      var init :- Row(a, others[..|others| - 1]);
      var b := others[|others| - 1];
      var hit :- Schedules.ConflictsWith(a.schedule, b.schedule);
      Some(if hit then init + [Conflict(a.id, b.id)] else init)
  }

  /** The first `n` rounds of the outer loop: course i against every later course, for i < n. */
  function Rows(es: seq<Entry>, n: nat): Option<seq<Conflict>>
    requires n <= |es|
  {
    if n == 0 then Some([])
    else
      var init :- Rows(es, n - 1);
      var row :- Row(es[n - 1], es[n..]);
      Some(init + row)
  }

  /** `get_courses_with_conflicts` on resolved courses: every pair i < j, in loop order. */
  function ScanConflicts(es: seq<Entry>): Option<seq<Conflict>> {
    Rows(es, |es|)
  }

  /** The outcome of comparing `a` with each of `others`, in order. */
  function Outcomes(a: Entry, others: seq<Entry>): (outs: seq<Option<bool>>)
    ensures |outs| == |others|
  {
    seq(|others|, j requires 0 <= j < |others| => Schedules.ConflictsWith(a.schedule, others[j].schedule))
  }

  /** `Row` once the comparisons have been made: the same fold over precomputed outcomes. */
  function RowOf(id: string, others: seq<Entry>, outs: seq<Option<bool>>): Option<seq<Conflict>>
    requires |outs| == |others|
    decreases |others|
  {
    if others == [] then Some([])
    else
      var n := |others| - 1;
      var init :- RowOf(id, others[..n], outs[..n]);
      var hit :- outs[n];
      Some(if hit then init + [Conflict(id, others[n].id)] else init)
  }

  lemma {:induction false} RowIsRowOf(a: Entry, others: seq<Entry>)
    ensures Row(a, others) == RowOf(a.id, others, Outcomes(a, others))
    decreases |others|
  {
    if others != [] {
      var n := |others| - 1;
      RowIsRowOf(a, others[..n]);
      var outs := Outcomes(a, others);
      assert Outcomes(a, others[..n]) == outs[..n];
      assert outs[n] == Schedules.ConflictsWith(a.schedule, others[n].schedule);
    }
  }

  /** One round of the inner loop fails exactly when some comparison in it raises. */
  lemma RowFailSpec(a: Entry, others: seq<Entry>)
    ensures Row(a, others).None? <==>
              exists j :: 0 <= j < |others| && Schedules.ConflictsWith(a.schedule, others[j].schedule).None?
  {
    RowIsRowOf(a, others);
    var outs := Outcomes(a, others);
    RowOfFailSpec(a.id, others, outs);
    forall j | 0 <= j < |others|
      ensures outs[j] == Schedules.ConflictsWith(a.schedule, others[j].schedule)
    {
    }
  }

  lemma {:induction false} RowOfFailSpec(id: string, others: seq<Entry>, outs: seq<Option<bool>>)
    requires |outs| == |others|
    ensures RowOf(id, others, outs).None? <==> exists j :: 0 <= j < |outs| && outs[j].None?
    decreases |others|
  {
    if others != [] {
      var n := |others| - 1;
      RowOfFailSpec(id, others[..n], outs[..n]);
      assert forall j :: 0 <= j < n ==> outs[..n][j] == outs[j];
    }
  }

  /** One round of the inner loop reports exactly the later courses that conflict with the current one. */
  lemma RowHitsSpec(a: Entry, others: seq<Entry>)
    requires Row(a, others).Some?
    ensures forall x, y :: Conflict(x, y) in Row(a, others).value <==>
              x == a.id &&
              (exists j :: 0 <= j < |others| && others[j].id == y &&
                 Schedules.ConflictsWith(a.schedule, others[j].schedule) == Some(true))
  {
    RowIsRowOf(a, others);
    var outs := Outcomes(a, others);
    RowOfHitsSpec(a.id, others, outs);
    forall j | 0 <= j < |others|
      ensures outs[j] == Schedules.ConflictsWith(a.schedule, others[j].schedule)
    {
    }
  }

  lemma {:induction false} RowOfHitsSpec(id: string, others: seq<Entry>, outs: seq<Option<bool>>)
    requires |outs| == |others| && RowOf(id, others, outs).Some?
    ensures forall x, y :: Conflict(x, y) in RowOf(id, others, outs).value <==>
              x == id && (exists j :: 0 <= j < |others| && others[j].id == y && outs[j] == Some(true))
    decreases |others|
  {
    if others != [] {
      var n := |others| - 1;
      RowOfHitsSpec(id, others[..n], outs[..n]);
      assert forall j :: 0 <= j < n ==> others[..n][j] == others[j] && outs[..n][j] == outs[j];
    }
  }

  lemma RowSpec(a: Entry, others: seq<Entry>)
    ensures Row(a, others).None? <==>
              exists j :: 0 <= j < |others| && Schedules.ConflictsWith(a.schedule, others[j].schedule).None?
    ensures Row(a, others).Some? ==>
              forall x, y :: Conflict(x, y) in Row(a, others).value <==>
                x == a.id &&
                (exists j :: 0 <= j < |others| && others[j].id == y &&
                   Schedules.ConflictsWith(a.schedule, others[j].schedule) == Some(true))
  {
    RowFailSpec(a, others);
    if Row(a, others).Some? {
      RowHitsSpec(a, others);
    }
  }

  lemma {:induction false} RowsSpec(es: seq<Entry>, n: nat)
    requires n <= |es|
    ensures Rows(es, n).None? <==> exists i, j :: 0 <= i < n && i < j < |es| && FailsAt(es, i, j)
    ensures Rows(es, n).Some? ==>
              forall x, y :: Conflict(x, y) in Rows(es, n).value <==>
                exists i, j :: 0 <= i < n && i < j < |es| && es[i].id == x && es[j].id == y &&
                  ConflictAt(es, i, j)
  {
    if n > 0 {
      RowsSpec(es, n - 1);
      var rest := es[n..];
      RowSpec(es[n - 1], rest);
      assert forall j :: 0 <= j < |rest| ==> rest[j] == es[n + j];
      if Rows(es, n).None? {
        if Rows(es, n - 1).Some? {
          var j :| 0 <= j < |rest| && Schedules.ConflictsWith(es[n - 1].schedule, rest[j].schedule).None?;
          assert FailsAt(es, n - 1, n + j);
        }
      } else {
        forall i, j | 0 <= i < n && i < j < |es| ensures !FailsAt(es, i, j) {
          if i == n - 1 {
            assert rest[j - n] == es[j];
          }
        }
        forall x, y ensures Conflict(x, y) in Rows(es, n).value <==>
            exists i, j :: 0 <= i < n && i < j < |es| && es[i].id == x && es[j].id == y &&
              ConflictAt(es, i, j)
        {
          if Conflict(x, y) in Row(es[n - 1], rest).value {
            var j :| 0 <= j < |rest| && rest[j].id == y &&
                     Schedules.ConflictsWith(es[n - 1].schedule, rest[j].schedule) == Some(true);
            assert ConflictAt(es, n - 1, n + j);
          }
          if exists i, j :: 0 <= i < n && i < j < |es| && es[i].id == x && es[j].id == y &&
              ConflictAt(es, i, j) {
            var i, j :| 0 <= i < n && i < j < |es| && es[i].id == x && es[j].id == y &&
                       ConflictAt(es, i, j);
            if i == n - 1 {
              assert rest[j - n] == es[j];
            }
          }
        }
      }
    }
  }

  /**
   * The scan fails exactly when some pair i < j cannot be compared; otherwise it
   * reports exactly the pairs i < j whose schedules conflict, first id first.
   */
  lemma ScanConflictsSpec(es: seq<Entry>)
    ensures ScanConflicts(es).None? <==> exists i, j :: 0 <= i < j < |es| && FailsAt(es, i, j)
    ensures ScanConflicts(es).Some? ==>
              forall x, y :: Conflict(x, y) in ScanConflicts(es).value <==>
                exists i, j :: 0 <= i < j < |es| && es[i].id == x && es[j].id == y &&
                  ConflictAt(es, i, j)
  {
    RowsSpec(es, |es|);
  }

  /** With distinct ids, no pair is reported both as A-B and as B-A. */
  lemma ScanConflictsReportsEachPairOnce(es: seq<Entry>, x: string, y: string)
    requires forall i, j :: 0 <= i < j < |es| ==> es[i].id != es[j].id
    requires ScanConflicts(es).Some? && Conflict(x, y) in ScanConflicts(es).value
    ensures Conflict(y, x) !in ScanConflicts(es).value
  {
    ScanConflictsSpec(es);
  }

  ghost predicate DistinctEntryIds(es: seq<Entry>) {
    forall i, j :: 0 <= i < j < |es| ==> es[i].id != es[j].id
  }

  /** The position of the first entry with the given id; `|es|` when there is none. */
  function Position(es: seq<Entry>, id: string): nat {
    if es == [] then 0
    else if es[0].id == id then 0
    else 1 + Position(es[1..], id)
  }

  /** With distinct ids, an entry's id is found at the entry's own position. */
  lemma {:induction false} PositionOfEntry(es: seq<Entry>, i: nat)
    requires DistinctEntryIds(es) && i < |es|
    ensures Position(es, es[i].id) == i
    decreases i
  {
    if i > 0 {
      assert es[0].id != es[i].id;
      var tail := es[1..];
      assert tail[i - 1] == es[i];
      assert DistinctEntryIds(tail) by {
        forall p, q | 0 <= p < q < |tail| ensures tail[p].id != tail[q].id {
          assert tail[p] == es[p + 1] && tail[q] == es[q + 1];
        }
      }
      PositionOfEntry(tail, i - 1);
    }
  }

  /** The order of the nested loops: by the first course's position, then by the second's. */
  ghost predicate InLoopOrder(es: seq<Entry>, c: Conflict, d: Conflict) {
    var (c1, c2, d1, d2) := (Position(es, c.course1), Position(es, c.course2),
                             Position(es, d.course1), Position(es, d.course2));
    c1 < d1 || (c1 == d1 && c2 < d2)
  }

  /** Reports in the order of the nested loops over `es`, none repeated. */
  ghost predicate ReportedInLoopOrder(es: seq<Entry>, r: seq<Conflict>) {
    forall p, q :: 0 <= p < q < |r| ==> r[p] != r[q] && InLoopOrder(es, r[p], r[q])
  }

  /**
   * One round of the inner loop over `others`, which sit at positions `base..`
   * of the scanned list: every report names the current course first and one
   * of `others` second ...
   */
  lemma {:induction false} RowOfReportsWithin(id: string, others: seq<Entry>, outs: seq<Option<bool>>,
                                              es: seq<Entry>, base: nat)
    requires |outs| == |others| && RowOf(id, others, outs).Some?
    requires forall j :: 0 <= j < |others| ==> Position(es, others[j].id) == base + j
    ensures forall c :: c in RowOf(id, others, outs).value ==>
              c.course1 == id && base <= Position(es, c.course2) < base + |others|
    decreases |others|
  {
    if others != [] {
      var n := |others| - 1;
      RowOfReportsWithin(id, others[..n], outs[..n], es, base);
      assert Position(es, others[n].id) == base + n;
    }
  }

  /** ... and the second courses come in list order. */
  lemma {:induction false} RowOfInOrder(id: string, others: seq<Entry>, outs: seq<Option<bool>>,
                                        es: seq<Entry>, base: nat)
    requires |outs| == |others| && RowOf(id, others, outs).Some?
    requires forall j :: 0 <= j < |others| ==> Position(es, others[j].id) == base + j
    ensures var r := RowOf(id, others, outs).value;
            forall p, q :: 0 <= p < q < |r| ==> Position(es, r[p].course2) < Position(es, r[q].course2)
    decreases |others|
  {
    if others != [] {
      var n := |others| - 1;
      RowOfInOrder(id, others[..n], outs[..n], es, base);
      if outs[n] == Some(true) {
        RowOfReportsWithin(id, others[..n], outs[..n], es, base);
        assert Position(es, others[n].id) == base + n;
        AppendInListOrder(es, RowOf(id, others[..n], outs[..n]).value, Conflict(id, others[n].id));
      }
    }
  }

  /** Both facts for the round of course `k`, whose later courses start at `k + 1`. */
  lemma RowInOrder(es: seq<Entry>, k: nat)
    requires DistinctEntryIds(es) && k < |es| && Row(es[k], es[k + 1..]).Some?
    ensures forall c :: c in Row(es[k], es[k + 1..]).value ==>
              c.course1 == es[k].id && k < Position(es, c.course2) < |es|
    ensures var r := Row(es[k], es[k + 1..]).value;
            forall p, q :: 0 <= p < q < |r| ==> Position(es, r[p].course2) < Position(es, r[q].course2)
  {
    var others := es[k + 1..];
    forall j | 0 <= j < |others|
      ensures Position(es, others[j].id) == k + 1 + j
    {
      PositionOfEntry(es, k + 1 + j);
    }
    RowIsRowOf(es[k], others);
    RowOfReportsWithin(es[k].id, others, Outcomes(es[k], others), es, k + 1);
    RowOfInOrder(es[k].id, others, Outcomes(es[k], others), es, k + 1);
  }

  /** Appending a report whose second course comes after all earlier ones keeps list order. */
  lemma AppendInListOrder(es: seq<Entry>, init: seq<Conflict>, x: Conflict)
    requires forall p, q :: 0 <= p < q < |init| ==> Position(es, init[p].course2) < Position(es, init[q].course2)
    requires forall c :: c in init ==> Position(es, c.course2) < Position(es, x.course2)
    ensures var r := init + [x];
            forall p, q :: 0 <= p < q < |r| ==> Position(es, r[p].course2) < Position(es, r[q].course2)
  {
    var r := init + [x];
    forall p, q | 0 <= p < q < |r|
      ensures Position(es, r[p].course2) < Position(es, r[q].course2)
    {
      assert r[p] == init[p] && init[p] in init;
      if q < |init| {
        assert r[q] == init[q];
      }
    }
  }

  /** The first `n` rounds of the outer loop report in loop order, first courses before `n`. */
  lemma {:induction false} RowsInOrder(es: seq<Entry>, n: nat)
    requires DistinctEntryIds(es) && n <= |es| && Rows(es, n).Some?
    ensures forall c :: c in Rows(es, n).value ==> Position(es, c.course1) < n
    ensures forall p, q :: 0 <= p < q < |Rows(es, n).value| ==>
              InLoopOrder(es, Rows(es, n).value[p], Rows(es, n).value[q])
    decreases n
  {
    if n > 0 {
      RowsInOrder(es, n - 1);
      var init := Rows(es, n - 1).value;
      var k := n - 1;
      RowInOrder(es, k);
      PositionOfEntry(es, k);
      var row := Row(es[k], es[n..]).value;
      var r := init + row;
      assert Rows(es, n).value == r;
      forall c | c in r
        ensures Position(es, c.course1) < n
      {
        if c in row {
          assert c.course1 == es[k].id;
        }
      }
      forall p, q | 0 <= p < q < |r|
        ensures InLoopOrder(es, r[p], r[q])
      {
        if q < |init| {
          assert r[p] == init[p] && r[q] == init[q];
        } else if p < |init| {
          assert r[p] == init[p] && r[q] == row[q - |init|];
          assert r[p] in init && r[q] in row;
        } else {
          assert r[p] == row[p - |init|] && r[q] == row[q - |init|];
          assert r[p] in row && r[q] in row;
        }
      }
    }
  }

  /**
   * With distinct ids, the scan reports its pairs in the order of the nested
   * loops, so it never reports the same pair twice.
   */
  lemma ScanConflictsInOrder(es: seq<Entry>)
    requires DistinctEntryIds(es) && ScanConflicts(es).Some?
    ensures forall p, q :: 0 <= p < q < |ScanConflicts(es).value| ==>
              InLoopOrder(es, ScanConflicts(es).value[p], ScanConflicts(es).value[q])
    ensures forall p, q :: 0 <= p < q < |ScanConflicts(es).value| ==>
              ScanConflicts(es).value[p] != ScanConflicts(es).value[q]
  {
    RowsInOrder(es, |es|);
  }

  /**
   * Without distinct ids the loops compare index pairs, not courses: a list
   * naming course `a` twice reports a-b, a-a and b-a.
   */
  lemma RepeatedIdReportedBothWays(a: string, b: string, s: Schedules.Schedule, x: Schedules.Slot)
    requires s.days != [] && Schedules.ParseSlot(s.time) == Some(x) && x.start < x.end
    ensures var r := ScanConflicts([Entry(a, Some(s)), Entry(b, Some(s)), Entry(a, Some(s))]);
            r.Some? && r.value == [Conflict(a, b), Conflict(a, a), Conflict(b, a)]
  {
    Schedules.ConflictsWithItself(s, x);
    var ea, eb := Entry(a, Some(s)), Entry(b, Some(s));
    var es := [ea, eb, ea];
    var later := [eb, ea];
    var ab, aa, ba := Conflict(a, b), Conflict(a, a), Conflict(b, a);
    assert later[..0] == [] && later[..2] == later;
    RowExtend(ea, later, 0);
    assert Row(ea, later[..1]).value == [ab];
    RowExtend(ea, later, 1);
    assert Row(ea, later).value == [ab, aa];
    assert [ea][..0] == [] && [ea][..1] == [ea];
    RowExtend(eb, [ea], 0);
    assert Row(eb, [ea]).value == [ba];
    assert es[1..] == later && es[2..] == [ea] && es[3..] == [];
    assert Rows(es, 0) == Some([]);
    assert Rows(es, 1).Some? && Rows(es, 1).value == [ab, aa];
    assert Rows(es, 2).Some? && Rows(es, 2).value == [ab, aa, ba];
  }

  /** Row with a shorter list of others failing means the full row fails. */
  lemma {:induction false} RowFailurePersists(a: Entry, others: seq<Entry>, k: nat)
    requires k <= |others| && Row(a, others[..k]).None?
    ensures Row(a, others).None?
    decreases |others|
  {
    if k < |others| {
      var n := |others| - 1;
      assert others[..n][..k] == others[..k];
      RowFailurePersists(a, others[..n], k);
    } else {
      assert others[..k] == others;
    }
  }

  /** One more step of the inner loop. */
  lemma RowExtend(a: Entry, others: seq<Entry>, k: nat)
    requires k < |others| && Row(a, others[..k]).Some?
    ensures Schedules.ConflictsWith(a.schedule, others[k].schedule).None? ==> Row(a, others[..k + 1]).None?
    ensures Schedules.ConflictsWith(a.schedule, others[k].schedule) == Some(false) ==>
              Row(a, others[..k + 1]) == Row(a, others[..k])
    ensures Schedules.ConflictsWith(a.schedule, others[k].schedule) == Some(true) ==>
              Row(a, others[..k + 1]) == Some(Row(a, others[..k]).value + [Conflict(a.id, others[k].id)])
  {
    var xs := others[..k + 1];
    assert xs[..|xs| - 1] == others[..k];
    assert xs[|xs| - 1] == others[k];
  }

  /** One more round of the outer loop. */
  lemma RowsStep(es: seq<Entry>, i: nat, row: Option<seq<Conflict>>)
    requires i < |es| && Rows(es, i).Some? && Row(es[i], es[i + 1..]) == row
    ensures row.None? ==> Rows(es, i + 1).None?
    ensures row.Some? ==> Rows(es, i + 1) == Some(Rows(es, i).value + row.value)
  {
  }

  lemma {:induction false} RowsFailurePersists(es: seq<Entry>, m: nat, n: nat)
    requires m <= n <= |es| && Rows(es, m).None?
    ensures Rows(es, n).None?
    decreases n
  {
    if m < n {
      RowsFailurePersists(es, m, n - 1);
      RowsFailStep(es, n - 1);
    }
  }

  /** A failed round stops the outer loop: no later round can undo it. */
  lemma RowsFailStep(es: seq<Entry>, i: nat)
    requires i < |es| && Rows(es, i).None?
    ensures Rows(es, i + 1).None?
  {
  }

  /**
   * The inner loop of `get_courses_with_conflicts`: course `i` against each
   * later course, in order; None as soon as a comparison raises.
   */
  method ConflictsWithLater(cs: seq<Course>, i: nat, ghost es: seq<Entry>) returns (row: Option<seq<Conflict>>)
    requires i < |cs| && es == Entries(cs)
    ensures row == Row(es[i], es[i + 1..])
  {
    ghost var others := es[i + 1..];
    var found: seq<Conflict> := [];
    var j := i + 1;
    while j < |cs|
      invariant i + 1 <= j <= |cs|
      invariant Row(es[i], others[..j - i - 1]) == Some(found)
    {
      var hit := Schedules.ConflictsWith(cs[i].schedule, cs[j].schedule);
      assert es[i] == Entry(cs[i].courseId, cs[i].schedule);
      assert others[j - i - 1] == Entry(cs[j].courseId, cs[j].schedule);
      RowExtend(es[i], others, j - i - 1);
      if hit.None? {
        RowFailurePersists(es[i], others, j - i);
        return None;
      }
      if hit.value {
        found := found + [Conflict(cs[i].courseId, cs[j].courseId)];
      }
      j := j + 1;
    }
    assert others[..j - i - 1] == others;
    return Some(found);
  }

  class CourseManager {
    var courses: seq<Course>

    ghost predicate Valid()
      reads this
    {
      DistinctIds(courses)
    }

    constructor ()
      ensures Valid() && courses == []
    {
      courses := [];
    }

    /** `get_course`: the course stored under `id`, if any. */
    function GetCourse(id: string): (r: Option<Course>)
      reads this
      ensures r.Some? ==> r.value in courses && r.value.courseId == id
      ensures r.None? ==> forall c :: c in courses ==> c.courseId != id
    {
      Find(courses, id)
    }

    /** `add_course`: stores a course under its id unless that id is taken. */
    method AddCourse(c: Course) returns (ok: bool)
      requires Valid()
      modifies this
      ensures Valid()
      ensures ok <==> old(GetCourse(c.courseId)).None?
      ensures courses == if ok then old(courses) + [c] else old(courses)
    {
      ok := GetCourse(c.courseId).None?;
      if ok {
        courses := courses + [c];
      }
    }

    /** `get_active_courses`, in table order. */
    function ActiveCourses(): (r: seq<Course>)
      reads this, courses
      ensures forall c :: c in r ==> c in courses && c.isActive
      ensures forall c :: c in courses && c.isActive ==> c in r
      ensures IsSubsequence(r, courses)
    {
      Select(courses, Active)
    }

    /**
     * `delete_course`: a soft delete. The course stays in the table, marked
     * inactive; an unknown id is reported and nothing changes.
     */
    method DeleteCourse(id: string, now: int) returns (ok: bool)
      requires Valid()
      modifies courses
      ensures ok <==> GetCourse(id).Some?
      ensures forall c :: c in courses && c.courseId == id ==>
                c.Data() == old(c.Data()).(isActive := false, updatedAt := now)
      ensures forall c :: c in courses && c.courseId != id ==> c.Data() == old(c.Data())
    {
      var found := GetCourse(id);
      ok := found.Some?;
      if ok {
        var c := found.value;
        c.isActive := false;
        c.updatedAt := now;
      }
    }

    /** `find_courses_by_instructor`: case-insensitive equality of names, in table order. */
    function FindByInstructor(instructor: string): (r: seq<Course>)
      reads this, courses
      ensures forall c :: c in r ==> c in courses && Lower(c.instructor) == Lower(instructor)
      ensures forall c :: c in courses && Lower(c.instructor) == Lower(instructor) ==> c in r
      ensures IsSubsequence(r, courses)
    {
      Select(courses, ByInstructor(instructor))
    }

    /** `find_courses_by_credits`: inclusive bounds, no upper bound when `maxCredits` is None. */
    method FindByCredits(minCredits: int, maxCredits: Option<int>) returns (r: seq<Course>)
      ensures r == Select(courses, ByCredits(minCredits, maxCredits))
      ensures forall c :: c in r ==>
                c in courses && minCredits <= c.credits &&
                (maxCredits.None? || c.credits <= maxCredits.value)
      ensures forall c ::
                (c in courses && minCredits <= c.credits &&
                 (maxCredits.None? || c.credits <= maxCredits.value)) ==> c in r
    {
      r := [];
      var i := 0;
      while i < |courses|
        invariant 0 <= i <= |courses|
        invariant r == Select(courses[..i], ByCredits(minCredits, maxCredits))
      {
        var c := courses[i];
        if minCredits <= c.credits {
          if maxCredits.None? || c.credits <= maxCredits.value {
            r := r + [c];
          }
        }
        assert courses[..i + 1][..i] == courses[..i];
        i := i + 1;
      }
      assert courses[..i] == courses;
    }

    /** The course objects of the ids that resolve, in list order; unknown ids are skipped. */
    function Resolve(ids: seq<string>): seq<Course>
      reads this
      decreases |ids|
    {
      if ids == [] then []
      else
        var init := Resolve(ids[..|ids| - 1]);
        match GetCourse(ids[|ids| - 1])
        case Some(c) => init + [c]
        case None => init
    }

    /** The resolved courses are exactly the stored courses whose ids are listed. */
    lemma {:induction false} ResolveSpec(ids: seq<string>)
      requires Valid()
      ensures forall c :: c in Resolve(ids) ==> c in courses && c.courseId in ids
      ensures forall c :: c in courses && c.courseId in ids ==> c in Resolve(ids)
      ensures |Resolve(ids)| <= |ids|
      decreases |ids|
    {
      if ids != [] {
        var n := |ids| - 1;
        ResolveSpec(ids[..n]);
        assert forall x :: x in ids[..n] ==> x in ids;
        forall c | c in courses && c.courseId in ids
          ensures c in Resolve(ids)
        {
          if c.courseId !in ids[..n] {
            assert ids == ids[..n] + [ids[n]];
            var found := GetCourse(ids[n]);
            var c' := found.value;
            var i :| 0 <= i < |courses| && courses[i] == c;
            var i' :| 0 <= i' < |courses| && courses[i'] == c';
            assert i == i';
          }
        }
      }
    }

    /**
     * The comprehension keeps the student's order and yields one course for
     * every listed id that is stored (a repeated id yields its course again)
     * and none for the others. With the multiplicities fixed, a subsequence
     * of `ids` is unique, so these two facts pin the result's ids.
     */
    lemma {:induction false} ResolveFollowsIds(ids: seq<string>)
      requires Valid()
      ensures IsSubsequence(CourseIds(Resolve(ids)), ids)
      ensures forall x :: multiset(CourseIds(Resolve(ids)))[x] ==
                          if GetCourse(x).Some? then multiset(ids)[x] else 0
      decreases |ids|
    {
      if ids != [] {
        var n := |ids| - 1;
        ResolveFollowsIds(ids[..n]);
        var init := Resolve(ids[..n]);
        assert ids == ids[..n] + [ids[n]];
        assert multiset(ids) == multiset(ids[..n]) + multiset{ids[n]};
        match GetCourse(ids[n])
        case Some(c) =>
          var xs := CourseIds(init + [c]);
          assert xs == CourseIds(init) + [ids[n]];
          assert xs[..|xs| - 1] == CourseIds(init);
          assert multiset(xs) == multiset(CourseIds(init)) + multiset{ids[n]};
        case None =>
      }
    }

    /** Distinct ids resolve to courses with distinct ids: the premise of `ScanConflictsInOrder`. */
    lemma {:induction false} ResolveDistinct(ids: seq<string>)
      requires Valid() && DistinctStrings(ids)
      ensures DistinctStrings(CourseIds(Resolve(ids)))
      ensures DistinctEntryIds(Entries(Resolve(ids)))
      decreases |ids|
    {
      if ids != [] {
        var n := |ids| - 1;
        assert DistinctStrings(ids[..n]);
        ResolveDistinct(ids[..n]);
        var init := Resolve(ids[..n]);
        if GetCourse(ids[n]).Some? {
          var c := GetCourse(ids[n]).value;
          ResolveSpec(ids[..n]);
          forall k | 0 <= k < |init|
            ensures init[k].courseId != c.courseId
          {
            assert init[k] in init;
            var m :| 0 <= m < n && ids[m] == init[k].courseId;
          }
        }
      }
    }

    /**
     * `get_courses_with_conflicts`; None where the source raises on a malformed
     * time. The outer loop is here, the inner one in `ConflictsWithLater`.
     */
    method GetCoursesWithConflicts(studentCourses: seq<string>) returns (r: Option<seq<Conflict>>)
      ensures r == ScanConflicts(Entries(Resolve(studentCourses)))
      ensures Valid() && DistinctStrings(studentCourses) && r.Some? ==>
                ReportedInLoopOrder(Entries(Resolve(studentCourses)), r.value)
    {
      var cs := Resolve(studentCourses);
      ghost var es := Entries(cs);
      var conflicts: seq<Conflict> := [];
      var i := 0;
      while i < |cs|
        invariant 0 <= i <= |cs|
        invariant Rows(es, i) == Some(conflicts)
      {
        var row := ConflictsWithLater(cs, i, es);
        RowsStep(es, i, row);
        if row.None? {
          RowsFailurePersists(es, i + 1, |es|);
          return None;
        }
        conflicts := conflicts + row.value;
        i := i + 1;
      }
      if Valid() && DistinctStrings(studentCourses) {
        ScanOfDistinctIdsInOrder(studentCourses);
      }
      return Some(conflicts);
    }

    /** With distinct ids the scan's reports come in nested-loop order and none repeats. */
    lemma ScanOfDistinctIdsInOrder(ids: seq<string>)
      requires Valid() && DistinctStrings(ids)
      ensures var r := ScanConflicts(Entries(Resolve(ids)));
              r.Some? ==> ReportedInLoopOrder(Entries(Resolve(ids)), r.value)
    {
      ResolveDistinct(ids);
      if ScanConflicts(Entries(Resolve(ids))).Some? {
        ScanConflictsInOrder(Entries(Resolve(ids)));
      }
    }
  }
}
