/**
 * A course's weekly meeting pattern and the conflict rule between two of them.
 * The time is kept as the text "HH:MM-HH:MM" it is stored as; it is parsed only
 * when two schedules that share a day are compared, and a malformed time makes
 * that comparison fail (the source raises `ValueError`).
 */
module Schedules {
  import opened Wrappers
  import opened Text
  import opened Records

  datatype Schedule = Schedule(days: seq<string>, time: string, room: string)

  /** A half-open interval [start, end) of minutes. */
  datatype Slot = Slot(start: int, end: int)

  /** "HH:MM" as `hours * 60 + minutes`; there is no range check on either part. */
  function ParseClock(t: string): Option<int> {
    var parts := Split(t, ':');
    if |parts| != 2 then None
    else
      match (ParseNat(parts[0]), ParseNat(parts[1]))
      case (Some(h), Some(m)) => Some(h * 60 + m)
      case _ => None
  }

  /** "HH:MM-HH:MM" as a slot: exactly one '-' with a clock on either side. */
  function ParseSlot(t: string): Option<Slot> {
    var parts := Split(t, '-');
    if |parts| != 2 then None
    else
      match (ParseClock(parts[0]), ParseClock(parts[1]))
      case (Some(s), Some(e)) => Some(Slot(s, e))
      case _ => None
  }

  /** Two slots overlap unless one ends at or before the other starts. */
  predicate SlotsOverlap(a: Slot, b: Slot) {
    !(a.end <= b.start || b.end <= a.start)
  }

  /** The overlap test of two time strings; None when either does not parse. */
  function TimeOverlaps(selfTime: string, otherTime: string): Option<bool> {
    match (ParseSlot(selfTime), ParseSlot(otherTime))
    case (Some(a), Some(b)) => Some(SlotsOverlap(a, b))
    case _ => None
  }

  /** Whether two day lists name a common day (the source intersects them as sets). */
  function SharesDay(a: seq<string>, b: seq<string>): (r: bool)
    ensures r <==> exists d :: d in a && d in b
  {
    if a == [] then false
    else a[0] in b || SharesDay(a[1..], b)
  }

  /**
   * Whether two (possibly missing) schedules conflict. No schedule on either
   * side, or no common day, means no conflict without looking at the times;
   * otherwise the answer is the time overlap, or None when a time is malformed.
   * The room is never looked at.
   */
  function ConflictsWith(a: Option<Schedule>, b: Option<Schedule>): Option<bool> {
    if a.None? || b.None? then Some(false)
    else if !SharesDay(a.value.days, b.value.days) then Some(false)
    else TimeOverlaps(a.value.time, b.value.time)
  }

  predicate InSlot(s: Slot, t: int) {
    s.start <= t < s.end
  }

  /**
   * Half-open overlap: slots with a minute in common overlap, and two non-empty
   * slots that overlap have a minute in common. (An inverted slot, end before
   * start, can still be reported as overlapping.)
   */
  lemma SlotsOverlapIffCommonMinute(a: Slot, b: Slot)
    ensures (exists t :: InSlot(a, t) && InSlot(b, t)) ==> SlotsOverlap(a, b)
    ensures a.start < a.end && b.start < b.end && SlotsOverlap(a, b) ==>
              exists t :: InSlot(a, t) && InSlot(b, t)
  {
    if a.start < a.end && b.start < b.end && SlotsOverlap(a, b) {
      var t := if a.start < b.start then b.start else a.start;
      assert InSlot(a, t) && InSlot(b, t);
    }
  }

  lemma ConflictsWithSymmetric(a: Option<Schedule>, b: Option<Schedule>)
    ensures ConflictsWith(a, b) == ConflictsWith(b, a)
  {
    if a.Some? && b.Some? && SharesDay(a.value.days, b.value.days) {
      assert SharesDay(b.value.days, a.value.days);
    }
  }

  /** Replacing the room of either schedule never changes the answer. */
  lemma ConflictsWithIgnoresRoom(a: Schedule, b: Option<Schedule>, room: string)
    ensures ConflictsWith(Some(a), b) == ConflictsWith(Some(a.(room := room)), b)
    ensures ConflictsWith(b, Some(a)) == ConflictsWith(b, Some(a.(room := room)))
  {
  }

  /** Schedules with no day in common never conflict, whatever their times say. */
  lemma NoCommonDayNoConflict(a: Schedule, b: Schedule)
    requires forall d :: d in a.days ==> d !in b.days
    ensures ConflictsWith(Some(a), Some(b)) == Some(false)
  {
  }

  /** A schedule that meets on no day conflicts with nothing, whatever its time says. */
  lemma NoDaysNoConflict(a: Schedule, b: Option<Schedule>)
    requires a.days == []
    ensures ConflictsWith(Some(a), b) == Some(false)
  {
    if b.Some? {
      NoCommonDayNoConflict(a, b.value);
    }
  }

  /** On a common day with both times well formed, the answer is exactly the slots' overlap. */
  lemma CommonDayConflictIsOverlap(a: Schedule, b: Schedule, x: Slot, y: Slot)
    requires SharesDay(a.days, b.days) && ParseSlot(a.time) == Some(x) && ParseSlot(b.time) == Some(y)
    ensures ConflictsWith(Some(a), Some(b)) == Some(SlotsOverlap(x, y))
  {
  }

  /** A schedule that meets on some day in a non-empty slot conflicts with itself. */
  lemma ConflictsWithItself(a: Schedule, x: Slot)
    requires a.days != [] && ParseSlot(a.time) == Some(x) && x.start < x.end
    ensures ConflictsWith(Some(a), Some(a)) == Some(true)
  {
    assert a.days[0] in a.days;
  }

  /** "HH:MM" written zero-padded, for 0 <= minutes < 24 * 60. */
  function FormatClock(minutes: int): string
    requires 0 <= minutes < 24 * 60
  {
    TwoDigits(minutes / 60) + [':'] + TwoDigits(minutes % 60)
  }

  /** The wire form "HH:MM-HH:MM" of a slot within one day. */
  function FormatSlot(s: Slot): string
    requires 0 <= s.start < 24 * 60 && 0 <= s.end < 24 * 60
  {
    FormatClock(s.start) + ['-'] + FormatClock(s.end)
  }

  lemma ParseFormatClock(minutes: int)
    requires 0 <= minutes < 24 * 60
    ensures '-' !in FormatClock(minutes)
    ensures ParseClock(FormatClock(minutes)) == Some(minutes)
  {
    var h, m := TwoDigits(minutes / 60), TwoDigits(minutes % 60);
    assert ':' !in h && ':' !in m by {
      assert forall i :: 0 <= i < 2 ==> IsDigit(h[i]) && IsDigit(m[i]);
    }
    SplitAroundSeparator(h, m, ':');
    assert '-' !in h && '-' !in m by {
      assert forall i :: 0 <= i < 2 ==> IsDigit(h[i]) && IsDigit(m[i]);
    }
    ParseTwoDigits(minutes / 60);
    ParseTwoDigits(minutes % 60);
  }

  /** Every well-formed slot of the wire format parses back to itself. */
  lemma ParseFormatSlot(s: Slot)
    requires 0 <= s.start < 24 * 60 && 0 <= s.end < 24 * 60
    ensures ParseSlot(FormatSlot(s)) == Some(s)
  {
    ParseFormatClock(s.start);
    ParseFormatClock(s.end);
    SplitAroundSeparator(FormatClock(s.start), FormatClock(s.end), '-');
  }

  /** On a shared day, 10:00-11:30 and 11:30-13:00 touch but do not conflict. */
  lemma TouchingSlotsDoNotConflict(room1: string, room2: string)
    ensures ConflictsWith(Some(Schedule(["Monday"], "10:00-11:30", room1)),
                          Some(Schedule(["Monday"], "11:30-13:00", room2))) == Some(false)
  {
    assert FormatSlot(Slot(600, 690)) == "10:00-11:30";
    assert FormatSlot(Slot(690, 780)) == "11:30-13:00";
    ParseFormatSlot(Slot(600, 690));
    ParseFormatSlot(Slot(690, 780));
  }

  /** On a shared day, 10:00-11:30 and 11:00-12:00 conflict, whatever the rooms. */
  lemma OverlappingSlotsConflict(room1: string, room2: string)
    ensures ConflictsWith(Some(Schedule(["Monday"], "10:00-11:30", room1)),
                          Some(Schedule(["Monday", "Wednesday"], "11:00-12:00", room2))) == Some(true)
  {
    assert FormatSlot(Slot(600, 690)) == "10:00-11:30";
    assert FormatSlot(Slot(660, 720)) == "11:00-12:00";
    ParseFormatSlot(Slot(600, 690));
    ParseFormatSlot(Slot(660, 720));
    assert TimeOverlaps("10:00-11:30", "11:00-12:00") == Some(true);
    assert SharesDay(["Monday"], ["Monday", "Wednesday"]);
  }

  /** A time without a '-' never parses. */
  lemma TimeWithoutDashRejected(t: string)
    requires '-' !in t
    ensures ParseSlot(t) == None
  {
    SplitWithoutSeparator(t, '-');
  }

  function ToDict(s: Schedule): Value {
    Dict(map["days" := StrListValue(s.days), "time" := Str(s.time), "room" := Str(s.room)])
  }

  /** `Schedule.from_dict`: every key is optional (days default to [], time and room to ""). */
  function FromDict(d: map<string, Value>): Option<Schedule> {
    match (StrListOr(d, "days", []), StrOr(d, "time", ""), StrOr(d, "room", ""))
    case (Some(days), Some(time), Some(room)) => Some(Schedule(days, time, room))
    case _ => None
  }

  lemma {:induction false} DictRoundTrip(s: Schedule)
    ensures ToDict(s).Dict? && FromDict(ToDict(s).fields) == Some(s)
  {
    StrListRoundTrip(s.days);
  }
}
