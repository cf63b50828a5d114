/** Conflict detection for one proposed booking (`check_booking_conflicts`),
    for a list of series occurrences (`detect_occurrence_conflicts`), and the
    human-readable rendering of the four conflict flags. */
module Conflicts {
  import opened Common
  import opened Models
  import opened Text

  /** The four independent flags of a conflict report. */
  datatype Conflicts = Conflicts(
    specialistBusy: bool,
    cabinetBusy: bool,
    specialistNotAvailable: bool,
    cabinetNotAvailable: bool)
  {
    predicate Any() {
      specialistBusy || cabinetBusy || specialistNotAvailable || cabinetNotAvailable
    }

    /** The flags in their fixed reporting order. */
    function Flags(): seq<bool> {
      [specialistBusy, cabinetBusy, specialistNotAvailable, cabinetNotAvailable]
    }
  }

  /** `SpecialistSchedule.objects.filter(specialist, day_of_week).first()`. */
  function FirstSchedule(rows: seq<Schedule>, spec: Id, day: int): (r: Option<Schedule>)
    ensures r.Some? ==> r.value in rows && r.value.specialist == spec && r.value.dayOfWeek == day
    ensures r.None? <==> forall s :: s in rows ==> s.specialist != spec || s.dayOfWeek != day
  {
    if rows == [] then None
    else if rows[0].specialist == spec && rows[0].dayOfWeek == day then Some(rows[0])
    else FirstSchedule(rows[1..], spec, day)
  }

  /** A stored booking blocks the span [start, end) when it is confirmed,
      overlaps half-open and is not the excluded row. Paid, completed and
      canceled bookings never block. */
  predicate Blocks(b: Booking, start: int, end: int, exclude: Option<Id>) {
    b.status == Confirmed && Overlaps(b.startTime, b.endTime, start, end)
    && (exclude.None? || b.id != exclude.value)
  }

  /** Whether some blocking row belongs to the specialist (`onSpecialist`) or
      uses the cabinet (otherwise): the `.exists()` query, row by row. */
  function AnyBlocking(rows: seq<Booking>, start: int, end: int, exclude: Option<Id>, onSpecialist: bool, who: Id): bool
  {
    if rows == [] then false
    else
      (Blocks(rows[0], start, end, exclude) && (if onSpecialist then rows[0].specialist == who else rows[0].cabinet == who))
      || AnyBlocking(rows[1..], start, end, exclude, onSpecialist, who)
  }

  /** The row-by-row scan finds a blocking row exactly when one exists. */
  lemma {:induction false} AnyBlockingMeaning(rows: seq<Booking>, start: int, end: int, exclude: Option<Id>, onSpecialist: bool, who: Id)
    ensures AnyBlocking(rows, start, end, exclude, onSpecialist, who) <==>
      exists i :: 0 <= i < |rows| && Blocks(rows[i], start, end, exclude)
                  && (if onSpecialist then rows[i].specialist == who else rows[i].cabinet == who)
    decreases |rows|
  {
    if rows != [] {
      AnyBlockingMeaning(rows[1..], start, end, exclude, onSpecialist, who);
      assert forall i :: 1 <= i < |rows| ==> rows[i] == rows[1..][i - 1];
    }
  }

  /** Outside working hours: no schedule for the weekday of `start`, a start
      before the schedule's start, or an end after the schedule's end on that
      same day (times compared as absolute minutes). */
  predicate OutsideHours(schedules: seq<Schedule>, spec: Id, start: int, end: int) {
    var sched := FirstSchedule(schedules, spec, WeekdayOf(start));
    sched.None?
    || MinuteOfDay(start) < sched.value.startTime
    || end > DayOf(start) * MinutesPerDay + sched.value.endTime
  }

  function ReportOf(c: Conflicts): Option<Conflicts> {
    if c.Any() then Some(c) else None
  }

  /** `check_booking_conflicts`: the end of the proposed span is start +
      duration + buffer; the report is `None` exactly when no flag is set. */
  function CheckBookingConflicts(
    cat: Catalog, schedules: seq<Schedule>, bookings: seq<Booking>,
    start: int, variant: ServiceVariant, spec: Id, cabinet: Cabinet, exclude: Option<Id>): (r: Option<Conflicts>)
    ensures r.Some? ==> r.value.Any()
  {
    var end := start + TotalMinutes(cat, variant);
    var c := Conflicts(
      AnyBlocking(bookings, start, end, exclude, true, spec),
      AnyBlocking(bookings, start, end, exclude, false, cabinet.id),
      OutsideHours(schedules, spec, start, end),
      !cabinet.isActive);
    ReportOf(c)
  }

  /** What each flag of the report means, and when there is no report. */
  lemma CheckBookingConflictsMeaning(
    cat: Catalog, schedules: seq<Schedule>, bookings: seq<Booking>,
    start: int, variant: ServiceVariant, spec: Id, cabinet: Cabinet, exclude: Option<Id>)
    ensures var r := CheckBookingConflicts(cat, schedules, bookings, start, variant, spec, cabinet, exclude);
      var end := start + variant.durationMinutes + cat.bufferTimeMinutes;
      && (r.Some? ==> (r.value.specialistBusy <==>
            exists i :: 0 <= i < |bookings| && Blocks(bookings[i], start, end, exclude) && bookings[i].specialist == spec))
      && (r.Some? ==> (r.value.cabinetBusy <==>
            exists i :: 0 <= i < |bookings| && Blocks(bookings[i], start, end, exclude) && bookings[i].cabinet == cabinet.id))
      && (r.Some? ==> (r.value.specialistNotAvailable <==> OutsideHours(schedules, spec, start, end)))
      && (r.Some? ==> (r.value.cabinetNotAvailable <==> !cabinet.isActive))
      && (r.None? <==>
            && !OutsideHours(schedules, spec, start, end)
            && cabinet.isActive
            && (forall i :: 0 <= i < |bookings| && Blocks(bookings[i], start, end, exclude) ==>
                  bookings[i].specialist != spec && bookings[i].cabinet != cabinet.id))
  {
    var end := start + TotalMinutes(cat, variant);
    AnyBlockingMeaning(bookings, start, end, exclude, true, spec);
    AnyBlockingMeaning(bookings, start, end, exclude, false, cabinet.id);
    var sb := AnyBlocking(bookings, start, end, exclude, true, spec);
    var cb := AnyBlocking(bookings, start, end, exclude, false, cabinet.id);
    if !sb && !cb {
      forall i | 0 <= i < |bookings| && Blocks(bookings[i], start, end, exclude)
        ensures bookings[i].specialist != spec && bookings[i].cabinet != cabinet.id
      {
      }
    }
  }

  // ---------------------------------------------------- as written (Finding)

  /** The working-hours test as the source writes it: the end is reduced to a
      time of day before it is compared with the schedule's end. */
  predicate OutsideHoursAsWritten(schedules: seq<Schedule>, spec: Id, start: int, end: int) {
    var sched := FirstSchedule(schedules, spec, WeekdayOf(start));
    sched.None?
    || MinuteOfDay(start) < sched.value.startTime
    || MinuteOfDay(end) > sched.value.endTime
  }

  function CheckBookingConflictsAsWritten(
    cat: Catalog, schedules: seq<Schedule>, bookings: seq<Booking>,
    start: int, variant: ServiceVariant, spec: Id, cabinet: Cabinet, exclude: Option<Id>): (r: Option<Conflicts>)
    ensures r.Some? ==> r.value.Any()
    ensures r.Some? ==> (r.value.specialistNotAvailable <==>
              OutsideHoursAsWritten(schedules, spec, start, start + variant.durationMinutes + cat.bufferTimeMinutes))
  {
    var end := start + TotalMinutes(cat, variant);
    ReportOf(Conflicts(
      AnyBlocking(bookings, start, end, exclude, true, spec),
      AnyBlocking(bookings, start, end, exclude, false, cabinet.id),
      OutsideHoursAsWritten(schedules, spec, start, end),
      !cabinet.isActive))
  }

  /** The two versions agree whenever the span ends on the day it starts. */
  lemma AsWrittenAgreesWithinDay(schedules: seq<Schedule>, spec: Id, start: int, end: int)
    requires start <= end < (DayOf(start) + 1) * MinutesPerDay
    ensures OutsideHoursAsWritten(schedules, spec, start, end) == OutsideHours(schedules, spec, start, end)
  {
    assert DayOf(end) == DayOf(start);
    assert end == DayOf(start) * MinutesPerDay + MinuteOfDay(end);
  }

  /** A specialist working Monday 09:00-23:59 is asked for 23:00 with a
      60-minute service and the default 15-minute buffer: the span ends at
      00:15 on Tuesday, after the schedule's end, yet the as-written check
      reports no conflict at all. */
  lemma MidnightSpanMissed()
    ensures var cat := Catalog([], [], [], [], [], {}, DefaultBufferMinutes);
      var v := ServiceVariant(1, 1, "60", 60);
      var schedules := [Schedule(1, 0, 540, 1439)];
      var cab := Cabinet(1, "1", 1, true);
      CheckBookingConflictsAsWritten(cat, schedules, [], 1380, v, 1, cab, None) == None
      && CheckBookingConflicts(cat, schedules, [], 1380, v, 1, cab, None) == Some(Conflicts(false, false, true, false))
  {
    var schedules := [Schedule(1, 0, 540, 1439)];
    assert FirstSchedule(schedules, 1, 0) == Some(schedules[0]);
    assert MinuteOfDay(1455) == 15;
  }

  // ------------------------------------------------------------- messages

  /** Picks the labels whose flag is set, keeping their order. */
  function Selected(flags: seq<bool>, labels: seq<string>): (r: seq<string>)
    requires |flags| == |labels|
    ensures |r| <= |labels|
    ensures forall x :: x in r ==> x in labels
  {
    if flags == [] then []
    else (if flags[0] then [labels[0]] else []) + Selected(flags[1..], labels[1..])
  }

  /** Labels of `format_conflict_message` (views) and of the restore failure text. */
  const ShortLabels: seq<string> := ["специалист занят", "кабинет занят", "специалист не работает", "кабинет недоступен"]

  /** Sentences of the edit form's blocking error. */
  const FormLabels: seq<string> := [
    "Специалист занят в это время", "Кабинет занят в это время",
    "Специалист не работает в это время", "Кабинет недоступен в это время"]

  predicate DistinctNonEmpty(labels: seq<string>) {
    (forall i :: 0 <= i < |labels| ==> labels[i] != [])
    && (forall i, j :: 0 <= i < j < |labels| ==> labels[i] != labels[j])
  }

  lemma LabelSetsDistinct()
    ensures DistinctNonEmpty(ShortLabels) && DistinctNonEmpty(FormLabels)
  {
  }

  /** A label is selected iff its flag is set (labels pairwise distinct). */
  lemma {:induction false} SelectedMembership(flags: seq<bool>, labels: seq<string>, i: nat)
    requires |flags| == |labels| && i < |labels| && DistinctNonEmpty(labels)
    ensures labels[i] in Selected(flags, labels) <==> flags[i]
    decreases |labels|
  {
    if i > 0 {
      assert DistinctNonEmpty(labels[1..]) by {
        forall a, b | 0 <= a < b < |labels[1..]| ensures labels[1..][a] != labels[1..][b] {
          assert labels[1..][a] == labels[a + 1] && labels[1..][b] == labels[b + 1];
        }
      }
      SelectedMembership(flags[1..], labels[1..], i - 1);
      assert labels[1..][i - 1] == labels[i];
    }
  }

  /** Nothing is selected iff no flag is set. */
  lemma {:induction false} SelectedEmpty(flags: seq<bool>, labels: seq<string>)
    requires |flags| == |labels|
    ensures Selected(flags, labels) == [] <==> forall i :: 0 <= i < |flags| ==> !flags[i]
    decreases |flags|
  {
    if flags != [] {
      SelectedEmpty(flags[1..], labels[1..]);
      assert forall i :: 1 <= i < |flags| ==> flags[i] == flags[1..][i - 1];
    }
  }

  lemma JoinEmpty(parts: seq<string>, sep: string)
    requires forall i :: 0 <= i < |parts| ==> parts[i] != []
    ensures Join(parts, sep) == [] <==> parts == []
  {
  }

  lemma AnyFlag(c: Conflicts)
    ensures c.Any() <==> exists i :: 0 <= i < 4 && c.Flags()[i]
  {
    assert c.Any() <==> c.Flags()[0] || c.Flags()[1] || c.Flags()[2] || c.Flags()[3];
  }

  /** `format_conflict_message`: the labels of the set flags, in the fixed
      order, joined by ", ". */
  function FormatConflictMessage(c: Conflicts): (r: string)
    ensures r == "" <==> !c.Any()
    ensures forall i :: 0 <= i < 4 ==> (ShortLabels[i] in Selected(c.Flags(), ShortLabels) <==> c.Flags()[i])
  {
    var parts := Selected(c.Flags(), ShortLabels);
    SelectedEmpty(c.Flags(), ShortLabels);
    AnyFlag(c);
    forall i | 0 <= i < |parts| ensures parts[i] != [] {
      assert parts[i] in ShortLabels;
    }
    JoinEmpty(parts, ", ");
    forall i | 0 <= i < 4 ensures ShortLabels[i] in parts <==> c.Flags()[i] {
      SelectedMembership(c.Flags(), ShortLabels, i);
    }
    Join(parts, ", ")
  }

  /** Separating the message at ", " recovers exactly the selected labels. */
  lemma FormatConflictMessageParts(c: Conflicts)
    requires c.Any()
    ensures Split(FormatConflictMessage(c), ',') == SplitLabels(Selected(c.Flags(), ShortLabels))
  {
    var parts := Selected(c.Flags(), ShortLabels);
    SelectedEmpty(c.Flags(), ShortLabels);
    AnyFlag(c);
    JoinCommaSpace(parts);
  }

  lemma NoCommaInLabels()
    ensures forall x :: x in ShortLabels ==> ',' !in x
  {
    assert ',' !in ShortLabels[0];
    assert ',' !in ShortLabels[1];
    assert ',' !in ShortLabels[2];
    assert ',' !in ShortLabels[3];
  }

  /** Each label after the first, as it appears after a comma (with its leading space). */
  function SplitLabels(parts: seq<string>): seq<string>
    requires parts != []
  {
    [parts[0]] + seq(|parts| - 1, i requires 0 <= i < |parts| - 1 => " " + parts[i + 1])
  }

  lemma {:induction false} JoinCommaSpace(parts: seq<string>)
    requires parts != []
    requires forall x :: x in parts ==> x in ShortLabels
    ensures Split(Join(parts, ", "), ',') == SplitLabels(parts)
    decreases |parts|
  {
    var q := SplitLabels(parts);
    NoCommaInLabels();
    forall i | 0 <= i < |q| ensures ',' !in q[i] {
      if i > 0 {
        assert q[i] == " " + parts[i];
        assert parts[i] in ShortLabels;
      }
    }
    assert Join(parts, ", ") == Join(q, [',']) by {
      JoinShift(parts);
    }
    SplitJoin(q, ',');
  }

  lemma {:induction false} JoinShift(parts: seq<string>)
    requires parts != []
    ensures Join(parts, ", ") == Join(SplitLabels(parts), [','])
    decreases |parts|
  {
    if |parts| > 1 {
      JoinShift(parts[1..]);
      var q := SplitLabels(parts);
      var q' := SplitLabels(parts[1..]);
      assert q[1..] == [" " + parts[1]] + q'[1..];
      JoinHeadSpace(q');
    }
  }

  /** Prefixing a space to the first part prefixes it to the join. */
  lemma JoinHeadSpace(q: seq<string>)
    requires q != []
    ensures Join([" " + q[0]] + q[1..], [',']) == " " + Join(q, [','])
  {
    var q2 := [" " + q[0]] + q[1..];
    assert q2[1..] == q[1..];
  }

  // ------------------------------------------------- occurrence conflicts

  /** One conflicting occurrence: its 1-based position, start and flags. */
  datatype Issue = Issue(index: nat, start: int, conflicts: Conflicts)

  /** The id excluded for the occurrence at 1-based `index`, matched by position. */
  function ExcludeFor(excludeIds: seq<Id>, index: nat): (r: Option<Id>)
    requires index >= 1
    ensures r.Some? <==> index - 1 < |excludeIds|
    ensures r.Some? ==> r.value == excludeIds[index - 1]
  {
    if index - 1 < |excludeIds| then Some(excludeIds[index - 1]) else None
  }

  /** The issues found among the first n occurrences. */
  function IssuesUpTo(check: (int, Option<Id>) -> Option<Conflicts>, occurrences: seq<int>, excludeIds: seq<Id>, n: nat): seq<Issue>
    requires n <= |occurrences|
  {
    if n == 0 then []
    else
      var report := check(occurrences[n - 1], ExcludeFor(excludeIds, n));
      IssuesUpTo(check, occurrences, excludeIds, n - 1)
      + (if report.Some? then [Issue(n, occurrences[n - 1], report.value)] else [])
  }

  /** Every issue carries a 1-based position among the first n, the start
      found there and the report of that occurrence's own check; positions
      strictly increase (input order). */
  predicate IssuesSoundFor(check: (int, Option<Id>) -> Option<Conflicts>, occurrences: seq<int>, excludeIds: seq<Id>, n: nat, issues: seq<Issue>)
    requires n <= |occurrences|
  {
    (forall k :: 0 <= k < |issues| ==>
       1 <= issues[k].index <= n
       && issues[k].start == occurrences[issues[k].index - 1]
       && check(issues[k].start, ExcludeFor(excludeIds, issues[k].index)) == Some(issues[k].conflicts))
    && (forall k, l :: 0 <= k < l < |issues| ==> issues[k].index < issues[l].index)
  }

  lemma {:induction false} IssuesSound(check: (int, Option<Id>) -> Option<Conflicts>, occurrences: seq<int>, excludeIds: seq<Id>, n: nat)
    requires n <= |occurrences|
    ensures IssuesSoundFor(check, occurrences, excludeIds, n, IssuesUpTo(check, occurrences, excludeIds, n))
    decreases n
  {
    if n > 0 {
      IssuesSound(check, occurrences, excludeIds, n - 1);
      var before := IssuesUpTo(check, occurrences, excludeIds, n - 1);
      var report := check(occurrences[n - 1], ExcludeFor(excludeIds, n));
      if report.Some? {
        var issues := before + [Issue(n, occurrences[n - 1], report.value)];
        assert forall k :: 0 <= k < |before| ==> issues[k] == before[k];
        assert IssuesSoundFor(check, occurrences, excludeIds, n, issues);
      }
    }
  }

  /** Some issue of the list is about the occurrence at 1-based position `pos`. */
  predicate Reported(issues: seq<Issue>, pos: nat) {
    exists k :: 0 <= k < |issues| && issues[k].index == pos
  }

  lemma ReportedAppend(before: seq<Issue>, extra: seq<Issue>, pos: nat)
    ensures Reported(before + extra, pos) <==> Reported(before, pos) || Reported(extra, pos)
  {
    var all := before + extra;
    if Reported(all, pos) {
      var k :| 0 <= k < |all| && all[k].index == pos;
      if k < |before| { assert before[k] == all[k]; } else { assert extra[k - |before|] == all[k]; }
    }
    if Reported(before, pos) {
      var k :| 0 <= k < |before| && before[k].index == pos;
      assert all[k] == before[k];
    }
    if Reported(extra, pos) {
      var k :| 0 <= k < |extra| && extra[k].index == pos;
      assert all[|before| + k] == extra[k];
    }
  }

  /** The issues among the first n occurrences have positions at most n. */
  lemma {:induction false} IssuesBelow(check: (int, Option<Id>) -> Option<Conflicts>, occurrences: seq<int>, excludeIds: seq<Id>, n: nat, pos: nat)
    requires n <= |occurrences| && pos > n
    ensures !Reported(IssuesUpTo(check, occurrences, excludeIds, n), pos)
    decreases n
  {
    if n > 0 {
      IssuesBelow(check, occurrences, excludeIds, n - 1, pos);
      var report := check(occurrences[n - 1], ExcludeFor(excludeIds, n));
      var extra := if report.Some? then [Issue(n, occurrences[n - 1], report.value)] else [];
      ReportedAppend(IssuesUpTo(check, occurrences, excludeIds, n - 1), extra, pos);
    }
  }

  /** An occurrence among the first n is reported iff its check reports a conflict. */
  lemma {:induction false} IssuesComplete(check: (int, Option<Id>) -> Option<Conflicts>, occurrences: seq<int>, excludeIds: seq<Id>, n: nat)
    requires n <= |occurrences|
    ensures var issues := IssuesUpTo(check, occurrences, excludeIds, n);
      forall i :: 0 <= i < n ==>
        (check(occurrences[i], ExcludeFor(excludeIds, i + 1)).Some? <==> Reported(issues, i + 1))
    decreases n
  {
    if n > 0 {
      IssuesComplete(check, occurrences, excludeIds, n - 1);
      var before := IssuesUpTo(check, occurrences, excludeIds, n - 1);
      var report := check(occurrences[n - 1], ExcludeFor(excludeIds, n));
      var extra := if report.Some? then [Issue(n, occurrences[n - 1], report.value)] else [];
      assert IssuesUpTo(check, occurrences, excludeIds, n) == before + extra;
      forall i | 0 <= i < n
        ensures check(occurrences[i], ExcludeFor(excludeIds, i + 1)).Some? <==> Reported(before + extra, i + 1)
      {
        ReportedAppend(before, extra, i + 1);
        if i == n - 1 {
          IssuesBelow(check, occurrences, excludeIds, n - 1, n);
          if report.Some? { assert extra[0].index == n; }
        } else {
          assert !Reported(extra, i + 1);
        }
      }
    }
  }

  /** `detect_occurrence_conflicts`, with `check(start, exclude)` standing for
      `check_booking_conflicts` on the fixed service variant, specialist and
      cabinet (see `ConflictCheck`); the i-th occurrence is checked excluding
      the i-th id of `excludeIds` when there is one. */
  method DetectOccurrenceConflicts(
    check: (int, Option<Id>) -> Option<Conflicts>, occurrences: seq<int>, excludeIds: seq<Id>)
    returns (issues: seq<Issue>)
    ensures issues == IssuesUpTo(check, occurrences, excludeIds, |occurrences|)
  {
    issues := [];
    var i := 0;
    while i < |occurrences|
      invariant 0 <= i <= |occurrences|
      invariant issues == IssuesUpTo(check, occurrences, excludeIds, i)
    {
      var index := i + 1;
      var exclude := None;
      if excludeIds != [] && index - 1 < |excludeIds| {
        exclude := Some(excludeIds[index - 1]);
      }
      var conflicts := check(occurrences[i], exclude);
      if conflicts.Some? {
        issues := issues + [Issue(index, occurrences[i], conflicts.value)];
      }
      i := i + 1;
    }
  }

  /** `check_booking_conflicts` with the service variant, specialist and
      cabinet fixed, as `detect_occurrence_conflicts` calls it. */
  function ConflictCheck(
    cat: Catalog, schedules: seq<Schedule>, bookings: seq<Booking>,
    variant: ServiceVariant, spec: Id, cabinet: Cabinet): (check: (int, Option<Id>) -> Option<Conflicts>)
    ensures forall t, ex :: check(t, ex) == CheckBookingConflicts(cat, schedules, bookings, t, variant, spec, cabinet, ex)
  {
    (t, ex) => CheckBookingConflicts(cat, schedules, bookings, t, variant, spec, cabinet, ex)
  }
}
