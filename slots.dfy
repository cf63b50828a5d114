/** `find_available_slots`: for one date and one service variant, the free
    (time, specialist) pairs on a 15-minute grid through each eligible
    specialist's working hours, each with the cabinets free for the span. */
module Slots {
  import opened Common
  import opened Models
  import opened Sorting

  /** Step of the slot grid, in minutes. */
  const TimeIncrement: int := 15

  datatype Slot = Slot(startTime: int, specialist: Id, availableCabinets: seq<Cabinet>, cabinet: Cabinet)

  /** Everything the search reads, fixed before the grid walk starts. */
  datatype SlotQuery = SlotQuery(
    dayStart: int,
    total: nat,
    validCabinets: seq<Cabinet>,
    schedules: seq<Schedule>,
    existing: seq<Booking>)

  // ------------------------------------------------------------ the queries

  /** Active cabinets of a type the service requires, in table order. */
  function ValidCabinets(cabinets: seq<Cabinet>, required: seq<Id>): (r: seq<Cabinet>)
    ensures forall c :: c in r <==> c in cabinets && c.isActive && c.cabinetType in required
  {
    if cabinets == [] then []
    else
      (if cabinets[0].isActive && cabinets[0].cabinetType in required then [cabinets[0]] else [])
      + ValidCabinets(cabinets[1..], required)
  }

  predicate CanPerform(specialists: seq<Specialist>, spec: Id, service: Id) {
    exists sp :: sp in specialists && sp.id == spec && service in sp.servicesCanPerform
  }

  /** Schedules on the weekday of specialists able to perform the service. */
  function DaySchedules(schedules: seq<Schedule>, specialists: seq<Specialist>, service: Id, weekday: int): (r: seq<Schedule>)
    ensures forall s :: s in r <==> s in schedules && s.dayOfWeek == weekday && CanPerform(specialists, s.specialist, service)
  {
    if schedules == [] then []
    else
      (if schedules[0].dayOfWeek == weekday && CanPerform(specialists, schedules[0].specialist, service)
       then [schedules[0]] else [])
      + DaySchedules(schedules[1..], specialists, service, weekday)
  }

  /** Confirmed bookings starting on the day (from 00:00 to the last minute). */
  function DayBookings(bookings: seq<Booking>, dayStart: int): (r: seq<Booking>)
    ensures forall b :: b in r <==> b in bookings && b.status == Confirmed && dayStart <= b.startTime <= dayStart + MinutesPerDay - 1
  {
    if bookings == [] then []
    else
      (if bookings[0].status == Confirmed && dayStart <= bookings[0].startTime <= dayStart + MinutesPerDay - 1
       then [bookings[0]] else [])
      + DayBookings(bookings[1..], dayStart)
  }

  function Query(cat: Catalog, schedules: seq<Schedule>, bookings: seq<Booking>, date: int, variant: ServiceVariant): SlotQuery
    requires FindService(cat.services, variant.service).Some?
  {
    var service := FindService(cat.services, variant.service).value;
    var dayStart := date * MinutesPerDay;
    SlotQuery(
      dayStart,
      TotalMinutes(cat, variant),
      ValidCabinets(cat.cabinets, service.requiredCabinetTypes),
      DaySchedules(schedules, cat.specialists, service.id, date % 7),
      DayBookings(bookings, dayStart))
  }

  // -------------------------------------------------------- slot predicates

  predicate SpecialistFree(q: SlotQuery, spec: Id, t: int) {
    forall b :: b in q.existing && b.specialist == spec ==> !Overlaps(b.startTime, b.endTime, t, t + q.total)
  }

  predicate CabinetFree(q: SlotQuery, id: Id, t: int) {
    forall b :: b in q.existing && b.cabinet == id ==> !Overlaps(b.startTime, b.endTime, t, t + q.total)
  }

  /** The valid cabinets that no overlapping booking uses, in table order. */
  function FreeCabinets(q: SlotQuery, cabs: seq<Cabinet>, t: int): (r: seq<Cabinet>)
    ensures forall c :: c in r <==> c in cabs && CabinetFree(q, c.id, t)
  {
    if cabs == [] then []
    else (if CabinetFree(q, cabs[0].id, t) then [cabs[0]] else []) + FreeCabinets(q, cabs[1..], t)
  }

  predicate OnGrid(q: SlotQuery, sched: Schedule, t: int) {
    t >= q.dayStart + sched.startTime && (t - q.dayStart - sched.startTime) % TimeIncrement == 0
  }

  predicate Fits(q: SlotQuery, sched: Schedule, t: int) {
    t + q.total <= q.dayStart + sched.endTime
  }

  /** A grid point of `sched` the search must offer. */
  predicate Offered(q: SlotQuery, sched: Schedule, t: int) {
    OnGrid(q, sched, t) && Fits(q, sched, t) && SpecialistFree(q, sched.specialist, t)
    && FreeCabinets(q, q.validCabinets, t) != []
  }

  function CabIds(s: seq<Cabinet>): set<Id> {
    set c | c in s :: c.id
  }

  predicate DistinctIds(s: seq<Cabinet>) {
    forall i, j :: 0 <= i < j < |s| ==> s[i].id != s[j].id
  }

  predicate FromSchedule(q: SlotQuery, s: Slot) {
    exists sched :: sched in q.schedules && sched.specialist == s.specialist
                    && OnGrid(q, sched, s.startTime) && Fits(q, sched, s.startTime)
  }

  /** What every returned slot promises. */
  predicate SlotOk(q: SlotQuery, s: Slot) {
    FromSchedule(q, s)
    && SpecialistFree(q, s.specialist, s.startTime)
    && s.availableCabinets != [] && s.cabinet == s.availableCabinets[0]
    && (forall c :: c in s.availableCabinets ==> c in q.validCabinets && CabinetFree(q, c.id, s.startTime))
    && DistinctIds(s.availableCabinets)
  }

  predicate DistinctKeys(slots: seq<Slot>) {
    forall i, j :: 0 <= i < j < |slots| ==>
      slots[i].startTime != slots[j].startTime || slots[i].specialist != slots[j].specialist
  }

  /** A slot with this key lists (by id) at least the given cabinets. */
  predicate Covered(slots: seq<Slot>, t: int, spec: Id, cabs: seq<Cabinet>) {
    exists s :: s in slots && s.startTime == t && s.specialist == spec && CabIds(cabs) <= CabIds(s.availableCabinets)
  }

  function StartKey(s: Slot): seq<int> { [s.startTime] }

  function SlotKey(s: Slot): (int, Id) { (s.startTime, s.specialist) }

  // ------------------------------------------------ first-seen de-duplication

  /** The cabinets of all[..n] with later repeats of an id dropped. */
  function Dedup(all: seq<Cabinet>, n: nat): seq<Cabinet>
    requires n <= |all|
  {
    if n == 0 then []
    else
      var d := Dedup(all, n - 1);
      if all[n - 1].id in CabIds(d) then d else d + [all[n - 1]]
  }

  lemma CabIdsAppend(s: seq<Cabinet>, c: Cabinet)
    ensures CabIds(s + [c]) == CabIds(s) + {c.id}
  {
    assert forall x :: x in s + [c] <==> x in s || x == c;
  }

  /** De-duplication keeps one cabinet per id, only cabinets of the input,
      every id of the input, and the input's first cabinet first. */
  lemma {:induction false} DedupFacts(all: seq<Cabinet>, n: nat)
    requires n <= |all|
    ensures DistinctIds(Dedup(all, n))
    ensures CabIds(Dedup(all, n)) == CabIds(all[..n])
    ensures forall c :: c in Dedup(all, n) ==> c in all[..n]
    ensures n > 0 ==> Dedup(all, n) != [] && Dedup(all, n)[0] == all[0]
    decreases n
  {
    if n > 0 {
      DedupFacts(all, n - 1);
      var d := Dedup(all, n - 1);
      assert all[..n] == all[..n - 1] + [all[n - 1]];
      CabIdsAppend(all[..n - 1], all[n - 1]);
      if all[n - 1].id !in CabIds(d) {
        CabIdsAppend(d, all[n - 1]);
        var e := d + [all[n - 1]];
        forall i, j | 0 <= i < j < |e| ensures e[i].id != e[j].id {
          if j == |d| {
            assert e[i] == d[i] && d[i] in d;
          } else {
            assert e[i] == d[i] && e[j] == d[j];
          }
        }
      }
      if n == 1 {
        assert d == [];
      }
    }
  }

  /** The merge of a slot's cabinet list with newly found cabinets (a loop
      with a set of seen ids). */
  method MergeCabinets(current: seq<Cabinet>, found: seq<Cabinet>) returns (unique: seq<Cabinet>)
    ensures unique == Dedup(current + found, |current + found|)
  {
    var all := current + found;
    unique := [];
    var seen: set<Id> := {};
    var i := 0;
    while i < |all|
      invariant 0 <= i <= |all|
      invariant unique == Dedup(all, i)
      invariant seen == CabIds(unique)
    {
      var cab := all[i];
      if cab.id !in seen {
        CabIdsAppend(unique, cab);
        unique := unique + [cab];
        seen := seen + {cab.id};
      }
      i := i + 1;
    }
  }

  // ------------------------------------------------------- the slot table

  /** Position of the slot with this (start, specialist) key. */
  function IndexOfKey(slots: seq<Slot>, t: int, spec: Id): (r: Option<nat>)
    ensures r.Some? ==> r.value < |slots| && slots[r.value].startTime == t && slots[r.value].specialist == spec
    ensures r.None? ==> forall s :: s in slots ==> s.startTime != t || s.specialist != spec
  {
    if slots == [] then None
    else if slots[0].startTime == t && slots[0].specialist == spec then Some(0)
    else match IndexOfKey(slots[1..], t, spec)
      case None => None
      case Some(k) => Some(k + 1)
  }

  /** Adding a free grid point of `sched` keeps every slot sound, the keys
      distinct, every earlier coverage, and covers the new point. */
  lemma {:induction false} AddPointFacts(q: SlotQuery, sched: Schedule, slots: seq<Slot>, t: int, merged: seq<Cabinet>, idx: nat)
    requires sched in q.schedules && OnGrid(q, sched, t) && Fits(q, sched, t) && SpecialistFree(q, sched.specialist, t)
    requires FreeCabinets(q, q.validCabinets, t) != []
    requires forall s :: s in slots ==> SlotOk(q, s)
    requires DistinctKeys(slots)
    requires idx < |slots| && slots[idx].startTime == t && slots[idx].specialist == sched.specialist
    requires merged == Dedup(slots[idx].availableCabinets + FreeCabinets(q, q.validCabinets, t),
                             |slots[idx].availableCabinets + FreeCabinets(q, q.validCabinets, t)|)
    ensures var r := slots[idx := slots[idx].(availableCabinets := merged)];
      (forall s :: s in r ==> SlotOk(q, s)) && DistinctKeys(r)
      && Covered(r, t, sched.specialist, FreeCabinets(q, q.validCabinets, t))
      && (forall t', spec, cabs :: Covered(slots, t', spec, cabs) ==> Covered(r, t', spec, cabs))
  {
    var avail := FreeCabinets(q, q.validCabinets, t);
    var prev := slots[idx];
    assert prev in slots;
    MergedSlotFacts(q, prev, avail, merged);
    var ns := prev.(availableCabinets := merged);
    ReplaceSlotFacts(q, slots, idx, ns);
    var r := slots[idx := ns];
    assert r[idx] in r;
  }

  /** The slot with the merged cabinet list is still sound and lists every
      cabinet of both lists. */
  lemma MergedSlotFacts(q: SlotQuery, prev: Slot, avail: seq<Cabinet>, merged: seq<Cabinet>)
    requires SlotOk(q, prev)
    requires forall c :: c in avail ==> c in q.validCabinets && CabinetFree(q, c.id, prev.startTime)
    requires merged == Dedup(prev.availableCabinets + avail, |prev.availableCabinets + avail|)
    ensures SlotOk(q, prev.(availableCabinets := merged))
    ensures CabIds(merged) == CabIds(prev.availableCabinets) + CabIds(avail)
  {
    var all := prev.availableCabinets + avail;
    DedupFacts(all, |all|);
    assert all[..|all|] == all;
    var ns := prev.(availableCabinets := merged);
    assert FromSchedule(q, ns) by { assert FromSchedule(q, prev); }
    forall c | c in merged ensures c in q.validCabinets && CabinetFree(q, c.id, prev.startTime) {
      assert c in all;
    }
    assert merged[0] == all[0] == prev.availableCabinets[0];
    forall x ensures x in CabIds(all) <==> x in CabIds(prev.availableCabinets) + CabIds(avail) {
      if x in CabIds(all) {
        var c :| c in all && c.id == x;
      }
      if x in CabIds(avail) {
        var c :| c in avail && c.id == x;
        assert c in all;
      }
      if x in CabIds(prev.availableCabinets) {
        var c :| c in prev.availableCabinets && c.id == x;
        assert c in all;
      }
    }
  }

  /** Replacing a slot by a sound one with the same key and at least its
      cabinets keeps the table sound, its keys distinct, and every coverage. */
  lemma ReplaceSlotFacts(q: SlotQuery, slots: seq<Slot>, idx: nat, ns: Slot)
    requires forall s :: s in slots ==> SlotOk(q, s)
    requires DistinctKeys(slots)
    requires idx < |slots| && ns.startTime == slots[idx].startTime && ns.specialist == slots[idx].specialist
    requires SlotOk(q, ns) && CabIds(slots[idx].availableCabinets) <= CabIds(ns.availableCabinets)
    ensures var r := slots[idx := ns];
      (forall s :: s in r ==> SlotOk(q, s)) && DistinctKeys(r)
      && (forall t', spec, cabs :: Covered(slots, t', spec, cabs) ==> Covered(r, t', spec, cabs))
  {
    var r := slots[idx := ns];
    forall s | s in r ensures SlotOk(q, s) {
      var i :| 0 <= i < |r| && r[i] == s;
      if i != idx { assert s == slots[i]; }
    }
    forall t', spec, cabs | Covered(slots, t', spec, cabs) ensures Covered(r, t', spec, cabs) {
      var s :| s in slots && s.startTime == t' && s.specialist == spec && CabIds(cabs) <= CabIds(s.availableCabinets);
      var i :| 0 <= i < |slots| && slots[i] == s;
      assert r[i] in r;
    }
  }

  lemma {:induction false} AppendPointFacts(q: SlotQuery, sched: Schedule, slots: seq<Slot>, t: int)
    requires sched in q.schedules && OnGrid(q, sched, t) && Fits(q, sched, t) && SpecialistFree(q, sched.specialist, t)
    requires FreeCabinets(q, q.validCabinets, t) != []
    requires forall s :: s in slots ==> SlotOk(q, s)
    requires DistinctKeys(slots)
    requires forall s :: s in slots ==> s.startTime != t || s.specialist != sched.specialist
    requires DistinctIds(q.validCabinets)
    ensures var avail := FreeCabinets(q, q.validCabinets, t);
      var r := slots + [Slot(t, sched.specialist, avail, avail[0])];
      (forall s :: s in r ==> SlotOk(q, s)) && DistinctKeys(r)
      && Covered(r, t, sched.specialist, avail)
      && (forall t', spec, cabs :: Covered(slots, t', spec, cabs) ==> Covered(r, t', spec, cabs))
  {
    var avail := FreeCabinets(q, q.validCabinets, t);
    var ns := Slot(t, sched.specialist, avail, avail[0]);
    var r := slots + [ns];
    FreeCabinetsDistinct(q, q.validCabinets, t);
    assert SlotOk(q, ns);
    assert ns in r;
    forall i, j | 0 <= i < j < |r| ensures r[i].startTime != r[j].startTime || r[i].specialist != r[j].specialist {
      if j == |slots| { assert r[i] in slots; }
    }
  }

  /** Valid cabinets have distinct ids when the cabinet table does. */
  lemma {:induction false} FreeCabinetsDistinct(q: SlotQuery, cabs: seq<Cabinet>, t: int)
    requires DistinctIds(q.validCabinets)
    ensures DistinctIds(FreeCabinets(q, q.validCabinets, t))
  {
    FreeSubsequence(q, q.validCabinets, t);
  }

  lemma {:induction false} FreeSubsequence(q: SlotQuery, cabs: seq<Cabinet>, t: int)
    requires DistinctIds(cabs)
    ensures DistinctIds(FreeCabinets(q, cabs, t))
    decreases |cabs|
  {
    if cabs != [] {
      var tail := cabs[1..];
      assert DistinctIds(tail) by {
        forall i, j | 0 <= i < j < |tail| ensures tail[i].id != tail[j].id {
          assert tail[i] == cabs[i + 1] && tail[j] == cabs[j + 1];
        }
      }
      FreeSubsequence(q, tail, t);
      var rest := FreeCabinets(q, tail, t);
      if CabinetFree(q, cabs[0].id, t) {
        var r := [cabs[0]] + rest;
        forall i, j | 0 <= i < j < |r| ensures r[i].id != r[j].id {
          if i == 0 {
            assert r[j] in rest;
            var k :| 0 <= k < |tail| && tail[k] == r[j];
            assert cabs[k + 1] == r[j];
          } else {
            assert r[i] == rest[i - 1] && r[j] == rest[j - 1];
          }
        }
      }
    }
  }

  /** Two points of the same grid less than one step apart coincide. */
  lemma GridStep(q: SlotQuery, sched: Schedule, t: int, t': int)
    requires OnGrid(q, sched, t) && OnGrid(q, sched, t')
    requires t <= t' < t + TimeIncrement
    ensures t' == t
  {
    var base := q.dayStart + sched.startTime;
    var a := (t - base) / TimeIncrement;
    var b := (t' - base) / TimeIncrement;
    assert t - base == TimeIncrement * a;
    assert t' - base == TimeIncrement * b;
  }

  /** The next point of a grid is on the grid. */
  lemma GridNext(q: SlotQuery, sched: Schedule, t: int)
    requires OnGrid(q, sched, t)
    ensures OnGrid(q, sched, t + TimeIncrement)
  {
    var base := q.dayStart + sched.startTime;
    var a := (t - base) / TimeIncrement;
    assert t - base == TimeIncrement * a;
    assert t + TimeIncrement - base == TimeIncrement * (a + 1);
  }

  // -------------------------------------------------------------- the search

  /** The grid walk through one schedule (the inner `while` of the search):
      starting at the schedule's start and advancing 15 minutes while the
      span still ends by the schedule's end, every free point with a free
      valid cabinet is merged into the table. Earlier slots stay covered. */
  method WalkSchedule(q: SlotQuery, sched: Schedule, table0: seq<Slot>) returns (table: seq<Slot>)
    requires sched in q.schedules && DistinctIds(q.validCabinets)
    requires forall s :: s in table0 ==> SlotOk(q, s)
    requires DistinctKeys(table0)
    ensures forall s :: s in table ==> SlotOk(q, s)
    ensures DistinctKeys(table)
    ensures forall t', spec, cabs :: Covered(table0, t', spec, cabs) ==> Covered(table, t', spec, cabs)
    ensures forall t :: Offered(q, sched, t) ==> Covered(table, t, sched.specialist, FreeCabinets(q, q.validCabinets, t))
  {
    table := table0;
    var specialist := sched.specialist;
    var slotStart := q.dayStart + sched.startTime;
    var slotEnd := slotStart + q.total;
    while slotEnd <= q.dayStart + sched.endTime
      invariant slotEnd == slotStart + q.total
      invariant OnGrid(q, sched, slotStart)
      invariant forall s :: s in table ==> SlotOk(q, s)
      invariant DistinctKeys(table)
      invariant forall t', spec, cabs :: Covered(table0, t', spec, cabs) ==> Covered(table, t', spec, cabs)
      invariant forall t :: t < slotStart && Offered(q, sched, t) ==>
                  Covered(table, t, specialist, FreeCabinets(q, q.validCabinets, t))
      decreases q.dayStart + sched.endTime - slotStart
    {
      var isSpecialistBusy := exists b :: b in q.existing && b.specialist == specialist
                                        && b.startTime < slotEnd && b.endTime > slotStart;
      ghost var before := table;
      if !isSpecialistBusy {
        var availableCabinets := FreeCabinets(q, q.validCabinets, slotStart);
        if availableCabinets != [] {
          var idx := IndexOfKey(table, slotStart, specialist);
          if idx.Some? {
            var merged := MergeCabinets(table[idx.value].availableCabinets, availableCabinets);
            AddPointFacts(q, sched, table, slotStart, merged, idx.value);
            table := table[idx.value := table[idx.value].(availableCabinets := merged)];
          } else {
            AppendPointFacts(q, sched, table, slotStart);
            table := table + [Slot(slotStart, specialist, availableCabinets, availableCabinets[0])];
          }
        }
      }
      forall t | t < slotStart + TimeIncrement && Offered(q, sched, t)
        ensures Covered(table, t, specialist, FreeCabinets(q, q.validCabinets, t))
      {
        if t < slotStart {
          assert Covered(before, t, specialist, FreeCabinets(q, q.validCabinets, t));
        } else {
          GridStep(q, sched, slotStart, t);
        }
      }
      GridNext(q, sched, slotStart);
      slotStart := slotStart + TimeIncrement;
      slotEnd := slotStart + q.total;
    }
  }

  /** Sorting the table by start keeps its slots, their soundness and
      distinct keys, keeps every coverage, and orders it by start. */
  lemma SortedTableFacts(q: SlotQuery, table: seq<Slot>)
    requires forall s :: s in table ==> SlotOk(q, s)
    requires DistinctKeys(table)
    ensures var slots := SortBy(table, StartKey);
      (forall s :: s in slots ==> SlotOk(q, s))
      && DistinctKeys(slots)
      && (forall i, j :: 0 <= i < j < |slots| ==> slots[i].startTime <= slots[j].startTime)
      && (forall t, spec, cabs :: Covered(table, t, spec, cabs) ==> Covered(slots, t, spec, cabs))
  {
    var slots := SortBy(table, StartKey);
    SortByMembers(table, StartKey);
    SortBySorted(table, StartKey);
    assert DistinctBy(table, SlotKey);
    SortByDistinct(table, StartKey, SlotKey);
    forall i, j | 0 <= i < j < |slots| ensures slots[i].startTime <= slots[j].startTime {
      LexLeSingleton(slots[i].startTime, slots[j].startTime);
    }
    forall t, spec, cabs | Covered(table, t, spec, cabs) ensures Covered(slots, t, spec, cabs) {
      var s :| s in table && s.startTime == t && s.specialist == spec && CabIds(cabs) <= CabIds(s.availableCabinets);
      assert s in slots;
    }
  }

  /** The slots of the day for the service variant. Every slot lies on a
      schedule's 15-minute grid and ends by its end; the specialist has no
      overlapping confirmed booking that starts that day; every listed
      cabinet is valid and free, the list is non-empty, id-distinct and its
      first element is `cabinet`; at most one slot per (start, specialist);
      the output is ordered by start. Conversely every such grid point with a
      free valid cabinet appears, listing all of them. */
  method FindAvailableSlots(cat: Catalog, schedules: seq<Schedule>, bookings: seq<Booking>, date: int, variant: ServiceVariant)
    returns (slots: seq<Slot>)
    requires FindService(cat.services, variant.service).Some?
    requires DistinctIds(cat.cabinets)
    ensures var q := Query(cat, schedules, bookings, date, variant);
      (forall s :: s in slots ==> SlotOk(q, s))
      && DistinctKeys(slots)
      && (forall i, j :: 0 <= i < j < |slots| ==> slots[i].startTime <= slots[j].startTime)
      && (forall sched, t :: sched in q.schedules && Offered(q, sched, t) ==>
            Covered(slots, t, sched.specialist, FreeCabinets(q, q.validCabinets, t)))
  {
    var q := Query(cat, schedules, bookings, date, variant);
    var service := FindService(cat.services, variant.service).value;
    var total := variant.durationMinutes + cat.bufferTimeMinutes;
    var validCabinets := ValidCabinets(cat.cabinets, service.requiredCabinetTypes);
    var daySchedules := DaySchedules(schedules, cat.specialists, service.id, date % 7);
    var dayStart := date * MinutesPerDay;
    var existing := DayBookings(bookings, dayStart);
    assert q == SlotQuery(dayStart, total, validCabinets, daySchedules, existing);
    assert DistinctIds(validCabinets) by {
      ValidSubsequence(cat.cabinets, service.requiredCabinetTypes);
    }

    var table: seq<Slot> := [];
    var si := 0;
    while si < |daySchedules|
      invariant 0 <= si <= |daySchedules|
      invariant forall s :: s in table ==> SlotOk(q, s)
      invariant DistinctKeys(table)
      invariant forall j, t :: 0 <= j < si && Offered(q, daySchedules[j], t) ==>
                  Covered(table, t, daySchedules[j].specialist, FreeCabinets(q, validCabinets, t))
    {
      ghost var before := table;
      table := WalkSchedule(q, daySchedules[si], table);
      forall j, t | 0 <= j < si + 1 && Offered(q, daySchedules[j], t)
        ensures Covered(table, t, daySchedules[j].specialist, FreeCabinets(q, validCabinets, t))
      {
        if j < si {
          assert Covered(before, t, daySchedules[j].specialist, FreeCabinets(q, validCabinets, t));
        }
      }
      si := si + 1;
    }

    slots := SortBy(table, StartKey);
    SortedTableFacts(q, table);
    forall sched, t | sched in q.schedules && Offered(q, sched, t)
      ensures Covered(slots, t, sched.specialist, FreeCabinets(q, q.validCabinets, t))
    {
      var j :| 0 <= j < |daySchedules| && daySchedules[j] == sched;
      assert Covered(table, t, sched.specialist, FreeCabinets(q, validCabinets, t));
    }
  }

  lemma {:induction false} ValidSubsequence(cabs: seq<Cabinet>, required: seq<Id>)
    requires DistinctIds(cabs)
    ensures DistinctIds(ValidCabinets(cabs, required))
    decreases |cabs|
  {
    if cabs != [] {
      var tail := cabs[1..];
      assert DistinctIds(tail) by {
        forall i, j | 0 <= i < j < |tail| ensures tail[i].id != tail[j].id {
          assert tail[i] == cabs[i + 1] && tail[j] == cabs[j + 1];
        }
      }
      ValidSubsequence(tail, required);
      var rest := ValidCabinets(tail, required);
      if cabs[0].isActive && cabs[0].cabinetType in required {
        var r := [cabs[0]] + rest;
        forall i, j | 0 <= i < j < |r| ensures r[i].id != r[j].id {
          if i == 0 {
            assert r[j] in rest;
            var k :| 0 <= k < |tail| && tail[k] == r[j];
            assert cabs[k + 1] == r[j];
          } else {
            assert r[i] == rest[i - 1] && r[j] == rest[j - 1];
          }
        }
      }
    }
  }

  // ------------------------------------------------------ as written (Finding)

  /** The loop guard as the source writes it: the end of the k-th grid span
      is reduced to a time of day before it is compared with the schedule's end. */
  predicate GuardAsWritten(dayStart: int, sched: Schedule, total: nat, k: nat) {
    MinuteOfDay(dayStart + sched.startTime + TimeIncrement * k + total) <= sched.endTime
  }

  /** The guard used above: the span must end by the schedule's end that day. */
  predicate Guard(dayStart: int, sched: Schedule, total: nat, k: nat) {
    dayStart + sched.startTime + TimeIncrement * k + total <= dayStart + sched.endTime
  }

  /** The guards agree while the span ends on its own day. */
  lemma GuardAgreesWithinDay(date: int, sched: Schedule, total: nat, k: nat)
    requires 0 <= sched.endTime < MinutesPerDay
    requires 0 <= sched.startTime + TimeIncrement * k + total < MinutesPerDay
    ensures GuardAsWritten(date * MinutesPerDay, sched, total, k) == Guard(date * MinutesPerDay, sched, total, k)
  {
    var m := sched.startTime + TimeIncrement * k + total;
    assert date * MinutesPerDay + m == m + MinutesPerDay * date;
    assert (m + MinutesPerDay * date) % MinutesPerDay == m;
  }

  /** A multiple of 15 reduced modulo a day is at most 23:45. */
  lemma MultipleOf15InDay(m: nat)
    ensures MinuteOfDay(TimeIncrement * m) <= 1425
  {
    var x := TimeIncrement * m;
    var r := x % MinutesPerDay;
    var d := x / MinutesPerDay;
    assert x == MinutesPerDay * d + r;
    var j := m - 96 * d;
    assert r == TimeIncrement * j;
    assert 0 <= r < 1440;
    assert j <= 95;
    assert r <= 1425;
    assert MinuteOfDay(x) == r;
  }

  /** Schedule 09:00-23:45 on Monday (day 0) with a 60-minute variant and the
      default 15-minute buffer: the as-written guard holds for every grid
      step, so the source's loop never stops, while the corrected guard
      stops after the last span ending by 23:45 (k = 54, start 22:30). */
  lemma UnboundedSlotLoop()
    ensures forall k: nat :: GuardAsWritten(0, Schedule(1, 0, 540, 1425), 75, k)
    ensures Guard(0, Schedule(1, 0, 540, 1425), 75, 54) && !Guard(0, Schedule(1, 0, 540, 1425), 75, 55)
  {
    forall k: nat ensures GuardAsWritten(0, Schedule(1, 0, 540, 1425), 75, k) {
      assert 540 + TimeIncrement * k + 75 == TimeIncrement * (41 + k);
      MultipleOf15InDay(41 + k);
    }
  }
}
