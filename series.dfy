/** Series bookkeeping of the booking views: renumbering the members of a
    series by start time, detaching, splitting and rebuilding a series when
    one member is edited, and deleting one member or a whole series. */
module SeriesOps {
  import opened Common
  import opened Models
  import opened Sorting
  import opened Conflicts
  import opened Text

  function StartKey(b: Booking): seq<int> { [b.startTime] }

  function BookingId(b: Booking): Id { b.id }

  predicate DistinctBookingIds(rows: seq<Booking>) {
    forall i, j :: 0 <= i < j < |rows| ==> rows[i].id != rows[j].id
  }

  lemma IdsLocate(rows: seq<Booking>)
    requires DistinctBookingIds(rows)
    ensures forall a, b :: 0 <= a < |rows| && 0 <= b < |rows| && a != b ==> rows[a].id != rows[b].id
  {
    forall a, b | 0 <= a < |rows| && 0 <= b < |rows| && a != b ensures rows[a].id != rows[b].id {
      if a < b { assert 0 <= a < b < |rows|; } else { assert 0 <= b < a < |rows|; }
    }
  }

  /** `QuerySet.filter(...)`: the rows satisfying `p`, in table order. */
  function Keep(rows: seq<Booking>, p: Booking -> bool): (r: seq<Booking>)
    ensures forall b :: b in r <==> b in rows && p(b)
    ensures |r| <= |rows|
  {
    if rows == [] then []
    else (if p(rows[0]) then [rows[0]] else []) + Keep(rows[1..], p)
  }

  lemma {:induction false} KeepDistinct(rows: seq<Booking>, p: Booking -> bool)
    requires DistinctBookingIds(rows)
    ensures DistinctBookingIds(Keep(rows, p))
    decreases |rows|
  {
    if rows != [] {
      var tail := rows[1..];
      assert DistinctBookingIds(tail) by {
        forall i, j | 0 <= i < j < |tail| ensures tail[i].id != tail[j].id {
          assert tail[i] == rows[i + 1] && tail[j] == rows[j + 1];
        }
      }
      KeepDistinct(tail, p);
      var rest := Keep(tail, p);
      if p(rows[0]) {
        var r := [rows[0]] + rest;
        forall i, j | 0 <= i < j < |r| ensures r[i].id != r[j].id {
          if i == 0 {
            assert r[j] in rest;
            var k :| 0 <= k < |tail| && tail[k] == r[j];
            assert rows[k + 1] == r[j];
          } else {
            assert r[i] == rest[i - 1] && r[j] == rest[j - 1];
          }
        }
      }
    }
  }

  /** Deleting rows (a filtered `delete()`, or a cascade) keeps the table valid. */
  lemma KeepValid(cat: Catalog, rows: seq<Booking>, nextId: int, p: Booking -> bool)
    requires BookingsValid(cat, rows, nextId)
    ensures BookingsValid(cat, Keep(rows, p), nextId)
  {
    KeepDistinct(rows, p);
    var r := Keep(rows, p);
    forall i | 0 <= i < |r| ensures r[i].id < nextId && EndDerived(cat, r[i]) {
      assert r[i] in rows;
    }
  }

  /** `series.bookings`: the rows of the series, in table order. */
  function Members(rows: seq<Booking>, sid: Id): (r: seq<Booking>)
    ensures forall b :: b in r <==> b in rows && b.series == Some(sid)
    ensures |r| <= |rows|
  {
    Keep(rows, (b: Booking) => b.series == Some(sid))
  }

  lemma MembersDistinct(rows: seq<Booking>, sid: Id)
    requires DistinctBookingIds(rows)
    ensures DistinctBookingIds(Members(rows, sid))
  {
    KeepDistinct(rows, (b: Booking) => b.series == Some(sid));
  }

  /** `series.bookings.order_by('start_time')` (ties in table order). */
  function MembersByStart(rows: seq<Booking>, sid: Id): seq<Booking> {
    SortBy(Members(rows, sid), StartKey)
  }

  /** Position (0-based) of a member in start order. */
  function Rank(rows: seq<Booking>, sid: Id, id: Id): Option<nat> {
    IndexOfBooking(MembersByStart(rows, sid), id)
  }

  /** The table after the renumbering loop: each member of the series gets
      its 1-based position in start order as sequence; nothing else changes. */
  function Renumbered(rows: seq<Booking>, sid: Id): seq<Booking> {
    seq(|rows|, i requires 0 <= i < |rows| =>
      if rows[i].series == Some(sid) && Rank(rows, sid, rows[i].id).Some?
      then rows[i].(sequence := Rank(rows, sid, rows[i].id).value + 1)
      else rows[i])
  }

  lemma MembersByStartFacts(rows: seq<Booking>, sid: Id)
    requires DistinctBookingIds(rows)
    ensures forall b :: b in MembersByStart(rows, sid) <==> b in rows && b.series == Some(sid)
    ensures DistinctBookingIds(MembersByStart(rows, sid))
    ensures SortedBy(MembersByStart(rows, sid), StartKey)
    ensures |MembersByStart(rows, sid)| == |Members(rows, sid)|
  {
    var m := Members(rows, sid);
    SortByMembers(m, StartKey);
    MembersDistinct(rows, sid);
    assert DistinctBy(m, BookingId);
    SortByDistinct(m, StartKey, BookingId);
    assert DistinctBy(SortBy(m, StartKey), BookingId);
    SortBySorted(m, StartKey);
  }

  /** A member's rank locates exactly that row. */
  lemma RankOfMember(rows: seq<Booking>, sid: Id, i: nat)
    requires DistinctBookingIds(rows) && i < |rows| && rows[i].series == Some(sid)
    ensures Rank(rows, sid, rows[i].id).Some?
    ensures MembersByStart(rows, sid)[Rank(rows, sid, rows[i].id).value] == rows[i]
  {
    MembersByStartFacts(rows, sid);
    var sorted := MembersByStart(rows, sid);
    assert rows[i] in sorted;
    var p :| 0 <= p < |sorted| && sorted[p] == rows[i];
    var r := IndexOfBooking(sorted, rows[i].id);
    assert r.Some? && r.value <= p;
    assert sorted[r.value].id == sorted[p].id;
    assert r.value == p;
  }

  /** After renumbering: rows outside the series are unchanged; members
      change only their sequence, which runs from 1 to the member count,
      differs between members, and follows start order. */
  lemma RenumberedFacts(rows: seq<Booking>, sid: Id)
    requires DistinctBookingIds(rows)
    ensures |Renumbered(rows, sid)| == |rows|
    ensures forall i :: 0 <= i < |rows| && rows[i].series != Some(sid) ==> Renumbered(rows, sid)[i] == rows[i]
    ensures forall i :: 0 <= i < |rows| && rows[i].series == Some(sid) ==>
      Renumbered(rows, sid)[i] == rows[i].(sequence := Renumbered(rows, sid)[i].sequence)
      && 1 <= Renumbered(rows, sid)[i].sequence <= |Members(rows, sid)|
    ensures forall i, j :: (0 <= i < |rows| && 0 <= j < |rows| && i != j
      && rows[i].series == Some(sid) && rows[j].series == Some(sid)) ==>
      Renumbered(rows, sid)[i].sequence != Renumbered(rows, sid)[j].sequence
    ensures forall i, j :: (0 <= i < |rows| && 0 <= j < |rows|
      && rows[i].series == Some(sid) && rows[j].series == Some(sid) && rows[i].startTime < rows[j].startTime) ==>
      Renumbered(rows, sid)[i].sequence < Renumbered(rows, sid)[j].sequence
  {
    var r := Renumbered(rows, sid);
    var sorted := MembersByStart(rows, sid);
    MembersByStartFacts(rows, sid);
    forall i | 0 <= i < |rows| && rows[i].series == Some(sid)
      ensures r[i] == rows[i].(sequence := r[i].sequence) && 1 <= r[i].sequence <= |Members(rows, sid)|
    {
      RankOfMember(rows, sid, i);
    }
    forall i, j | 0 <= i < |rows| && 0 <= j < |rows| && i != j && rows[i].series == Some(sid) && rows[j].series == Some(sid)
      ensures r[i].sequence != r[j].sequence
    {
      RankOfMember(rows, sid, i);
      RankOfMember(rows, sid, j);
      if i < j { assert rows[i].id != rows[j].id; } else { assert rows[j].id != rows[i].id; }
    }
    forall i, j | 0 <= i < |rows| && 0 <= j < |rows| && rows[i].series == Some(sid) && rows[j].series == Some(sid)
                  && rows[i].startTime < rows[j].startTime
      ensures r[i].sequence < r[j].sequence
    {
      RankOfMember(rows, sid, i);
      RankOfMember(rows, sid, j);
      var pi := Rank(rows, sid, rows[i].id).value;
      var pj := Rank(rows, sid, rows[j].id).value;
      if pj <= pi {
        if pj < pi {
          assert LexLe(StartKey(sorted[pj]), StartKey(sorted[pi]));
        }
        LexLeSingleton(rows[j].startTime, rows[i].startTime);
      }
    }
  }

  /** The table once the first `n` members of `sorted` (the members in start
      order) are renumbered. */
  ghost function RenumberedUpTo(rows: seq<Booking>, sid: Id, sorted: seq<Booking>, n: nat): seq<Booking> {
    seq(|rows|, i requires 0 <= i < |rows| =>
      if rows[i].series == Some(sid) && IndexOfBooking(sorted, rows[i].id).Some? && IndexOfBooking(sorted, rows[i].id).value < n
      then rows[i].(sequence := IndexOfBooking(sorted, rows[i].id).value + 1)
      else rows[i])
  }

  /** One iteration of the loop: `item.sequence = index; item.save(...)` when it differs. */
  function RenumberOne(cur: seq<Booking>, item: Booking, index: int): seq<Booking> {
    if item.sequence != index && IndexOfBooking(cur, item.id).Some?
    then cur[IndexOfBooking(cur, item.id).value := cur[IndexOfBooking(cur, item.id).value].(sequence := index)]
    else cur
  }

  /** The row that is `n`-th in start order, and its rank. */
  lemma NthMember(rows: seq<Booking>, sid: Id, sorted: seq<Booking>, n: nat) returns (i0: nat)
    requires DistinctBookingIds(rows) && sorted == MembersByStart(rows, sid) && n < |sorted|
    ensures i0 < |rows| && rows[i0] == sorted[n]
    ensures rows[i0].series == Some(sid)
    ensures IndexOfBooking(sorted, rows[i0].id) == Some(n)
    ensures forall i :: 0 <= i < |rows| && i != i0 ==> rows[i].id != rows[i0].id
  {
    MembersByStartFacts(rows, sid);
    assert sorted[n] in sorted;
    i0 :| 0 <= i0 < |rows| && rows[i0] == sorted[n];
    IdsLocate(sorted);
    IdsLocate(rows);
  }

  /** A key held by exactly one row is found at that row. */
  lemma IndexOfUnique(rows: seq<Booking>, k: nat)
    requires k < |rows| && forall i :: 0 <= i < |rows| && i != k ==> rows[i].id != rows[k].id
    ensures IndexOfBooking(rows, rows[k].id) == Some(k)
  {
  }

  lemma RenumberStep(rows: seq<Booking>, sid: Id, sorted: seq<Booking>, n: nat)
    requires DistinctBookingIds(rows) && sorted == MembersByStart(rows, sid) && n < |sorted|
    ensures RenumberOne(RenumberedUpTo(rows, sid, sorted, n), sorted[n], n + 1)
            == RenumberedUpTo(rows, sid, sorted, n + 1)
  {
    var i0 := NthMember(rows, sid, sorted, n);
    var cur := RenumberedUpTo(rows, sid, sorted, n);
    assert forall i :: 0 <= i < |rows| ==> cur[i].id == rows[i].id;
    IndexOfUnique(cur, i0);
    RenumberStepAt(rows, sid, sorted, n, i0);
  }

  lemma RenumberStepAt(rows: seq<Booking>, sid: Id, sorted: seq<Booking>, n: nat, i0: nat)
    requires n < |sorted| && i0 < |rows| && rows[i0] == sorted[n] && rows[i0].series == Some(sid)
    requires IndexOfBooking(sorted, rows[i0].id) == Some(n)
    requires IndexOfBooking(RenumberedUpTo(rows, sid, sorted, n), rows[i0].id) == Some(i0)
    requires forall i :: 0 <= i < |rows| && i != i0 ==> rows[i].id != rows[i0].id
    ensures RenumberOne(RenumberedUpTo(rows, sid, sorted, n), sorted[n], n + 1)
            == RenumberedUpTo(rows, sid, sorted, n + 1)
  {
    var cur := RenumberedUpTo(rows, sid, sorted, n);
    var next := RenumberedUpTo(rows, sid, sorted, n + 1);
    var stepped := RenumberOne(cur, rows[i0], n + 1);
    RenumberedUpToAt(rows, sid, sorted, n, i0);
    assert |stepped| == |next| && stepped[i0] == next[i0];
    forall i | 0 <= i < |rows| && i != i0 ensures stepped[i] == next[i] {
      assert stepped[i] == cur[i];
      RenumberedUpToAt(rows, sid, sorted, n, i);
    }
    assert stepped == next;
  }

  /** Renumbering the n-th member in start order changes its row only. */
  lemma RenumberedUpToAt(rows: seq<Booking>, sid: Id, sorted: seq<Booking>, n: nat, i: nat)
    requires i < |rows|
    ensures IndexOfBooking(sorted, rows[i].id) != Some(n) || rows[i].series != Some(sid) ==>
      RenumberedUpTo(rows, sid, sorted, n + 1)[i] == RenumberedUpTo(rows, sid, sorted, n)[i]
    ensures IndexOfBooking(sorted, rows[i].id) == Some(n) && rows[i].series == Some(sid) ==>
      RenumberedUpTo(rows, sid, sorted, n)[i] == rows[i]
      && RenumberedUpTo(rows, sid, sorted, n + 1)[i] == rows[i].(sequence := n + 1)
  {
  }

  lemma RenumberedUpToNone(rows: seq<Booking>, sid: Id, sorted: seq<Booking>)
    ensures RenumberedUpTo(rows, sid, sorted, 0) == rows
  {
  }

  lemma RenumberedUpToAll(rows: seq<Booking>, sid: Id)
    requires DistinctBookingIds(rows)
    ensures RenumberedUpTo(rows, sid, MembersByStart(rows, sid), |MembersByStart(rows, sid)|) == Renumbered(rows, sid)
  {
  }

  /** The renumbering loop: each member, in start order, gets its 1-based
      position unless it already has it (`save(update_fields=['sequence'])`). */
  method RenumberSeries(st: Store, sid: Id)
    requires DistinctBookingIds(st.bookings)
    modifies st`bookings
    ensures st.bookings == Renumbered(old(st.bookings), sid)
  {
    ghost var rows0 := st.bookings;
    var remaining := MembersByStart(st.bookings, sid);
    RenumberedUpToNone(rows0, sid, remaining);
    var index := 1;
    while index <= |remaining|
      invariant 1 <= index <= |remaining| + 1
      invariant st.bookings == RenumberedUpTo(rows0, sid, remaining, index - 1)
    {
      RenumberItem(st, remaining[index - 1], index);
      RenumberStep(rows0, sid, remaining, index - 1);
      index := index + 1;
    }
    RenumberedUpToAll(rows0, sid);
  }

  /** One turn of the renumbering loop: the stored row of `item` gets
      sequence `index` unless `item` already has it. */
  method RenumberItem(st: Store, item: Booking, index: int)
    modifies st`bookings
    ensures st.bookings == RenumberOne(old(st.bookings), item, index)
  {
    if item.sequence != index {
      var k := IndexOfBooking(st.bookings, item.id);
      if k.Some? {
        st.bookings := st.bookings[k.value := st.bookings[k.value].(sequence := index)];
      }
    }
  }

  // --------------------------------------------------- series from a payload

  /** The cleaned recurrence settings of the edit form; `None` in `weekdays`
      or `excludedDates` stands for a missing key. */
  datatype RecurrencePayload = RecurrencePayload(
    frequency: string,
    interval: int,
    endType: string,
    occurrences: Option<int>,
    endDate: Option<int>,
    weekdays: Option<seq<int>>,
    excludedDates: Option<seq<int>>)

  /** A `BookingSeries()` before any field is assigned. */
  const BlankSeries := BookingSeries(0, "", 1, None, None, [], [], None)

  /** `build_series_from_payload`: the target series (the existing one or a
      blank one) with its rule taken from the payload. Exactly one of the
      count and the end date survives, chosen by the end type; missing day
      lists become empty; the author is replaced only when one is given. */
  function BuildSeriesFromPayload(start: int, payload: RecurrencePayload, createdBy: Option<Id>, series: Option<BookingSeries>): (r: BookingSeries)
    ensures r.startTime == start && r.frequency == payload.frequency && r.interval == payload.interval
    ensures payload.endType == "count" ==> r.occurrenceCount == payload.occurrences && r.endDate.None?
    ensures payload.endType != "count" ==> r.endDate == payload.endDate && r.occurrenceCount.None?
    ensures payload.weekdays.None? ==> r.weekdays == []
    ensures payload.weekdays.Some? ==> r.weekdays == payload.weekdays.value
    ensures payload.excludedDates.None? ==> r.excludedDates == []
    ensures payload.excludedDates.Some? ==> r.excludedDates == payload.excludedDates.value
    ensures createdBy.Some? ==> r.createdBy == createdBy
    ensures createdBy.None? ==> r.createdBy == (if series.Some? then series.value.createdBy else None)
  {
    var target := if series.Some? then series.value else BlankSeries;
    var counted := if payload.endType == "count"
      then target.(occurrenceCount := payload.occurrences, endDate := None)
      else target.(endDate := payload.endDate, occurrenceCount := None);
    counted.(
      startTime := start,
      frequency := payload.frequency,
      interval := payload.interval,
      weekdays := if payload.weekdays.Some? then payload.weekdays.value else [],
      excludedDates := if payload.excludedDates.Some? then payload.excludedDates.value else [],
      createdBy := if createdBy.Some? then createdBy else target.createdBy)
  }

  // ------------------------------------------------------- single booking edit

  /** `x or user` on a nullable user reference. */
  function OrUser(createdBy: Option<Id>, user: Id): (r: Option<Id>)
    ensures r.Some?
    ensures createdBy.Some? ==> r == createdBy
  {
    if createdBy.Some? then createdBy else Some(user)
  }

  /** `series.bookings.filter(start_time__lt=pivot).update(series=None, sequence=1)`;
      `update` writes the columns directly, without `Booking.save`. */
  function DetachPast(rows: seq<Booking>, sid: Id, pivot: int): seq<Booking> {
    seq(|rows|, i requires 0 <= i < |rows| =>
      if rows[i].series == Some(sid) && rows[i].startTime < pivot
      then rows[i].(series := None, sequence := 1)
      else rows[i])
  }

  /** Detaching keeps each row's key, and a row it does not detach as is. */
  lemma DetachPastAt(rows: seq<Booking>, sid: Id, pivot: int, i: nat)
    requires i < |rows|
    ensures |DetachPast(rows, sid, pivot)| == |rows|
    ensures DetachPast(rows, sid, pivot)[i].id == rows[i].id
    ensures !(rows[i].series == Some(sid) && rows[i].startTime < pivot) ==> DetachPast(rows, sid, pivot)[i] == rows[i]
  {
  }

  lemma DetachPastValid(cat: Catalog, rows: seq<Booking>, nextId: int, sid: Id, pivot: int)
    requires BookingsValid(cat, rows, nextId)
    ensures BookingsValid(cat, DetachPast(rows, sid, pivot), nextId)
  {
  }

  /** The table after `handle_single_booking_update` for the edited instance
      `booking` (the form edits the loaded instance itself). */
  function SingleUpdateRows(cat: Catalog, rows: seq<Booking>, booking: Booking, recurrenceEnabled: bool, user: Id): seq<Booking>
    requires HasVariant(cat, booking)
  {
    var row := booking.(createdBy := OrUser(booking.createdBy, user));
    if booking.series.Some? && !recurrenceEnabled then
      Renumbered(WithSaved(cat, rows, row.(series := None, sequence := 1)), booking.series.value)
    else
      WithSaved(cat, rows, row.(sequence := if booking.series.Some? then booking.sequence else 1))
  }

  lemma RenumberedNoMembers(rows: seq<Booking>, sid: Id)
    requires DistinctBookingIds(rows) && MembersByStart(rows, sid) == []
    ensures Renumbered(rows, sid) == rows
  {
    MembersByStartFacts(rows, sid);
    assert forall i :: 0 <= i < |rows| ==> rows[i] in rows;
  }

  lemma RenumberedValid(cat: Catalog, rows: seq<Booking>, nextId: int, sid: Id)
    requires BookingsValid(cat, rows, nextId)
    ensures BookingsValid(cat, Renumbered(rows, sid), nextId)
  {
    RenumberedFacts(rows, sid);
    var r := Renumbered(rows, sid);
    forall i | 0 <= i < |rows| ensures r[i].id == rows[i].id && EndDerived(cat, r[i]) {
      assert EndDerived(cat, rows[i]);
      if rows[i].series == Some(sid) {
        EndDerivedResequenced(cat, rows[i], r[i].sequence);
      }
    }
  }

  /** The end time does not depend on the sequence number. */
  lemma EndDerivedResequenced(cat: Catalog, b: Booking, s: int)
    requires EndDerived(cat, b)
    ensures EndDerived(cat, b.(sequence := s))
  {
  }

  lemma MembersEmpty(rows: seq<Booking>, sid: Id)
    ensures Members(rows, sid) == [] <==> forall i :: 0 <= i < |rows| ==> rows[i].series != Some(sid)
  {
    if Members(rows, sid) != [] {
      assert Members(rows, sid)[0] in Members(rows, sid);
    }
    assert forall i :: 0 <= i < |rows| ==> rows[i] in rows;
  }

  /** The tail shared by the edit and the delete views: the series is deleted
      when it has no bookings left (its cascade then removes nothing), and
      otherwise its bookings are renumbered by start time. */
  method DropOrRenumber(st: Store, sid: Id)
    requires DistinctBookingIds(st.bookings)
    modifies st`bookings, st`series
    ensures st.bookings == Renumbered(old(st.bookings), sid)
    ensures Members(st.bookings, sid) == [] ==> st.series == old(st.series) - {sid}
    ensures Members(st.bookings, sid) != [] ==> st.series == old(st.series)
  {
    ghost var rows := st.bookings;
    RenumberedFacts(rows, sid);
    MembersEmpty(rows, sid);
    MembersEmpty(Renumbered(rows, sid), sid);
    var remaining := MembersByStart(st.bookings, sid);
    MembersByStartFacts(st.bookings, sid);
    if remaining == [] {
      assert forall b :: b in Members(st.bookings, sid) ==> b in remaining;
      RenumberedNoMembers(st.bookings, sid);
      st.series := st.series - {sid};
    } else {
      RenumberSeries(st, sid);
    }
  }

  /** Saving a booking out of series `sid` and renumbering the rest. */
  function DetachOne(cat: Catalog, rows: seq<Booking>, standalone: Booking, sid: Id): seq<Booking>
    requires HasVariant(cat, standalone)
  {
    Renumbered(WithSaved(cat, rows, standalone), sid)
  }

  /** After a booking leaves series `sid`: the table is valid, the booking is
      stored, and rows outside the series are kept. */
  lemma DetachOneFacts(cat: Catalog, rows: seq<Booking>, nextId: int, standalone: Booking, sid: Id)
    requires BookingsValid(cat, rows, nextId) && HasVariant(cat, standalone) && standalone.id < nextId
    requires standalone.series.None?
    ensures BookingsValid(cat, DetachOne(cat, rows, standalone, sid), nextId)
    ensures Saved(cat, standalone) in DetachOne(cat, rows, standalone, sid)
    ensures forall x :: x in rows && x.id != standalone.id && x.series != Some(sid) ==> x in DetachOne(cat, rows, standalone, sid)
  {
    var saved := WithSaved(cat, rows, standalone);
    var r := DetachOne(cat, rows, standalone, sid);
    WithSavedFacts(cat, rows, nextId, standalone);
    RenumberedFacts(saved, sid);
    RenumberedValid(cat, saved, nextId, sid);
    forall x | x in saved && x.series != Some(sid) ensures x in r {
      var j :| 0 <= j < |saved| && saved[j] == x;
      assert r[j] == x;
    }
  }

  /** Renumbering at the level of rows: rows outside the series are kept,
      each member keeps every field but its sequence, which lies in 1..N,
      and no row appears from nowhere. */
  lemma RenumberedRows(rows: seq<Booking>, sid: Id)
    requires DistinctBookingIds(rows)
    ensures var r := Renumbered(rows, sid);
      (forall x :: x in rows && x.series != Some(sid) ==> x in r)
      && (forall x :: x in rows && x.series == Some(sid) ==>
            exists y :: y in r && y == x.(sequence := y.sequence) && 1 <= y.sequence <= |Members(r, sid)|)
      && (forall y :: y in r ==> exists x :: x in rows && y == x.(sequence := y.sequence))
  {
    var r := Renumbered(rows, sid);
    RenumberedFacts(rows, sid);
    MembersSameSeries(rows, r, sid);
    forall x | x in rows && x.series != Some(sid) ensures x in r {
      var j :| 0 <= j < |rows| && rows[j] == x;
      assert r[j] == x;
    }
    forall x | x in rows && x.series == Some(sid)
      ensures exists y :: y in r && y == x.(sequence := y.sequence) && 1 <= y.sequence <= |Members(r, sid)|
    {
      var j :| 0 <= j < |rows| && rows[j] == x;
      assert r[j] in r;
    }
    forall y | y in r ensures exists x :: x in rows && y == x.(sequence := y.sequence) {
      var j :| 0 <= j < |r| && r[j] == y;
      assert rows[j] in rows;
    }
  }

  /** Renumbered members have distinct sequences that follow start order. */
  lemma RenumberedOrder(rows: seq<Booking>, sid: Id)
    requires DistinctBookingIds(rows)
    ensures var r := Renumbered(rows, sid);
      (forall i, j :: 0 <= i < |r| && 0 <= j < |r| && i != j && r[i].series == Some(sid) && r[j].series == Some(sid) ==>
            r[i].sequence != r[j].sequence)
      && (forall i, j :: (0 <= i < |r| && 0 <= j < |r| && r[i].series == Some(sid) && r[j].series == Some(sid)
            && r[i].startTime < r[j].startTime) ==> r[i].sequence < r[j].sequence)
  {
    var r := Renumbered(rows, sid);
    RenumberedFacts(rows, sid);
    forall i, j | 0 <= i < |r| && 0 <= j < |r| && i != j && r[i].series == Some(sid) && r[j].series == Some(sid)
      ensures r[i].sequence != r[j].sequence
    {
      assert rows[i].series == Some(sid) && rows[j].series == Some(sid);
    }
    forall i, j | 0 <= i < |r| && 0 <= j < |r| && r[i].series == Some(sid) && r[j].series == Some(sid)
                  && r[i].startTime < r[j].startTime
      ensures r[i].sequence < r[j].sequence
    {
      assert rows[i].series == Some(sid) && rows[j].series == Some(sid);
      assert rows[i].startTime < rows[j].startTime;
    }
  }

  /** After a booking leaves series `sid`, every other member keeps all fields
      but its sequence, which runs 1..N, differs between members and follows
      start order. */
  lemma DetachOneRenumbers(cat: Catalog, rows: seq<Booking>, nextId: int, standalone: Booking, sid: Id)
    requires BookingsValid(cat, rows, nextId) && HasVariant(cat, standalone) && standalone.id < nextId
    requires standalone.series.None?
    ensures var r := DetachOne(cat, rows, standalone, sid);
      (forall x :: x in rows && x.id != standalone.id && x.series == Some(sid) ==>
         exists y :: y in r && y == x.(sequence := y.sequence) && 1 <= y.sequence <= |Members(r, sid)|)
      && (forall i, j :: 0 <= i < |r| && 0 <= j < |r| && i != j && r[i].series == Some(sid) && r[j].series == Some(sid) ==>
            r[i].sequence != r[j].sequence)
      && (forall i, j :: (0 <= i < |r| && 0 <= j < |r| && r[i].series == Some(sid) && r[j].series == Some(sid)
            && r[i].startTime < r[j].startTime) ==> r[i].sequence < r[j].sequence)
  {
    var saved := WithSaved(cat, rows, standalone);
    WithSavedFacts(cat, rows, nextId, standalone);
    RenumberedOrder(saved, sid);
    KeptMembersRenumbered(rows, saved, sid, standalone.id);
  }

  /** Members of `rows` other than `skip` that survive into `saved` get a
      renumbered row in `Renumbered(saved, sid)`. */
  lemma KeptMembersRenumbered(rows: seq<Booking>, saved: seq<Booking>, sid: Id, skip: int)
    requires DistinctBookingIds(saved)
    requires forall x :: x in rows && x.id != skip ==> x in saved
    ensures var r := Renumbered(saved, sid);
      forall x :: x in rows && x.id != skip && x.series == Some(sid) ==>
         exists y :: y in r && y == x.(sequence := y.sequence) && 1 <= y.sequence <= |Members(r, sid)|
  {
    RenumberedRows(saved, sid);
  }

  /** What an edit through `handle_single_booking_update` leaves behind: the
      table stays valid and the edited booking is stored. Switching
      recurrence off on a member detaches it (see `DetachOneFacts`);
      otherwise its series and sequence are kept and no other row changes. */
  lemma SingleUpdateFacts(cat: Catalog, rows: seq<Booking>, nextId: int, booking: Booking, recurrenceEnabled: bool, user: Id)
    requires BookingsValid(cat, rows, nextId) && HasVariant(cat, booking) && booking.id < nextId
    ensures BookingsValid(cat, SingleUpdateRows(cat, rows, booking, recurrenceEnabled, user), nextId)
    ensures booking.series.Some? && !recurrenceEnabled ==>
      SingleUpdateRows(cat, rows, booking, recurrenceEnabled, user)
        == DetachOne(cat, rows, booking.(createdBy := OrUser(booking.createdBy, user), series := None, sequence := 1), booking.series.value)
    ensures !(booking.series.Some? && !recurrenceEnabled) ==>
      Saved(cat, booking.(createdBy := OrUser(booking.createdBy, user), sequence := if booking.series.Some? then booking.sequence else 1))
        in SingleUpdateRows(cat, rows, booking, recurrenceEnabled, user)
      && forall x :: x in rows && x.id != booking.id ==> x in SingleUpdateRows(cat, rows, booking, recurrenceEnabled, user)
  {
    var row := booking.(createdBy := OrUser(booking.createdBy, user));
    if booking.series.Some? && !recurrenceEnabled {
      DetachOneFacts(cat, rows, nextId, row.(series := None, sequence := 1), booking.series.value);
    } else {
      WithSavedFacts(cat, rows, nextId, row.(sequence := if booking.series.Some? then booking.sequence else 1));
    }
  }

  /** Two tables with the same series column row by row have equally many
      members of a series. */
  lemma {:induction false} MembersSameSeries(a: seq<Booking>, b: seq<Booking>, sid: Id)
    requires |a| == |b| && forall i :: 0 <= i < |a| ==> a[i].series == b[i].series
    ensures |Members(a, sid)| == |Members(b, sid)|
    decreases |a|
  {
    if a != [] {
      MembersSameSeries(a[1..], b[1..], sid);
    }
  }

  /** `handle_single_booking_update`. With recurrence switched off on a
      series member, the booking leaves the series and the rest are
      renumbered by start time (or the series goes when none are left);
      otherwise series and sequence are kept. */
  method HandleSingleBookingUpdate(st: Store, booking: Booking, recurrenceEnabled: bool, user: Id) returns (message: string)
    requires st.Valid()
    requires HasVariant(st.catalog, booking) && booking.id < st.nextBookingId && SeriesKnown(booking, st.series)
    modifies st`bookings, st`series
    ensures st.Valid()
    ensures st.bookings == SingleUpdateRows(st.catalog, old(st.bookings), booking, recurrenceEnabled, user)
    ensures booking.series.Some? && !recurrenceEnabled ==>
      message == "Бронирование обновлено (повтор отключён)"
      && st.series == (if Members(st.bookings, booking.series.value) == [] then old(st.series) - {booking.series.value} else old(st.series))
    ensures !(booking.series.Some? && !recurrenceEnabled) ==>
      message == "Бронирование обновлено" && st.series == old(st.series)
  {
    SingleUpdateKeepsTables(st.catalog, st.bookings, st.series, st.archive, st.nextBookingId, st.nextSeriesId,
                            booking, recurrenceEnabled, user);
    var row := booking.(createdBy := OrUser(booking.createdBy, user));
    if booking.series.Some? && !recurrenceEnabled {
      WithSavedFacts(st.catalog, st.bookings, st.nextBookingId, row.(series := None, sequence := 1));
      SaveBooking(st, row.(series := None, sequence := 1));
      DropOrRenumber(st, booking.series.value);
      message := "Бронирование обновлено (повтор отключён)";
    } else {
      SaveBooking(st, row.(sequence := if booking.series.Some? then booking.sequence else 1));
      message := "Бронирование обновлено";
    }
  }

  // -------------------------------------------------------- series rebuild

  /** `exclude_ids`: the ids of the members starting at or after the pivot,
      in start order. */
  function FutureIds(rows: seq<Booking>, sid: Id, pivot: int): seq<Id> {
    var future := SortBy(Keep(rows, (b: Booking) => b.series == Some(sid) && b.startTime >= pivot), StartKey);
    seq(|future|, i requires 0 <= i < |future| => future[i].id)
  }

  /** The excluded ids are exactly the ids of the members at or after the
      pivot, each once, in start order. */
  lemma FutureIdsFacts(rows: seq<Booking>, sid: Id, pivot: int)
    requires DistinctBookingIds(rows)
    ensures var ids := FutureIds(rows, sid, pivot);
      (forall id :: id in ids <==> exists b :: b in rows && b.series == Some(sid) && b.startTime >= pivot && b.id == id)
      && (forall i, j :: 0 <= i < j < |ids| ==> ids[i] != ids[j])
  {
    var p := (b: Booking) => b.series == Some(sid) && b.startTime >= pivot;
    var kept := Keep(rows, p);
    var future := SortBy(kept, StartKey);
    KeepDistinct(rows, p);
    SortByMembers(kept, StartKey);
    assert DistinctBy(kept, BookingId);
    SortByDistinct(kept, StartKey, BookingId);
    var ids := FutureIds(rows, sid, pivot);
    forall id | id in ids ensures exists b :: b in rows && b.series == Some(sid) && b.startTime >= pivot && b.id == id {
      var i :| 0 <= i < |ids| && ids[i] == id;
      assert future[i] in future;
    }
    forall id | exists b :: b in rows && b.series == Some(sid) && b.startTime >= pivot && b.id == id
      ensures id in ids
    {
      var b :| b in rows && b.series == Some(sid) && b.startTime >= pivot && b.id == id;
      assert b in future;
      var i :| 0 <= i < |future| && future[i] == b;
      assert ids[i] == id;
    }
    forall i, j | 0 <= i < j < |ids| ensures ids[i] != ids[j] {
      assert BookingId(future[i]) != BookingId(future[j]);
    }
  }

  const ConflictTrailer: string := "и другие конфликты…"

  /** One line per reported occurrence, at most three, and a trailer when
      more were found. */
  function WarningEntries(issues: seq<Issue>, formatDateTime: int -> string): seq<string> {
    var shown := if |issues| <= 3 then issues else issues[..3];
    seq(|shown|, i requires 0 <= i < |shown| =>
      formatDateTime(shown[i].start) + " (" + FormatConflictMessage(shown[i].conflicts) + ")")
    + (if |issues| > 3 then [ConflictTrailer] else [])
  }

  /** The conflict warning of a series edit; conflicts never block the edit. */
  function SeriesConflictWarning(issues: seq<Issue>, formatDateTime: int -> string): (r: Option<string>)
    ensures r.None? <==> issues == []
  {
    if issues == [] then None
    else Some("Конфликты при обновлении серии: " + Join(WarningEntries(issues, formatDateTime), "; "))
  }

  /** The warning shows the first three conflicting occurrences in order,
      each with its date and its flags, and ends with the trailer exactly
      when there were more. */
  lemma WarningEntriesFacts(issues: seq<Issue>, formatDateTime: int -> string)
    ensures var r := WarningEntries(issues, formatDateTime);
      |r| == (if |issues| <= 3 then |issues| else 4)
      && (forall i :: 0 <= i < |r| && i < 3 && i < |issues| ==>
            r[i] == formatDateTime(issues[i].start) + " (" + FormatConflictMessage(issues[i].conflicts) + ")"
            && r[i] != ConflictTrailer)
      && (ConflictTrailer in r <==> |issues| > 3)
  {
    var r := WarningEntries(issues, formatDateTime);
    forall i | 0 <= i < |r| && i < 3 && i < |issues| ensures r[i] != ConflictTrailer {
      assert r[i][|r[i]| - 1] == ')';
    }
  }

  /** The message of `handle_series_booking_update` after a rebuild. */
  function SeriesUpdateMessage(hadSeries: bool, count: nat, warning: Option<string>): (r: string)
  {
    (if hadSeries then "Обновлено бронирование и серия (" + NatToString(count) + " записей)"
     else "Создана серия бронирований (" + NatToString(count) + " записей)")
    + (if warning.Some? then ". Внимание: " + warning.value else "")
  }

  /** The fields `Booking.objects.create` receives for a further occurrence:
      guest and room copied, no guest record, created by the current user. */
  function NewMember(template: Booking, start: int, sid: Id, user: Id, sequence: int): Booking {
    Booking(template.id, template.guestName, template.guestRoomNumber, None,
            template.serviceVariant, template.specialist, template.cabinet,
            start, start, Some(user), template.status, Some(sid), sequence)
  }

  /** The rows the creation loop appends for `occurrences[1..]`. */
  function NewMembers(cat: Catalog, template: Booking, occurrences: seq<int>, sid: Id, user: Id, firstId: Id): seq<Booking>
    requires HasVariant(cat, template)
  {
    seq(if |occurrences| == 0 then 0 else |occurrences| - 1, j requires 0 <= j < |occurrences| - 1 =>
      Saved(cat, NewMember(template, occurrences[j + 1], sid, user, j + 2).(id := firstId + j)))
  }

  /** The edited booking as the first element of the rebuilt series. */
  function EditedFirst(booking: Booking, sid: Id, first: int, user: Id): Booking {
    booking.(series := Some(sid), sequence := 1, startTime := first, createdBy := OrUser(booking.createdBy, user))
  }

  /** The table after detaching past members, deleting later ones and saving
      the edited booking (before the further occurrences are created). */
  function RebuildBase(cat: Catalog, rows: seq<Booking>, existing: Option<Id>, pivot: int, edited: Booking): seq<Booking>
    requires HasVariant(cat, edited)
  {
    var kept := if existing.Some? then SplitAt(rows, existing.value, pivot, edited.id) else rows;
    WithSaved(cat, kept, edited)
  }

  /** The full table after a series rebuild. */
  function RebuiltRows(cat: Catalog, rows: seq<Booking>, existing: Option<Id>, pivot: int,
                       booking: Booking, sid: Id, occurrences: seq<int>, user: Id, firstId: Id): seq<Booking>
    requires HasVariant(cat, booking) && occurrences != []
  {
    var edited := EditedFirst(booking, sid, occurrences[0], user);
    RebuildBase(cat, rows, existing, pivot, edited) + NewMembers(cat, edited, occurrences, sid, user, firstId)
  }

  /** Every created occurrence belongs to the series, carries its position
      (2, 3, ...) and its start, copies guest, room, service, specialist,
      cabinet and status, is authored by the current user and has its end
      derived; keys are allocated consecutively. */
  lemma NewMembersFacts(cat: Catalog, template: Booking, occurrences: seq<int>, sid: Id, user: Id, firstId: Id)
    requires HasVariant(cat, template) && occurrences != []
    ensures var n := NewMembers(cat, template, occurrences, sid, user, firstId);
      |n| == |occurrences| - 1
      && forall j :: 0 <= j < |n| ==>
        n[j].id == firstId + j && n[j].series == Some(sid) && n[j].sequence == j + 2
        && n[j].startTime == occurrences[j + 1] && n[j].createdBy == Some(user) && n[j].guest.None?
        && n[j].guestName == template.guestName && n[j].guestRoomNumber == template.guestRoomNumber
        && n[j].serviceVariant == template.serviceVariant && n[j].specialist == template.specialist
        && n[j].cabinet == template.cabinet && n[j].status == template.status
        && EndDerived(cat, n[j])
  {
  }

  /** The rows of an existing series after its past members are detached
      and its later members other than `keep` are deleted. */
  function SplitAt(rows: seq<Booking>, sid: Id, pivot: int, keep: Id): seq<Booking> {
    Keep(DetachPast(rows, sid, pivot), (b: Booking) => !(b.series == Some(sid) && b.startTime >= pivot && b.id != keep))
  }

  lemma SplitAtKeeps(cat: Catalog, rows: seq<Booking>, nextId: int, sid: Id, pivot: int, keep: Id)
    requires BookingsValid(cat, rows, nextId)
    ensures var k := SplitAt(rows, sid, pivot, keep);
      BookingsValid(cat, k, nextId)
      && (forall x :: x in rows && x.series == Some(sid) && x.startTime < pivot ==> x.(series := None, sequence := 1) in k)
      && (forall x :: x in rows && x.series != Some(sid) ==> x in k)
  {
    var detached := DetachPast(rows, sid, pivot);
    var p := (b: Booking) => !(b.series == Some(sid) && b.startTime >= pivot && b.id != keep);
    DetachPastValid(cat, rows, nextId, sid, pivot);
    KeepValid(cat, detached, nextId, p);
    forall x | x in rows && x.series == Some(sid) && x.startTime < pivot
      ensures x.(series := None, sequence := 1) in detached
    {
      var j :| 0 <= j < |rows| && rows[j] == x;
      assert detached[j] == x.(series := None, sequence := 1);
    }
    forall x | x in rows && x.series != Some(sid) ensures x in detached {
      var j :| 0 <= j < |rows| && rows[j] == x;
      assert detached[j] == x;
    }
  }

  lemma SplitAtDrops(cat: Catalog, rows: seq<Booking>, nextId: int, sid: Id, pivot: int, keep: Id)
    requires BookingsValid(cat, rows, nextId)
    ensures var k := SplitAt(rows, sid, pivot, keep);
      (forall x, y :: x in rows && x.series == Some(sid) && x.startTime >= pivot && x.id != keep && y in k ==> y.id != x.id)
      && (forall y :: y in k && y.series == Some(sid) ==> y.id == keep)
  {
    var detached := DetachPast(rows, sid, pivot);
    var p := (b: Booking) => !(b.series == Some(sid) && b.startTime >= pivot && b.id != keep);
    var k := SplitAt(rows, sid, pivot, keep);
    assert k == Keep(detached, p);
    forall x, y | x in rows && x.series == Some(sid) && x.startTime >= pivot && x.id != keep && y in k
      ensures y.id != x.id
    {
      assert y in detached && p(y);
      var j :| 0 <= j < |detached| && detached[j] == y;
      var i :| 0 <= i < |rows| && rows[i] == x;
      DetachPastAt(rows, sid, pivot, i);
      DetachPastAt(rows, sid, pivot, j);
      assert !p(x);
      if j < i { assert rows[j].id != rows[i].id; }
      else { assert i < j; assert rows[i].id != rows[j].id; }
    }
    forall y | y in k && y.series == Some(sid) ensures y.id == keep {
      assert y in detached && p(y);
      var j :| 0 <= j < |detached| && detached[j] == y;
    }
  }

  /** Rebuilding an existing series `sid` around the edited booking: members
      that start before the pivot become standalone with sequence 1, later
      ones other than the edited booking are deleted, the edited booking is
      stored as given, and every row outside the series is kept. Afterwards
      only the edited booking belongs to the series. */
  lemma RebuildBaseExisting(cat: Catalog, rows: seq<Booking>, nextId: int, sid: Id, pivot: int, edited: Booking)
    requires BookingsValid(cat, rows, nextId) && HasVariant(cat, edited) && edited.id < nextId
    ensures var r := RebuildBase(cat, rows, Some(sid), pivot, edited);
      BookingsValid(cat, r, nextId)
      && Saved(cat, edited) in r
      && (forall y :: y in r && y.id == edited.id ==> y == Saved(cat, edited))
      && (forall x :: x in rows && x.series == Some(sid) && x.startTime < pivot && x.id != edited.id ==>
            x.(series := None, sequence := 1) in r)
      && (forall x :: x in rows && x.series == Some(sid) && x.startTime >= pivot && x.id != edited.id ==>
            forall y :: y in r ==> y.id != x.id)
      && (forall x :: x in rows && x.series != Some(sid) && x.id != edited.id ==> x in r)
      && (forall y :: y in r && y.series == Some(sid) ==> y.id == edited.id)
  {
    var k := SplitAt(rows, sid, pivot, edited.id);
    SplitAtKeeps(cat, rows, nextId, sid, pivot, edited.id);
    SplitAtDrops(cat, rows, nextId, sid, pivot, edited.id);
    WithSavedFacts(cat, k, nextId, edited);
    assert RebuildBase(cat, rows, Some(sid), pivot, edited) == WithSaved(cat, k, edited);
  }

  /** Creating a new series `sid` around the edited booking: no row changes
      but the edited one, and afterwards only it belongs to the series. */
  lemma RebuildBaseFresh(cat: Catalog, rows: seq<Booking>, nextId: int, sid: Id, pivot: int, edited: Booking)
    requires BookingsValid(cat, rows, nextId) && HasVariant(cat, edited) && edited.id < nextId
    requires forall x :: x in rows ==> x.series != Some(sid)
    ensures var r := RebuildBase(cat, rows, None, pivot, edited);
      BookingsValid(cat, r, nextId)
      && Saved(cat, edited) in r
      && (forall y :: y in r && y.id == edited.id ==> y == Saved(cat, edited))
      && (forall x :: x in rows && x.id != edited.id ==> x in r)
      && (forall y :: y in r && y.series == Some(sid) ==> y.id == edited.id)
  {
    WithSavedFacts(cat, rows, nextId, edited);
  }

  /** Appending rows with fresh consecutive keys and derived ends keeps the
      table valid. */
  lemma AppendValid(cat: Catalog, base: seq<Booking>, n: seq<Booking>, firstId: Id)
    requires BookingsValid(cat, base, firstId)
    requires forall j :: 0 <= j < |n| ==> n[j].id == firstId + j && EndDerived(cat, n[j])
    ensures BookingsValid(cat, base + n, firstId + |n|)
  {
    var r := base + n;
    forall i, j | 0 <= i < j < |r| ensures r[i].id != r[j].id {
      if j >= |base| && i < |base| {
        assert r[j] == n[j - |base|];
      }
    }
  }

  /** Some member of the series has sequence number `k` and starts at `t`. */
  predicate HasOccurrence(r: seq<Booking>, sid: Id, k: int, t: int) {
    exists y :: y in r && y.series == Some(sid) && y.sequence == k && y.startTime == t
  }

  /** Appending the further occurrences to a table whose only member of the
      series is the first occurrence gives one member per occurrence. */
  lemma AppendOccurrences(base: seq<Booking>, n: seq<Booking>, sid: Id, first: Booking, occurrences: seq<int>)
    requires first in base && first.series == Some(sid) && first.sequence == 1 && occurrences != [] && first.startTime == occurrences[0]
    requires forall y :: y in base && y.series == Some(sid) ==> y == first
    requires forall i, j :: 0 <= i < j < |base| ==> base[i].id != base[j].id
    requires |n| == |occurrences| - 1
    requires forall j :: 0 <= j < |n| ==>
      n[j].series == Some(sid) && n[j].sequence == j + 2 && n[j].startTime == occurrences[j + 1]
    ensures var r := base + n;
      (forall i :: 0 <= i < |occurrences| ==>
            HasOccurrence(r, sid, i + 1, occurrences[i]))
      && (forall y :: y in r && y.series == Some(sid) ==> 1 <= y.sequence <= |occurrences|)
  {
    var r := base + n;
    forall i | 0 <= i < |occurrences|
      ensures HasOccurrence(r, sid, i + 1, occurrences[i])
    {
      if i > 0 {
        assert r[|base| + i - 1] == n[i - 1];
        assert n[i - 1] in r;
      } else {
        assert first in r;
      }
    }
    forall y | y in r && y.series == Some(sid) ensures 1 <= y.sequence <= |occurrences| {
      if y !in base {
        var j :| 0 <= j < |n| && n[j] == y;
        assert y.sequence == j + 2;
      } else {
        assert y == first;
      }
    }
    assert forall y :: y in r && y.series == Some(sid) ==> 1 <= y.sequence <= |occurrences|;
    assert forall i :: 0 <= i < |occurrences| ==>
            HasOccurrence(r, sid, i + 1, occurrences[i]);
  }

  lemma AppendDistinctSequences(base: seq<Booking>, n: seq<Booking>, sid: Id, first: Booking)
    requires first.series == Some(sid) && first.sequence == 1
    requires forall y :: y in base && y.series == Some(sid) ==> y == first
    requires forall i, j :: 0 <= i < j < |base| ==> base[i].id != base[j].id
    requires forall j :: 0 <= j < |n| ==> n[j].sequence == j + 2
    ensures var r := base + n;
      forall i, j :: 0 <= i < |r| && 0 <= j < |r| && i != j && r[i].series == Some(sid) && r[j].series == Some(sid) ==>
        r[i].sequence != r[j].sequence
  {
    var r := base + n;
    forall i, j | 0 <= i < |r| && 0 <= j < |r| && i != j && r[i].series == Some(sid) && r[j].series == Some(sid)
      ensures r[i].sequence != r[j].sequence
    {
      if i < |base| && j >= |base| {
        assert base[i] in base;
        assert r[j] == n[j - |base|];
      } else if j < |base| && i >= |base| {
        assert base[j] in base;
        assert r[i] == n[i - |base|];
      } else if i >= |base| && j >= |base| {
        assert r[i] == n[i - |base|] && r[j] == n[j - |base|];
      }
    }
  }

  /** After a rebuild the table is valid with the key counter advanced past
      the new rows, and the series consists of exactly one booking per
      occurrence: the booking with sequence k starts at occurrence k, and no
      two members share a sequence number. */
  lemma RebuiltRowsFacts(cat: Catalog, rows: seq<Booking>, existing: Option<Id>, pivot: int,
                         booking: Booking, sid: Id, occurrences: seq<int>, user: Id, firstId: Id)
    requires BookingsValid(cat, rows, firstId) && HasVariant(cat, booking) && booking.id < firstId
    requires occurrences != []
    requires existing == Some(sid) || (existing.None? && forall x :: x in rows ==> x.series != Some(sid))
    ensures var r := RebuiltRows(cat, rows, existing, pivot, booking, sid, occurrences, user, firstId);
      BookingsValid(cat, r, firstId + |occurrences| - 1)
      && (forall i :: 0 <= i < |occurrences| ==>
            HasOccurrence(r, sid, i + 1, occurrences[i]))
      && (forall y :: y in r && y.series == Some(sid) ==> 1 <= y.sequence <= |occurrences|)
      && (forall i, j :: 0 <= i < |r| && 0 <= j < |r| && i != j && r[i].series == Some(sid) && r[j].series == Some(sid) ==>
            r[i].sequence != r[j].sequence)
  {
    var edited := EditedFirst(booking, sid, occurrences[0], user);
    var base := RebuildBase(cat, rows, existing, pivot, edited);
    var n := NewMembers(cat, edited, occurrences, sid, user, firstId);
    assert RebuiltRows(cat, rows, existing, pivot, booking, sid, occurrences, user, firstId) == base + n;
    RebuildBaseCommon(cat, rows, existing, pivot, edited, sid, firstId);
    NewMembersFacts(cat, edited, occurrences, sid, user, firstId);
    RebuiltPartsValid(cat, base, n, sid, Saved(cat, edited), occurrences, firstId);
    RebuiltPartsOccurrences(cat, base, n, sid, Saved(cat, edited), occurrences, firstId);
  }

  /** The key and derived-end facts of the rebuilt table, from its two parts. */
  lemma RebuiltPartsValid(cat: Catalog, base: seq<Booking>, n: seq<Booking>, sid: Id, first: Booking,
                          occurrences: seq<int>, firstId: Id)
    requires BookingsValid(cat, base, firstId) && |n| == |occurrences| - 1
    requires forall j :: 0 <= j < |n| ==> n[j].id == firstId + j && EndDerived(cat, n[j])
    ensures BookingsValid(cat, base + n, firstId + |occurrences| - 1)
  {
    AppendValid(cat, base, n, firstId);
  }

  /** The series facts of the rebuilt table, from its two parts. */
  lemma RebuiltPartsOccurrences(cat: Catalog, base: seq<Booking>, n: seq<Booking>, sid: Id, first: Booking,
                                occurrences: seq<int>, firstId: Id)
    requires BookingsValid(cat, base, firstId)
    requires first in base && first.series == Some(sid) && first.sequence == 1 && occurrences != [] && first.startTime == occurrences[0]
    requires forall y :: y in base && y.series == Some(sid) ==> y == first
    requires |n| == |occurrences| - 1
    requires forall j :: 0 <= j < |n| ==>
      n[j].series == Some(sid) && n[j].sequence == j + 2 && n[j].startTime == occurrences[j + 1]
    ensures var r := base + n;
      (forall i :: 0 <= i < |occurrences| ==>
            HasOccurrence(r, sid, i + 1, occurrences[i]))
      && (forall y :: y in r && y.series == Some(sid) ==> 1 <= y.sequence <= |occurrences|)
      && (forall i, j :: 0 <= i < |r| && 0 <= j < |r| && i != j && r[i].series == Some(sid) && r[j].series == Some(sid) ==>
            r[i].sequence != r[j].sequence)
  {
    assert forall i, j :: 0 <= i < j < |base| ==> base[i].id != base[j].id;
    AppendOccurrences(base, n, sid, first, occurrences);
    AppendDistinctSequences(base, n, sid, first);
  }

  /** What both rebuild paths guarantee about the base table. */
  lemma RebuildBaseCommon(cat: Catalog, rows: seq<Booking>, existing: Option<Id>, pivot: int,
                          edited: Booking, sid: Id, nextId: Id)
    requires BookingsValid(cat, rows, nextId) && HasVariant(cat, edited) && edited.id < nextId
    requires existing == Some(sid) || (existing.None? && forall x :: x in rows ==> x.series != Some(sid))
    ensures var base := RebuildBase(cat, rows, existing, pivot, edited);
      BookingsValid(cat, base, nextId) && Saved(cat, edited) in base
      && forall y :: y in base && y.series == Some(sid) ==> y == Saved(cat, edited)
  {
    if existing.Some? {
      RebuildBaseExisting(cat, rows, nextId, sid, pivot, edited);
    } else {
      RebuildBaseFresh(cat, rows, nextId, sid, pivot, edited);
    }
  }

  // ------------------------------------------------ recurrence switched off

  /** `.filter(start_time__gte=pivot).exclude(pk=keep).delete()` on a series. */
  function DeleteFuture(rows: seq<Booking>, sid: Id, pivot: int, keep: Id): seq<Booking> {
    Keep(rows, (b: Booking) => !(b.series == Some(sid) && b.startTime >= pivot && b.id != keep))
  }

  lemma DetachPastAppend(a: seq<Booking>, b: seq<Booking>, sid: Id, pivot: int)
    ensures DetachPast(a + b, sid, pivot) == DetachPast(a, sid, pivot) + DetachPast(b, sid, pivot)
  {
  }

  /** Deleting the later members first and then detaching the earlier ones
      leaves the same rows as the opposite order. */
  lemma {:induction false} DeleteThenDetach(rows: seq<Booking>, sid: Id, pivot: int, keep: Id)
    ensures DetachPast(DeleteFuture(rows, sid, pivot, keep), sid, pivot) == SplitAt(rows, sid, pivot, keep)
    decreases |rows|
  {
    if rows != [] {
      var t := rows[1..];
      var p := (b: Booking) => !(b.series == Some(sid) && b.startTime >= pivot && b.id != keep);
      DeleteThenDetach(t, sid, pivot, keep);
      var head := if p(rows[0]) then [rows[0]] else [];
      assert DeleteFuture(rows, sid, pivot, keep) == head + DeleteFuture(t, sid, pivot, keep);
      DetachPastAppend(head, DeleteFuture(t, sid, pivot, keep), sid, pivot);
      assert rows == [rows[0]] + t;
      DetachPastAppend([rows[0]], t, sid, pivot);
      var d := DetachPast(rows, sid, pivot);
      assert d[1..] == DetachPast(t, sid, pivot);
      assert SplitAt(rows, sid, pivot, keep) == (if p(d[0]) then [d[0]] else []) + SplitAt(t, sid, pivot, keep);
      assert DetachPast(head, sid, pivot) == (if p(d[0]) then [d[0]] else []);
    }
  }

  /** The table after a null payload on a series member: later members
      deleted, earlier ones detached, the series deleted (its cascade takes
      any row still attached) and the edited booking saved standalone. */
  function DissolveRows(cat: Catalog, rows: seq<Booking>, sid: Id, booking: Booking, user: Id): seq<Booking>
    requires HasVariant(cat, booking)
  {
    var pivot := booking.startTime;
    var detached := DetachPast(DeleteFuture(rows, sid, pivot, booking.id), sid, pivot);
    var cascaded := Keep(detached, (b: Booking) => b.series != Some(sid));
    WithSaved(cat, cascaded, booking.(series := None, sequence := 1, createdBy := OrUser(booking.createdBy, user)))
  }

  /** Switching recurrence off on a series: no row is left in the series,
      the edited booking is stored standalone with sequence 1, the other
      earlier members become standalone with sequence 1, the other later
      members are gone, and rows outside the series are kept. */
  lemma DissolveFacts(cat: Catalog, rows: seq<Booking>, nextId: int, sid: Id, booking: Booking, user: Id)
    requires BookingsValid(cat, rows, nextId) && HasVariant(cat, booking) && booking.id < nextId
    ensures var r := DissolveRows(cat, rows, sid, booking, user);
      BookingsValid(cat, r, nextId)
      && (forall y :: y in r ==> y.series != Some(sid))
      && Saved(cat, booking.(series := None, sequence := 1, createdBy := OrUser(booking.createdBy, user))) in r
      && (forall y :: y in r && y.id == booking.id ==>
            y == Saved(cat, booking.(series := None, sequence := 1, createdBy := OrUser(booking.createdBy, user))))
      && (forall x :: x in rows && x.series == Some(sid) && x.startTime < booking.startTime && x.id != booking.id ==>
            x.(series := None, sequence := 1) in r)
      && (forall x :: x in rows && x.series == Some(sid) && x.startTime >= booking.startTime && x.id != booking.id ==>
            forall y :: y in r ==> y.id != x.id)
      && (forall x :: x in rows && x.series != Some(sid) && x.id != booking.id ==> x in r)
  {
    var pivot := booking.startTime;
    var standalone := booking.(series := None, sequence := 1, createdBy := OrUser(booking.createdBy, user));
    var split := SplitAt(rows, sid, pivot, booking.id);
    DeleteThenDetach(rows, sid, pivot, booking.id);
    SplitAtKeeps(cat, rows, nextId, sid, pivot, booking.id);
    SplitAtDrops(cat, rows, nextId, sid, pivot, booking.id);
    var q := (b: Booking) => b.series != Some(sid);
    var cascaded := Keep(split, q);
    KeepValid(cat, split, nextId, q);
    WithSavedFacts(cat, cascaded, nextId, standalone);
    assert DissolveRows(cat, rows, sid, booking, user) == WithSaved(cat, cascaded, standalone);
  }

  // ------------------------------------------------------- the series edit

  /** The text of `RecurrenceError` when the rule yields no dates. */
  const NoOccurrencesMessage: string := "Не удалось построить повторяющиеся даты"

  /** The series `handle_series_booking_update` builds: the booking's own
      series updated in place, or a new one authored by the current user. */
  function SeriesFor(series: map<Id, BookingSeries>, booking: Booking, payload: RecurrencePayload, user: Id): BookingSeries
    requires booking.series.Some? ==> booking.series.value in series
  {
    if booking.series.Some? then
      var existing := series[booking.series.value];
      BuildSeriesFromPayload(booking.startTime, payload, existing.createdBy, Some(existing))
    else
      BuildSeriesFromPayload(booking.startTime, payload, Some(user), None)
  }

  /** The conflict check of every occurrence against the table as it was
      before the edit, with the booking's own service, specialist and cabinet. */
  function OccurrenceCheck(cat: Catalog, schedules: seq<Schedule>, rows: seq<Booking>, booking: Booking): (int, Option<Id>) -> Option<Conflicts>
    requires HasVariant(cat, booking) && FindCabinet(cat.cabinets, booking.cabinet).Some?
  {
    ConflictCheck(cat, schedules, rows, FindVariant(cat.variants, booking.serviceVariant).value,
                  booking.specialist, FindCabinet(cat.cabinets, booking.cabinet).value)
  }

  /** The creation loop: one `Booking.objects.create` per further occurrence,
      with sequence numbers from 2. */
  method CreateOccurrences(st: Store, template: Booking, occurrences: seq<int>, sid: Id, user: Id)
    requires HasVariant(st.catalog, template) && occurrences != []
    modifies st`bookings, st`nextBookingId
    ensures st.bookings == old(st.bookings) + NewMembers(st.catalog, template, occurrences, sid, user, old(st.nextBookingId))
    ensures st.nextBookingId == old(st.nextBookingId) + |occurrences| - 1
  {
    ghost var rows0 := st.bookings;
    ghost var first := st.nextBookingId;
    var k := 1;
    while k < |occurrences|
      invariant 1 <= k <= |occurrences|
      invariant st.nextBookingId == first + k - 1
      invariant st.bookings == rows0 + NewMembers(st.catalog, template, occurrences[..k], sid, user, first)
    {
      var created := CreateBooking(st, NewMember(template, occurrences[k], sid, user, k + 1));
      assert NewMembers(st.catalog, template, occurrences[..k + 1], sid, user, first)
          == NewMembers(st.catalog, template, occurrences[..k], sid, user, first) + [created];
      k := k + 1;
    }
    assert occurrences[..k] == occurrences;
  }

  /** A null payload on a series member: later members deleted, earlier ones
      detached, the series deleted, the booking saved standalone. */
  method DissolveSeries(st: Store, booking: Booking, user: Id)
    requires HasVariant(st.catalog, booking) && booking.series.Some?
    modifies st`bookings, st`series
    ensures st.bookings == DissolveRows(st.catalog, old(st.bookings), booking.series.value, booking, user)
    ensures st.series == old(st.series) - {booking.series.value}
    ensures old(st.Valid()) && booking.id < st.nextBookingId ==> st.Valid()
  {
    if st.Valid() && booking.id < st.nextBookingId {
      DissolveKeepsTables(st.catalog, st.bookings, st.series, st.archive, st.nextBookingId, st.nextSeriesId, booking, user);
    }
    DropSeries(st, booking.series.value, booking.startTime, booking.id);
    SaveBooking(st, booking.(series := None, sequence := 1, createdBy := OrUser(booking.createdBy, user)));
  }

  /** The deletes and updates of a dissolve before the booking is saved:
      later members other than `keep` deleted, earlier ones detached, and the
      series deleted with whatever rows are still attached to it. */
  method DropSeries(st: Store, sid: Id, pivot: int, keep: Id)
    modifies st`bookings, st`series
    ensures st.bookings == Keep(DetachPast(DeleteFuture(old(st.bookings), sid, pivot, keep), sid, pivot),
                                (b: Booking) => b.series != Some(sid))
    ensures st.series == old(st.series) - {sid}
  {
    st.bookings := DeleteFuture(st.bookings, sid, pivot, keep);
    st.bookings := DetachPast(st.bookings, sid, pivot);
    // `existing_series.delete()`: the cascade takes rows still attached
    st.bookings := Keep(st.bookings, (b: Booking) => b.series != Some(sid));
    st.series := st.series - {sid};
  }

  /** The series write of a rebuild: the booking's own series is updated
      in place, or a new one is created under the next free key. */
  method WriteSeries(st: Store, booking: Booking, built: BookingSeries, user: Id) returns (sid: Id)
    modifies st`series, st`nextSeriesId
    ensures sid == (if booking.series.Some? then booking.series.value else old(st.nextSeriesId))
    ensures st.nextSeriesId == old(st.nextSeriesId) + (if booking.series.Some? then 0 else 1)
    ensures st.series == old(st.series)[sid := built.(createdBy := OrUser(built.createdBy, user))]
  {
    if booking.series.Some? {
      sid := booking.series.value;
    } else {
      sid := st.nextSeriesId;
      st.nextSeriesId := st.nextSeriesId + 1;
    }
    st.series := st.series[sid := built.(createdBy := OrUser(built.createdBy, user))];
  }

  /** The booking writes of a rebuild into series `sid`: past members
      detached and later ones deleted (for an existing series), the edited
      booking saved first, then one row per further occurrence. */
  method WriteMembers(st: Store, booking: Booking, sid: Id, occurrences: seq<int>, user: Id)
    requires HasVariant(st.catalog, booking) && occurrences != []
    modifies st`bookings, st`nextBookingId
    ensures st.bookings == RebuiltRows(st.catalog, old(st.bookings), booking.series, booking.startTime,
                                       booking, sid, occurrences, user, old(st.nextBookingId))
    ensures st.nextBookingId == old(st.nextBookingId) + |occurrences| - 1
  {
    if booking.series.Some? {
      st.bookings := SplitAt(st.bookings, booking.series.value, booking.startTime, booking.id);
    }
    var edited := EditedFirst(booking, sid, occurrences[0], user);
    SaveBooking(st, edited);
    CreateOccurrences(st, edited, occurrences, sid, user);
  }

  /** The writes of a rebuild once the occurrences are known. */
  method RebuildSeries(st: Store, booking: Booking, built: BookingSeries, occurrences: seq<int>, user: Id) returns (sid: Id)
    requires HasVariant(st.catalog, booking) && occurrences != []
    modifies st`bookings, st`series, st`nextBookingId, st`nextSeriesId
    ensures sid == (if booking.series.Some? then booking.series.value else old(st.nextSeriesId))
    ensures st.nextSeriesId == old(st.nextSeriesId) + (if booking.series.Some? then 0 else 1)
    ensures st.series == old(st.series)[sid := built.(createdBy := OrUser(built.createdBy, user))]
    ensures st.bookings == RebuiltRows(st.catalog, old(st.bookings), booking.series, booking.startTime,
                                       booking, sid, occurrences, user, old(st.nextBookingId))
    ensures st.nextBookingId == old(st.nextBookingId) + |occurrences| - 1
    ensures old(st.Valid()) && booking.id < old(st.nextBookingId) && SeriesKnown(booking, old(st.series)) ==> st.Valid()
  {
    sid := WriteSeries(st, booking, built, user);
    WriteMembers(st, booking, sid, occurrences, user);
    if old(st.Valid()) && booking.id < old(st.nextBookingId) && SeriesKnown(booking, old(st.series)) {
      RebuiltKeepsTables(st.catalog, old(st.bookings), old(st.series), st.archive, old(st.nextBookingId), old(st.nextSeriesId),
                         booking, built.(createdBy := OrUser(built.createdBy, user)), occurrences, user,
                         st.bookings, st.series, st.nextBookingId, st.nextSeriesId);
    }
  }

  /** `handle_series_booking_update`. Without a payload the booking becomes
      standalone (dissolving its series); with one, the rule's dates are
      generated by `generate` (the recurrence expander, not modelled); no
      dates is an error raised before anything is written; otherwise the
      series is rebuilt around the booking, and conflicts of the new dates
      only add a warning to the message. */
  method HandleSeriesBookingUpdate(st: Store, booking: Booking, payload: Option<RecurrencePayload>, user: Id,
                                   generate: BookingSeries -> seq<int>, formatDateTime: int -> string)
    returns (result: Result<string, string>)
    requires st.Valid() && booking.id < st.nextBookingId
    requires HasVariant(st.catalog, booking) && FindCabinet(st.catalog.cabinets, booking.cabinet).Some?
    requires SeriesKnown(booking, st.series)
    modifies st`bookings, st`series, st`nextBookingId, st`nextSeriesId
    ensures st.Valid()
    ensures payload.None? && booking.series.None? ==>
      result == Ok("Бронирование обновлено")
      && st.bookings == WithSaved(st.catalog, old(st.bookings), booking.(sequence := 1, createdBy := OrUser(booking.createdBy, user)))
      && st.series == old(st.series)
      && st.nextBookingId == old(st.nextBookingId) && st.nextSeriesId == old(st.nextSeriesId)
    ensures payload.None? && booking.series.Some? ==>
      result == Ok("Повтор отключён, серия удалена")
      && st.bookings == DissolveRows(st.catalog, old(st.bookings), booking.series.value, booking, user)
      && st.series == old(st.series) - {booking.series.value}
      && st.nextBookingId == old(st.nextBookingId) && st.nextSeriesId == old(st.nextSeriesId)
    ensures payload.Some? && generate(SeriesFor(old(st.series), booking, payload.value, user)) == [] ==>
      result == Err(NoOccurrencesMessage)
      && st.bookings == old(st.bookings) && st.series == old(st.series)
      && st.nextBookingId == old(st.nextBookingId) && st.nextSeriesId == old(st.nextSeriesId)
    ensures payload.Some? && generate(SeriesFor(old(st.series), booking, payload.value, user)) != [] ==>
      var built := SeriesFor(old(st.series), booking, payload.value, user);
      var occurrences := generate(built);
      var sid := if booking.series.Some? then booking.series.value else old(st.nextSeriesId);
      var excludeIds := if booking.series.Some? then FutureIds(old(st.bookings), sid, booking.startTime) else [];
      var issues := IssuesUpTo(OccurrenceCheck(st.catalog, st.schedules, old(st.bookings), booking), occurrences, excludeIds, |occurrences|);
      result == Ok(SeriesUpdateMessage(booking.series.Some?, |occurrences|, SeriesConflictWarning(issues, formatDateTime)))
      && st.series == old(st.series)[sid := built.(createdBy := OrUser(built.createdBy, user))]
      && st.nextSeriesId == old(st.nextSeriesId) + (if booking.series.Some? then 0 else 1)
      && st.bookings == RebuiltRows(st.catalog, old(st.bookings), booking.series, booking.startTime,
                                    booking, sid, occurrences, user, old(st.nextBookingId))
      && st.nextBookingId == old(st.nextBookingId) + |occurrences| - 1
  {
    if payload.None? {
      if booking.series.None? {
        SaveAlone(st, booking, user);
        return Ok("Бронирование обновлено");
      }
      DissolveSeries(st, booking, user);
      return Ok("Повтор отключён, серия удалена");
    }
    result := UpdateWithRule(st, booking, payload.value, user, generate, formatDateTime);
  }

  /** The branch of `handle_series_booking_update` for a booking outside any
      series and no rule: the booking is saved as the first of its kind. */
  method SaveAlone(st: Store, booking: Booking, user: Id)
    requires st.Valid() && booking.id < st.nextBookingId && HasVariant(st.catalog, booking) && booking.series.None?
    modifies st`bookings
    ensures st.bookings == WithSaved(st.catalog, old(st.bookings), booking.(sequence := 1, createdBy := OrUser(booking.createdBy, user)))
    ensures st.Valid()
  {
    var row := booking.(sequence := 1, createdBy := OrUser(booking.createdBy, user));
    SaveKeepsTables(st.catalog, st.bookings, st.series, st.archive, st.nextBookingId, st.nextSeriesId, row);
    SaveBooking(st, row);
  }

  /** The payload branch of `handle_series_booking_update`. */
  method UpdateWithRule(st: Store, booking: Booking, payload: RecurrencePayload, user: Id,
                        generate: BookingSeries -> seq<int>, formatDateTime: int -> string)
    returns (result: Result<string, string>)
    requires st.Valid() && booking.id < st.nextBookingId
    requires HasVariant(st.catalog, booking) && FindCabinet(st.catalog.cabinets, booking.cabinet).Some?
    requires SeriesKnown(booking, st.series)
    modifies st`bookings, st`series, st`nextBookingId, st`nextSeriesId
    ensures st.Valid()
    ensures generate(SeriesFor(old(st.series), booking, payload, user)) == [] ==>
      result == Err(NoOccurrencesMessage)
      && st.bookings == old(st.bookings) && st.series == old(st.series)
      && st.nextBookingId == old(st.nextBookingId) && st.nextSeriesId == old(st.nextSeriesId)
    ensures generate(SeriesFor(old(st.series), booking, payload, user)) != [] ==>
      var built := SeriesFor(old(st.series), booking, payload, user);
      var occurrences := generate(built);
      var sid := if booking.series.Some? then booking.series.value else old(st.nextSeriesId);
      var excludeIds := if booking.series.Some? then FutureIds(old(st.bookings), sid, booking.startTime) else [];
      var issues := IssuesUpTo(OccurrenceCheck(st.catalog, st.schedules, old(st.bookings), booking), occurrences, excludeIds, |occurrences|);
      result == Ok(SeriesUpdateMessage(booking.series.Some?, |occurrences|, SeriesConflictWarning(issues, formatDateTime)))
      && st.series == old(st.series)[sid := built.(createdBy := OrUser(built.createdBy, user))]
      && st.nextSeriesId == old(st.nextSeriesId) + (if booking.series.Some? then 0 else 1)
      && st.bookings == RebuiltRows(st.catalog, old(st.bookings), booking.series, booking.startTime,
                                    booking, sid, occurrences, user, old(st.nextBookingId))
      && st.nextBookingId == old(st.nextBookingId) + |occurrences| - 1
  {
    var built := SeriesFor(st.series, booking, payload, user);
    var excludeIds := if booking.series.Some? then FutureIds(st.bookings, booking.series.value, booking.startTime) else [];
    var occurrences := generate(built);
    if occurrences == [] {
      return Err(NoOccurrencesMessage);
    }
    var issues := DetectOccurrenceConflicts(OccurrenceCheck(st.catalog, st.schedules, st.bookings, booking), occurrences, excludeIds);
    var warning := SeriesConflictWarning(issues, formatDateTime);
    var sid := RebuildSeries(st, booking, built, occurrences, user);
    result := Ok(SeriesUpdateMessage(booking.series.Some?, |occurrences|, warning));
  }

  // ------------------------------------------------------ store integrity

  /** A series without members has no row pointing to it. */
  lemma NoMembers(rows: seq<Booking>, sid: Id)
    requires Members(rows, sid) == []
    ensures forall x :: x in rows ==> x.series != Some(sid)
  {
    forall x | x in rows ensures x.series != Some(sid) {
      assert x in Members(rows, sid) <==> x.series == Some(sid);
    }
  }

  /** Renumbering touches no series link. */
  lemma RenumberedLinked(rows: seq<Booking>, sid: Id, series: map<Id, BookingSeries>)
    requires SeriesLinked(rows, series)
    ensures SeriesLinked(Renumbered(rows, sid), series)
  {
    var r := Renumbered(rows, sid);
    forall x | x in r ensures SeriesKnown(x, series) {
      var j :| 0 <= j < |r| && r[j] == x;
      assert rows[j] in rows;
    }
  }

  /** Detaching members clears links and changes no other. */
  lemma DetachPastLinked(rows: seq<Booking>, sid: Id, pivot: int, series: map<Id, BookingSeries>)
    requires SeriesLinked(rows, series)
    ensures SeriesLinked(DetachPast(rows, sid, pivot), series)
  {
    var r := DetachPast(rows, sid, pivot);
    forall x | x in r ensures SeriesKnown(x, series) {
      var j :| 0 <= j < |r| && r[j] == x;
      assert rows[j] in rows;
    }
  }

  /** `handle_single_booking_update` keeps the tables valid, the emptied
      series deleted with its last member. */
  lemma SingleUpdateKeepsTables(cat: Catalog, rows: seq<Booking>, series: map<Id, BookingSeries>,
                                archive: seq<DeletedBooking>, nextId: int, nextSeriesId: int,
                                booking: Booking, recurrenceEnabled: bool, user: Id)
    requires TablesValid(cat, rows, series, archive, nextId, nextSeriesId)
    requires HasVariant(cat, booking) && booking.id < nextId && SeriesKnown(booking, series)
    ensures var r := SingleUpdateRows(cat, rows, booking, recurrenceEnabled, user);
      TablesValid(cat, r, if booking.series.Some? && !recurrenceEnabled && Members(r, booking.series.value) == []
                          then series - {booking.series.value} else series,
                  archive, nextId, nextSeriesId)
  {
    SingleUpdateFacts(cat, rows, nextId, booking, recurrenceEnabled, user);
    var row := booking.(createdBy := OrUser(booking.createdBy, user));
    var r := SingleUpdateRows(cat, rows, booking, recurrenceEnabled, user);
    if booking.series.Some? && !recurrenceEnabled {
      var sid := booking.series.value;
      WithSavedLinked(cat, rows, series, row.(series := None, sequence := 1));
      RenumberedLinked(WithSaved(cat, rows, row.(series := None, sequence := 1)), sid, series);
      if Members(r, sid) == [] {
        NoMembers(r, sid);
        DroppedLinked(r, series, sid);
      }
    } else {
      WithSavedLinked(cat, rows, series, row.(sequence := if booking.series.Some? then booking.sequence else 1));
    }
  }

  /** Dissolving a series keeps the tables valid once the series is deleted:
      no row points to it any more. */
  lemma DissolveKeepsTables(cat: Catalog, rows: seq<Booking>, series: map<Id, BookingSeries>,
                            archive: seq<DeletedBooking>, nextId: int, nextSeriesId: int, booking: Booking, user: Id)
    requires TablesValid(cat, rows, series, archive, nextId, nextSeriesId)
    requires HasVariant(cat, booking) && booking.id < nextId && booking.series.Some?
    ensures TablesValid(cat, DissolveRows(cat, rows, booking.series.value, booking, user), series - {booking.series.value},
                        archive, nextId, nextSeriesId)
  {
    var sid := booking.series.value;
    var pivot := booking.startTime;
    var standalone := booking.(series := None, sequence := 1, createdBy := OrUser(booking.createdBy, user));
    DissolveFacts(cat, rows, nextId, sid, booking, user);
    var future := DeleteFuture(rows, sid, pivot, booking.id);
    assert SeriesLinked(future, series);
    DetachPastLinked(future, sid, pivot, series);
    var cascaded := Keep(DetachPast(future, sid, pivot), (b: Booking) => b.series != Some(sid));
    WithSavedLinked(cat, cascaded, series, standalone);
    assert DissolveRows(cat, rows, sid, booking, user) == WithSaved(cat, cascaded, standalone);
    DroppedLinked(DissolveRows(cat, rows, sid, booking, user), series, sid);
  }

  /** The rows of a rebuild all point to series in the updated series table. */
  lemma RebuiltLinked(cat: Catalog, rows: seq<Booking>, series: map<Id, BookingSeries>, booking: Booking,
                      sid: Id, occurrences: seq<int>, user: Id, firstId: Id)
    requires SeriesLinked(rows, series) && sid in series
    requires HasVariant(cat, booking) && occurrences != []
    ensures SeriesLinked(RebuiltRows(cat, rows, booking.series, booking.startTime, booking, sid, occurrences, user, firstId), series)
  {
    var edited := EditedFirst(booking, sid, occurrences[0], user);
    var kept := if booking.series.Some? then SplitAt(rows, booking.series.value, booking.startTime, edited.id) else rows;
    if booking.series.Some? {
      DetachPastLinked(rows, booking.series.value, booking.startTime, series);
    }
    WithSavedLinked(cat, kept, series, edited);
    var base := RebuildBase(cat, rows, booking.series, booking.startTime, edited);
    var n := NewMembers(cat, edited, occurrences, sid, user, firstId);
    NewMembersFacts(cat, edited, occurrences, sid, user, firstId);
    forall x | x in base + n ensures SeriesKnown(x, series) {
      if x !in base {
        var j :| 0 <= j < |n| && n[j] == x;
      }
    }
  }

  /** A rebuild keeps the tables valid: the series it writes is the
      booking's own or a freshly allocated one, and every new row belongs
      to it. */
  lemma RebuiltKeepsTables(cat: Catalog, rows: seq<Booking>, series: map<Id, BookingSeries>,
                           archive: seq<DeletedBooking>, nextId: Id, nextSeriesId: Id,
                           booking: Booking, built: BookingSeries, occurrences: seq<int>, user: Id,
                           rows': seq<Booking>, series': map<Id, BookingSeries>, nextId': Id, nextSeriesId': Id)
    requires TablesValid(cat, rows, series, archive, nextId, nextSeriesId)
    requires HasVariant(cat, booking) && booking.id < nextId && SeriesKnown(booking, series) && occurrences != []
    requires var sid := if booking.series.Some? then booking.series.value else nextSeriesId;
      rows' == RebuiltRows(cat, rows, booking.series, booking.startTime, booking, sid, occurrences, user, nextId)
      && series' == series[sid := built] && nextId' == nextId + |occurrences| - 1
      && nextSeriesId' == nextSeriesId + (if booking.series.Some? then 0 else 1)
    ensures TablesValid(cat, rows', series', archive, nextId', nextSeriesId')
  {
    var sid := if booking.series.Some? then booking.series.value else nextSeriesId;
    if booking.series.None? {
      forall x | x in rows ensures x.series != Some(sid) {
        assert SeriesKnown(x, series);
      }
    }
    RebuiltRowsFacts(cat, rows, booking.series, booking.startTime, booking, sid, occurrences, user, nextId);
    LinkedWider(rows, series, series[sid := built]);
    RebuiltLinked(cat, rows, series[sid := built], booking, sid, occurrences, user, nextId);
  }
}
