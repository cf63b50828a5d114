/** The delete view of a booking and the refusal of the duplicate view: a
    whole series goes at once, a single booking goes alone and the members of
    its series are renumbered (or the series removed once empty). */
module Deletion {
  import opened Common
  import opened Models
  import opened Text
  import opened SeriesOps

  const SingleDeletedMessage: string := "Бронирование удалено"

  const SeriesDeletedPrefix: string := "Удалена серия из "
  const SeriesDeletedSuffix: string := " бронирований"

  /** The success message of a series deletion: the number of deleted rows in
      decimal between a fixed prefix and suffix. */
  function SeriesDeletedMessage(count: nat): (r: string)
    ensures |r| > |SeriesDeletedPrefix| + |SeriesDeletedSuffix|
    ensures r[..|SeriesDeletedPrefix|] == SeriesDeletedPrefix
    ensures r[|r| - |SeriesDeletedSuffix|..] == SeriesDeletedSuffix
    ensures var digits := r[|SeriesDeletedPrefix|..|r| - |SeriesDeletedSuffix|];
      AllDigits(digits) && ParseNat(digits) == count
  {
    var r := SeriesDeletedPrefix + NatToString(count) + SeriesDeletedSuffix;
    assert r[|SeriesDeletedPrefix|..|r| - |SeriesDeletedSuffix|] == NatToString(count);
    ParseNatToString(count);
    r
  }

  /** `series.bookings.all().delete()`. */
  function WithoutSeries(rows: seq<Booking>, sid: Id): seq<Booking> {
    Keep(rows, (b: Booking) => b.series != Some(sid))
  }

  /** `booking.delete()`. */
  function WithoutBooking(rows: seq<Booking>, id: Id): seq<Booking> {
    Keep(rows, (b: Booking) => b.id != id)
  }

  /** A filter and its complement split the table. */
  lemma {:induction false} KeepSplits(rows: seq<Booking>, p: Booking -> bool)
    ensures |Keep(rows, p)| + |Keep(rows, (b: Booking) => !p(b))| == |rows|
    decreases |rows|
  {
    if rows != [] {
      KeepSplits(rows[1..], p);
    }
  }

  /** With distinct keys, exactly one row carries the key of a stored booking. */
  lemma {:induction false} WithoutBookingCount(rows: seq<Booking>, id: Id)
    requires DistinctBookingIds(rows)
    requires IndexOfBooking(rows, id).Some?
    ensures |WithoutBooking(rows, id)| == |rows| - 1
    decreases |rows|
  {
    var tail := rows[1..];
    assert DistinctBookingIds(tail) by {
      forall i, j | 0 <= i < j < |tail| ensures tail[i].id != tail[j].id {
        assert tail[i] == rows[i + 1] && tail[j] == rows[j + 1];
      }
    }
    if rows[0].id == id {
      assert forall j :: 0 <= j < |tail| ==> tail[j] == rows[j + 1] && tail[j].id != id;
      assert WithoutBooking(tail, id) == tail by { KeepAll(tail, (b: Booking) => b.id != id); }
    } else {
      WithoutBookingCount(tail, id);
    }
  }

  /** A filter every row passes keeps the whole table. */
  lemma {:induction false} KeepAll(rows: seq<Booking>, p: Booking -> bool)
    requires forall i :: 0 <= i < |rows| ==> p(rows[i])
    ensures Keep(rows, p) == rows
    decreases |rows|
  {
    if rows != [] {
      KeepAll(rows[1..], p);
    }
  }

  /** Series scope: no row of the series is left, every other row stays, and
      exactly as many rows go as the series had. */
  lemma DeleteSeriesFacts(cat: Catalog, rows: seq<Booking>, nextId: int, sid: Id)
    requires BookingsValid(cat, rows, nextId)
    ensures var r := WithoutSeries(rows, sid);
      BookingsValid(cat, r, nextId)
      && Members(r, sid) == []
      && (forall x :: x in rows && x.series != Some(sid) ==> x in r)
      && (forall x :: x in r ==> x in rows)
      && |r| == |rows| - |Members(rows, sid)|
  {
    var r := WithoutSeries(rows, sid);
    KeepValid(cat, rows, nextId, (b: Booking) => b.series != Some(sid));
    MembersEmpty(r, sid);
    assert forall i :: 0 <= i < |r| ==> r[i] in r;
    KeepSplits(rows, (b: Booking) => b.series == Some(sid));
    assert Keep(rows, (b: Booking) => !((b: Booking) => b.series == Some(sid))(b)) == r by {
      KeepSame(rows, (b: Booking) => !((b: Booking) => b.series == Some(sid))(b), (b: Booking) => b.series != Some(sid));
    }
  }

  /** Two filters that agree on every row keep the same rows. */
  lemma {:induction false} KeepSame(rows: seq<Booking>, p: Booking -> bool, q: Booking -> bool)
    requires forall b :: p(b) == q(b)
    ensures Keep(rows, p) == Keep(rows, q)
    decreases |rows|
  {
    if rows != [] {
      KeepSame(rows[1..], p, q);
    }
  }

  /** The table after deleting one booking of series `sid`. */
  function DeleteMemberRows(rows: seq<Booking>, id: Id, sid: Id): seq<Booking> {
    Renumbered(WithoutBooking(rows, id), sid)
  }

  /** Single scope on a series member: the booking is gone, one row fewer,
      the table stays valid, rows outside the series stay as they were. */
  lemma DeleteMemberFacts(cat: Catalog, rows: seq<Booking>, nextId: int, id: Id, sid: Id)
    requires BookingsValid(cat, rows, nextId) && IndexOfBooking(rows, id).Some?
    ensures var r := DeleteMemberRows(rows, id, sid);
      BookingsValid(cat, r, nextId)
      && (forall x :: x in r ==> x.id != id)
      && |r| == |rows| - 1
      && (forall x :: x in rows && x.id != id && x.series != Some(sid) ==> x in r)
  {
    var kept := WithoutBooking(rows, id);
    KeepValid(cat, rows, nextId, (b: Booking) => b.id != id);
    WithoutBookingCount(rows, id);
    RenumberedValid(cat, kept, nextId, sid);
    RenumberedRows(kept, sid);
  }

  /** Single scope on a series member: the other members keep every field
      but their sequence, which runs 1..N, differs between members and
      follows start order. */
  lemma DeleteMemberRenumbers(cat: Catalog, rows: seq<Booking>, nextId: int, id: Id, sid: Id)
    requires BookingsValid(cat, rows, nextId)
    ensures var r := DeleteMemberRows(rows, id, sid);
      (forall x :: x in rows && x.id != id && x.series == Some(sid) ==>
         exists y :: y in r && y == x.(sequence := y.sequence) && 1 <= y.sequence <= |Members(r, sid)|)
      && (forall i, j :: 0 <= i < |r| && 0 <= j < |r| && i != j && r[i].series == Some(sid) && r[j].series == Some(sid) ==>
            r[i].sequence != r[j].sequence)
      && (forall i, j :: (0 <= i < |r| && 0 <= j < |r| && r[i].series == Some(sid) && r[j].series == Some(sid)
            && r[i].startTime < r[j].startTime) ==> r[i].sequence < r[j].sequence)
  {
    var kept := WithoutBooking(rows, id);
    KeepDistinct(rows, (b: Booking) => b.id != id);
    RenumberedOrder(kept, sid);
    KeptMembersRenumbered(rows, kept, sid, id);
  }

  /** Deleting a whole series and its rows keeps the tables valid. */
  lemma DeleteSeriesKeepsTables(cat: Catalog, rows: seq<Booking>, series: map<Id, BookingSeries>,
                                archive: seq<DeletedBooking>, nextId: int, nextSeriesId: int, sid: Id)
    requires TablesValid(cat, rows, series, archive, nextId, nextSeriesId)
    ensures TablesValid(cat, WithoutSeries(rows, sid), series - {sid}, archive, nextId, nextSeriesId)
  {
    DeleteSeriesFacts(cat, rows, nextId, sid);
    DroppedLinked(WithoutSeries(rows, sid), series, sid);
  }

  /** Deleting one booking keeps the tables valid. */
  lemma DeleteOneKeepsTables(cat: Catalog, rows: seq<Booking>, series: map<Id, BookingSeries>,
                             archive: seq<DeletedBooking>, nextId: int, nextSeriesId: int, id: Id)
    requires TablesValid(cat, rows, series, archive, nextId, nextSeriesId)
    ensures TablesValid(cat, WithoutBooking(rows, id), series, archive, nextId, nextSeriesId)
  {
    KeepValid(cat, rows, nextId, (b: Booking) => b.id != id);
  }

  /** Deleting one member keeps the tables valid, the series deleted with
      its last member. */
  lemma DeleteMemberKeepsTables(cat: Catalog, rows: seq<Booking>, series: map<Id, BookingSeries>,
                                archive: seq<DeletedBooking>, nextId: int, nextSeriesId: int, id: Id, sid: Id)
    requires TablesValid(cat, rows, series, archive, nextId, nextSeriesId)
    ensures var r := DeleteMemberRows(rows, id, sid);
      TablesValid(cat, r, if Members(r, sid) == [] then series - {sid} else series, archive, nextId, nextSeriesId)
  {
    var kept := WithoutBooking(rows, id);
    var r := DeleteMemberRows(rows, id, sid);
    DeleteOneKeepsTables(cat, rows, series, archive, nextId, nextSeriesId, id);
    RenumberedValid(cat, kept, nextId, sid);
    RenumberedLinked(kept, sid, series);
    if Members(r, sid) == [] {
      NoMembers(r, sid);
      DroppedLinked(r, series, sid);
    }
  }

  /** `BookingDeleteView.delete`. `None` is the 404 of `get_object`. With
      scope "series" on a member, every row of the series and the series go;
      otherwise the booking goes, and when it was in a series the rest are
      renumbered by start time or the emptied series is deleted. */
  method DeleteBooking(st: Store, id: Id, scope: string) returns (message: Option<string>)
    requires st.Valid()
    modifies st`bookings, st`series
    ensures st.Valid()
    ensures IndexOfBooking(old(st.bookings), id).None? ==>
      message.None? && st.bookings == old(st.bookings) && st.series == old(st.series)
    ensures IndexOfBooking(old(st.bookings), id).Some? ==>
      var b := old(st.bookings)[IndexOfBooking(old(st.bookings), id).value];
      if scope == "series" && b.series.Some? then
        message == Some(SeriesDeletedMessage(|Members(old(st.bookings), b.series.value)|))
        && st.bookings == WithoutSeries(old(st.bookings), b.series.value)
        && st.series == old(st.series) - {b.series.value}
      else if b.series.Some? then
        message == Some(SingleDeletedMessage)
        && st.bookings == DeleteMemberRows(old(st.bookings), id, b.series.value)
        && st.series == (if Members(st.bookings, b.series.value) == [] then old(st.series) - {b.series.value} else old(st.series))
      else
        message == Some(SingleDeletedMessage)
        && st.bookings == WithoutBooking(old(st.bookings), id)
        && st.series == old(st.series)
  {
    var k := IndexOfBooking(st.bookings, id);
    if k.None? {
      return None;
    }
    var booking := st.bookings[k.value];
    var series := booking.series;
    if series.Some? {
      DeleteSeriesKeepsTables(st.catalog, st.bookings, st.series, st.archive, st.nextBookingId, st.nextSeriesId, series.value);
      DeleteMemberKeepsTables(st.catalog, st.bookings, st.series, st.archive, st.nextBookingId, st.nextSeriesId, id, series.value);
    } else {
      DeleteOneKeepsTables(st.catalog, st.bookings, st.series, st.archive, st.nextBookingId, st.nextSeriesId, id);
    }
    if scope == "series" && series.Some? {
      var count := |Members(st.bookings, series.value)|;
      st.bookings := WithoutSeries(st.bookings, series.value);
      st.series := st.series - {series.value};
      return Some(SeriesDeletedMessage(count));
    }
    st.bookings := WithoutBooking(st.bookings, id);
    message := Some(SingleDeletedMessage);
    if series.Some? {
      KeepDistinct(old(st.bookings), (b: Booking) => b.id != id);
      DropOrRenumber(st, series.value);
    }
  }

  // ------------------------------------------------------------- duplicate

  /** Outcome of the checks `duplicate_booking_view` makes before copying. */
  datatype DuplicateCheck = Proceed(original: Booking) | Refused(status: int, error: string)

  const MissingParameters: string := "Не переданы обязательные параметры"
  const DuplicateNotFound: string := "Бронирование не найдено"
  const SeriesNotCopyable: string := "Нельзя копировать бронирования, входящие в серию"

  /** The guards of `duplicate_booking_view`: both parameters present, the
      booking exists, and it is not part of a series. `bookingId` is `None`
      when the parameter is missing or empty. */
  function CheckDuplicate(rows: seq<Booking>, bookingId: Option<int>, startText: string): (r: DuplicateCheck)
    ensures r.Proceed? <==>
      bookingId.Some? && startText != "" && IndexOfBooking(rows, bookingId.value).Some?
      && rows[IndexOfBooking(rows, bookingId.value).value].series.None?
    ensures r.Proceed? ==> r.original in rows && r.original.id == bookingId.value && r.original.series.None?
    ensures r == Refused(400, SeriesNotCopyable) <==>
      bookingId.Some? && startText != "" && IndexOfBooking(rows, bookingId.value).Some?
      && rows[IndexOfBooking(rows, bookingId.value).value].series.Some?
    ensures r == Refused(404, DuplicateNotFound) <==>
      bookingId.Some? && startText != "" && IndexOfBooking(rows, bookingId.value).None?
  {
    if bookingId.None? || startText == "" then Refused(400, MissingParameters)
    else match IndexOfBooking(rows, bookingId.value)
      case None => Refused(404, DuplicateNotFound)
      case Some(k) =>
        if rows[k].series.Some? then Refused(400, SeriesNotCopyable) else Proceed(rows[k])
  }
}
