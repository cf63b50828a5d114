/** The relational store of the spa: reference data (services, variants,
    specialists, cabinets, the buffer setting), working schedules, bookings,
    booking series, the deletion archive and guests. Reference data is a value
    (`Catalog`); the tables the core writes are fields of `Store`. */
module Models {
  import opened Common

  datatype Status = Confirmed | Paid | Completed | Canceled

  /** SystemSettings.buffer_time_minutes default: cleaning time between bookings. */
  const DefaultBufferMinutes: nat := 15

  datatype CabinetType = CabinetType(id: Id, name: string)
  datatype Cabinet = Cabinet(id: Id, name: string, cabinetType: Id, isActive: bool)
  datatype Service = Service(id: Id, name: string, requiredCabinetTypes: seq<Id>)
  datatype ServiceVariant = ServiceVariant(id: Id, service: Id, nameSuffix: string, durationMinutes: nat)
  datatype Specialist = Specialist(id: Id, fullName: string, servicesCanPerform: set<Id>)

  /** Data the booking core only reads. Sequences are in primary-key order. */
  datatype Catalog = Catalog(
    cabinetTypes: seq<CabinetType>,
    cabinets: seq<Cabinet>,
    services: seq<Service>,
    variants: seq<ServiceVariant>,
    specialists: seq<Specialist>,
    users: set<Id>,
    bufferTimeMinutes: nat)

  /** A weekly working window; times are minutes of the day, day 0 is Monday. */
  datatype Schedule = Schedule(specialist: Id, dayOfWeek: int, startTime: int, endTime: int)

  datatype TemplateDay = TemplateDay(dayOfWeek: int, startTime: int, endTime: int)

  datatype Booking = Booking(
    id: Id,
    guestName: string,
    guestRoomNumber: string,
    guest: Option<Id>,
    serviceVariant: Id,
    specialist: Id,
    cabinet: Id,
    startTime: int,
    endTime: int,
    createdBy: Option<Id>,
    status: Status,
    series: Option<Id>,
    sequence: int)

  /** Recurrence rule of a series; dates are day numbers. */
  datatype BookingSeries = BookingSeries(
    startTime: int,
    frequency: string,
    interval: int,
    endDate: Option<int>,
    occurrenceCount: Option<int>,
    weekdays: seq<int>,
    excludedDates: seq<int>,
    createdBy: Option<Id>)

  datatype Guest = Guest(id: Id, displayName: string)

  /** The archived fields of a deleted booking; absent keys are `None`. */
  datatype BookingSnapshot = BookingSnapshot(
    serviceVariantId: Option<int>,
    specialistId: Option<int>,
    cabinetId: Option<int>,
    startTime: Option<int>,
    endTime: Option<int>,
    guestName: Option<string>,
    guestRoomNumber: Option<string>,
    status: Option<Status>,
    createdById: Option<int>,
    sequence: Option<int>)

  datatype SeriesSnapshot = SeriesSnapshot(
    frequency: string,
    interval: int,
    endDate: Option<int>,
    occurrenceCount: Option<int>,
    weekdays: seq<int>,
    excludedDates: seq<int>)

  /** Archive row; `bookingData == None` stands for an empty JSON object. */
  datatype DeletedBooking = DeletedBooking(
    id: Id,
    originalId: Id,
    bookingData: Option<BookingSnapshot>,
    seriesData: Option<SeriesSnapshot>,
    seriesId: Option<Id>,
    restored: bool,
    restoredAt: Option<int>,
    restoredBy: Option<Id>)

  // ----------------------------------------------------------------- lookups

  function FindVariant(rows: seq<ServiceVariant>, id: int): (r: Option<ServiceVariant>)
    ensures r.Some? ==> r.value in rows && r.value.id == id
    ensures r.None? ==> forall v :: v in rows ==> v.id != id
  {
    if rows == [] then None
    else if rows[0].id == id then Some(rows[0])
    else FindVariant(rows[1..], id)
  }

  function FindService(rows: seq<Service>, id: int): (r: Option<Service>)
    ensures r.Some? ==> r.value in rows && r.value.id == id
    ensures r.None? ==> forall s :: s in rows ==> s.id != id
  {
    if rows == [] then None
    else if rows[0].id == id then Some(rows[0])
    else FindService(rows[1..], id)
  }

  function FindSpecialist(rows: seq<Specialist>, id: int): (r: Option<Specialist>)
    ensures r.Some? ==> r.value in rows && r.value.id == id
    ensures r.None? ==> forall s :: s in rows ==> s.id != id
  {
    if rows == [] then None
    else if rows[0].id == id then Some(rows[0])
    else FindSpecialist(rows[1..], id)
  }

  function FindCabinet(rows: seq<Cabinet>, id: int): (r: Option<Cabinet>)
    ensures r.Some? ==> r.value in rows && r.value.id == id
    ensures r.None? ==> forall c :: c in rows ==> c.id != id
  {
    if rows == [] then None
    else if rows[0].id == id then Some(rows[0])
    else FindCabinet(rows[1..], id)
  }

  /** Index of the booking row with primary key `id`, if any. */
  function IndexOfBooking(rows: seq<Booking>, id: int): (r: Option<nat>)
    ensures r.Some? ==> r.value < |rows| && rows[r.value].id == id
    ensures r.Some? ==> forall j :: 0 <= j < r.value ==> rows[j].id != id
    ensures r.None? ==> forall j :: 0 <= j < |rows| ==> rows[j].id != id
  {
    if rows == [] then None
    else if rows[0].id == id then Some(0)
    else match IndexOfBooking(rows[1..], id)
      case None => None
      case Some(k) => Some(k + 1)
  }

  // ------------------------------------------------------ derived end time

  /** Minutes a booking of this variant reserves: duration plus the buffer. */
  function TotalMinutes(cat: Catalog, v: ServiceVariant): nat {
    v.durationMinutes + cat.bufferTimeMinutes
  }

  predicate HasVariant(cat: Catalog, b: Booking) {
    FindVariant(cat.variants, b.serviceVariant).Some?
  }

  /** The row `Booking.save` writes: end_time recomputed from start, duration
      and buffer, whatever value it held before; every other field kept. */
  function Saved(cat: Catalog, b: Booking): (r: Booking)
    requires HasVariant(cat, b)
    ensures r.endTime == r.startTime + FindVariant(cat.variants, b.serviceVariant).value.durationMinutes + cat.bufferTimeMinutes
    ensures r.endTime >= r.startTime
    ensures r.(endTime := b.endTime) == b
  {
    b.(endTime := b.startTime + TotalMinutes(cat, FindVariant(cat.variants, b.serviceVariant).value))
  }

  /** The stored end never depends on the end the caller supplied. */
  lemma SavedIgnoresEnd(cat: Catalog, b: Booking, e: int)
    requires HasVariant(cat, b)
    ensures Saved(cat, b.(endTime := e)) == Saved(cat, b)
  {
  }

  /** Saving twice stores the same row as saving once. */
  lemma SavedIdempotent(cat: Catalog, b: Booking)
    requires HasVariant(cat, b)
    ensures Saved(cat, Saved(cat, b)) == Saved(cat, b)
  {
  }

  predicate EndDerived(cat: Catalog, b: Booking) {
    HasVariant(cat, b) && Saved(cat, b) == b
  }

  /** The rows of the booking table: distinct keys below the allocation
      counter, and every end time as `Booking.save` derives it. */
  ghost predicate BookingsValid(cat: Catalog, rows: seq<Booking>, nextId: int) {
    (forall i, j :: 0 <= i < j < |rows| ==> rows[i].id != rows[j].id)
    && (forall i :: 0 <= i < |rows| ==> rows[i].id < nextId)
    && (forall i :: 0 <= i < |rows| ==> EndDerived(cat, rows[i]))
  }

  /** At most one schedule per (specialist, day_of_week), day in 0..6. */
  ghost predicate SchedulesValid(rows: seq<Schedule>) {
    (forall i :: 0 <= i < |rows| ==> 0 <= rows[i].dayOfWeek <= 6)
    && (forall i, j :: 0 <= i < j < |rows| ==>
          rows[i].specialist != rows[j].specialist || rows[i].dayOfWeek != rows[j].dayOfWeek)
  }

  /** At most one template day per weekday, day in 0..6. */
  ghost predicate TemplateDaysValid(days: seq<TemplateDay>) {
    (forall i :: 0 <= i < |days| ==> 0 <= days[i].dayOfWeek <= 6)
    && (forall i, j :: 0 <= i < j < |days| ==> days[i].dayOfWeek != days[j].dayOfWeek)
  }

  /** A booking's series, if any, is a key of the series table. */
  predicate SeriesKnown(b: Booking, series: map<Id, BookingSeries>) {
    b.series.Some? ==> b.series.value in series
  }

  /** The foreign key `Booking.series`: every row's series exists. */
  ghost predicate SeriesLinked(rows: seq<Booking>, series: map<Id, BookingSeries>) {
    forall b :: b in rows ==> SeriesKnown(b, series)
  }

  /** A table whose series links all hold keeps them under a larger series table. */
  lemma LinkedWider(rows: seq<Booking>, series: map<Id, BookingSeries>, wider: map<Id, BookingSeries>)
    requires SeriesLinked(rows, series) && series.Keys <= wider.Keys
    ensures SeriesLinked(rows, wider)
  {
    forall x | x in rows ensures SeriesKnown(x, wider) {
      assert SeriesKnown(x, series);
    }
  }

  /** A series no row belongs to can be deleted without breaking a link. */
  lemma DroppedLinked(rows: seq<Booking>, series: map<Id, BookingSeries>, sid: Id)
    requires SeriesLinked(rows, series)
    requires forall x :: x in rows ==> x.series != Some(sid)
    ensures SeriesLinked(rows, series - {sid})
  {
    forall x | x in rows ensures SeriesKnown(x, series - {sid}) {
      assert SeriesKnown(x, series);
    }
  }

  /** The booking, series and archive tables together: a valid booking
      table, series keys below their allocation counter, every booking's
      series present, and every archived series id one that was allocated. */
  ghost predicate TablesValid(cat: Catalog, bookings: seq<Booking>, series: map<Id, BookingSeries>,
                              archive: seq<DeletedBooking>, nextBookingId: int, nextSeriesId: int) {
    BookingsValid(cat, bookings, nextBookingId)
    && (forall k :: k in series ==> k < nextSeriesId)
    && SeriesLinked(bookings, series)
    && (forall i :: 0 <= i < |archive| && archive[i].seriesId.Some? ==> archive[i].seriesId.value < nextSeriesId)
  }

  // ---------------------------------------------------------- the store

  class Store {
    var catalog: Catalog
    var schedules: seq<Schedule>
    var bookings: seq<Booking>
    var series: map<Id, BookingSeries>
    var archive: seq<DeletedBooking>
    var guests: seq<Guest>
    var nextBookingId: Id
    var nextSeriesId: Id

    /** The integrity the database keeps: the tables of `TablesValid` and
        at most one schedule per specialist and weekday. */
    ghost predicate Valid()
      reads this
    {
      TablesValid(catalog, bookings, series, archive, nextBookingId, nextSeriesId)
      && SchedulesValid(schedules)
    }

    constructor(cat: Catalog)
      ensures catalog == cat && schedules == [] && bookings == [] && series == map[]
      ensures archive == [] && guests == [] && nextBookingId == 1 && nextSeriesId == 1
      ensures Valid()
    {
      catalog := cat;
      schedules := [];
      bookings := [];
      series := map[];
      archive := [];
      guests := [];
      nextBookingId := 1;
      nextSeriesId := 1;
    }
  }

  /** The table after `Booking.save()` of an instance with a primary key:
      Django first updates the row with that key and, when no row has it any
      more, inserts one; either way the end time is recomputed. */
  function WithSaved(cat: Catalog, rows: seq<Booking>, b: Booking): seq<Booking>
    requires HasVariant(cat, b)
  {
    match IndexOfBooking(rows, b.id)
    case Some(k) => rows[k := Saved(cat, b)]
    case None => rows + [Saved(cat, b)]
  }

  /** After a save the saved row is the only one with its key, every other
      row is kept in place, and the table stays valid. */
  lemma WithSavedFacts(cat: Catalog, rows: seq<Booking>, nextId: int, b: Booking)
    requires BookingsValid(cat, rows, nextId) && HasVariant(cat, b) && b.id < nextId
    ensures var r := WithSaved(cat, rows, b);
      BookingsValid(cat, r, nextId)
      && Saved(cat, b) in r
      && (forall x :: x in r && x.id == b.id ==> x == Saved(cat, b))
      && (forall x :: x in rows && x.id != b.id ==> x in r)
      && (forall x :: x in r ==> x in rows || x == Saved(cat, b))
      && |r| == |rows| + (if IndexOfBooking(rows, b.id).Some? then 0 else 1)
  {
    match IndexOfBooking(rows, b.id)
    case Some(k) => SavedOverRow(cat, rows, nextId, b, k);
    case None => SavedAppended(cat, rows, nextId, b);
  }

  /** The update case of a save: the row with the key is replaced. */
  lemma SavedOverRow(cat: Catalog, rows: seq<Booking>, nextId: int, b: Booking, k: nat)
    requires BookingsValid(cat, rows, nextId) && HasVariant(cat, b) && b.id < nextId
    requires k < |rows| && rows[k].id == b.id
    ensures var r := rows[k := Saved(cat, b)];
      BookingsValid(cat, r, nextId)
      && Saved(cat, b) in r
      && (forall x :: x in r && x.id == b.id ==> x == Saved(cat, b))
      && (forall x :: x in rows && x.id != b.id ==> x in r)
      && (forall x :: x in r ==> x in rows || x == Saved(cat, b))
  {
    var r := rows[k := Saved(cat, b)];
    assert r[k] == Saved(cat, b);
    forall x | x in r && x.id == b.id ensures x == Saved(cat, b) {
      var j :| 0 <= j < |r| && r[j] == x;
      assert j == k;
    }
    forall x | x in rows && x.id != b.id ensures x in r {
      var j :| 0 <= j < |rows| && rows[j] == x;
      assert r[j] == x;
    }
    forall x | x in r ensures x in rows || x == Saved(cat, b) {
      var j :| 0 <= j < |r| && r[j] == x;
      if j != k { assert rows[j] == x; }
    }
  }

  /** The insert case of a save: a row with the key is appended. */
  lemma SavedAppended(cat: Catalog, rows: seq<Booking>, nextId: int, b: Booking)
    requires BookingsValid(cat, rows, nextId) && HasVariant(cat, b) && b.id < nextId
    requires forall j :: 0 <= j < |rows| ==> rows[j].id != b.id
    ensures var r := rows + [Saved(cat, b)];
      BookingsValid(cat, r, nextId)
      && Saved(cat, b) in r
      && (forall x :: x in r && x.id == b.id ==> x == Saved(cat, b))
      && (forall x :: x in rows && x.id != b.id ==> x in r)
      && (forall x :: x in r ==> x in rows || x == Saved(cat, b))
  {
    var r := rows + [Saved(cat, b)];
    assert r[|rows|] == Saved(cat, b);
    forall x | x in r && x.id == b.id ensures x == Saved(cat, b) {
      var j :| 0 <= j < |r| && r[j] == x;
      if j < |rows| { assert rows[j] == x; }
    }
  }

  /** A save keeps every row's series link when the saved row's series exists. */
  lemma WithSavedLinked(cat: Catalog, rows: seq<Booking>, series: map<Id, BookingSeries>, b: Booking)
    requires SeriesLinked(rows, series) && HasVariant(cat, b) && SeriesKnown(b, series)
    ensures SeriesLinked(WithSaved(cat, rows, b), series)
  {
    var r := WithSaved(cat, rows, b);
    forall x | x in r ensures SeriesKnown(x, series) {
      var j :| 0 <= j < |r| && r[j] == x;
      if j < |rows| && r[j] == rows[j] {
        assert rows[j] in rows;
      }
    }
  }

  /** Saving a row whose key was allocated and whose series exists keeps
      the tables valid. */
  lemma SaveKeepsTables(cat: Catalog, bookings: seq<Booking>, series: map<Id, BookingSeries>,
                        archive: seq<DeletedBooking>, nextId: int, nextSeriesId: int, b: Booking)
    requires TablesValid(cat, bookings, series, archive, nextId, nextSeriesId)
    requires HasVariant(cat, b) && b.id < nextId && SeriesKnown(b, series)
    ensures TablesValid(cat, WithSaved(cat, bookings, b), series, archive, nextId, nextSeriesId)
  {
    WithSavedFacts(cat, bookings, nextId, b);
    WithSavedLinked(cat, bookings, series, b);
  }

  /** `Booking.save()`. */
  method SaveBooking(st: Store, b: Booking)
    requires HasVariant(st.catalog, b)
    modifies st`bookings
    ensures st.bookings == WithSaved(st.catalog, old(st.bookings), b)
    ensures old(st.Valid()) && b.id < st.nextBookingId && SeriesKnown(b, st.series) ==> st.Valid()
  {
    if st.Valid() && b.id < st.nextBookingId && SeriesKnown(b, st.series) {
      SaveKeepsTables(st.catalog, st.bookings, st.series, st.archive, st.nextBookingId, st.nextSeriesId, b);
    }
    var k := IndexOfBooking(st.bookings, b.id);
    if k.Some? {
      st.bookings := st.bookings[k.value := Saved(st.catalog, b)];
    } else {
      st.bookings := st.bookings + [Saved(st.catalog, b)];
    }
  }

  /** `Booking.objects.create(...)`: a fresh key is allocated, the end time is
      derived and the row is appended. */
  method CreateBooking(st: Store, b: Booking) returns (created: Booking)
    requires HasVariant(st.catalog, b)
    modifies st`bookings, st`nextBookingId
    ensures created == Saved(st.catalog, b.(id := old(st.nextBookingId)))
    ensures st.bookings == old(st.bookings) + [created]
    ensures st.nextBookingId == old(st.nextBookingId) + 1
    ensures old(st.Valid()) && SeriesKnown(b, st.series) ==> st.Valid()
  {
    if st.Valid() && SeriesKnown(b, st.series) {
      CreateKeepsTables(st.catalog, st.bookings, st.series, st.archive, st.nextBookingId, st.nextSeriesId, b);
    }
    created := Saved(st.catalog, b.(id := st.nextBookingId));
    st.bookings := st.bookings + [created];
    st.nextBookingId := st.nextBookingId + 1;
  }

  lemma CreatePreservesValid(cat: Catalog, rows: seq<Booking>, nextId: Id, b: Booking)
    requires BookingsValid(cat, rows, nextId)
    requires HasVariant(cat, b)
    ensures BookingsValid(cat, rows + [Saved(cat, b.(id := nextId))], nextId + 1)
  {
  }

  /** Creating a row whose series exists keeps the tables valid. */
  lemma CreateKeepsTables(cat: Catalog, bookings: seq<Booking>, series: map<Id, BookingSeries>,
                          archive: seq<DeletedBooking>, nextId: Id, nextSeriesId: int, b: Booking)
    requires TablesValid(cat, bookings, series, archive, nextId, nextSeriesId)
    requires HasVariant(cat, b) && SeriesKnown(b, series)
    ensures TablesValid(cat, bookings + [Saved(cat, b.(id := nextId))], series, archive, nextId + 1, nextSeriesId)
  {
    CreatePreservesValid(cat, bookings, nextId, b);
  }

  // ------------------------------------------------------ schedule templates

  /** Index of the schedule of `spec` on `day`, if there is one. */
  function IndexOfSchedule(rows: seq<Schedule>, spec: Id, day: int): (r: Option<nat>)
    ensures r.Some? ==> r.value < |rows| && rows[r.value].specialist == spec && rows[r.value].dayOfWeek == day
    ensures r.None? ==> forall j :: 0 <= j < |rows| ==> rows[j].specialist != spec || rows[j].dayOfWeek != day
  {
    if rows == [] then None
    else if rows[0].specialist == spec && rows[0].dayOfWeek == day then Some(0)
    else match IndexOfSchedule(rows[1..], spec, day)
      case None => None
      case Some(k) => Some(k + 1)
  }

  /** `SpecialistSchedule.objects.update_or_create(specialist, day_of_week, defaults=...)`. */
  function UpsertSchedule(rows: seq<Schedule>, spec: Id, td: TemplateDay): seq<Schedule>
  {
    var row := Schedule(spec, td.dayOfWeek, td.startTime, td.endTime);
    match IndexOfSchedule(rows, spec, td.dayOfWeek)
    case Some(k) => rows[k := row]
    case None => rows + [row]
  }

  /** The schedule table after applying the template days in order. */
  function ApplyTemplate(rows: seq<Schedule>, spec: Id, days: seq<TemplateDay>): seq<Schedule>
    decreases |days|
  {
    if days == [] then rows
    else UpsertSchedule(ApplyTemplate(rows, spec, days[..|days| - 1]), spec, days[|days| - 1])
  }

  predicate IsScheduleOf(s: Schedule, spec: Id, td: TemplateDay) {
    s == Schedule(spec, td.dayOfWeek, td.startTime, td.endTime)
  }

  lemma UpsertScheduleFacts(rows: seq<Schedule>, spec: Id, td: TemplateDay)
    requires SchedulesValid(rows) && 0 <= td.dayOfWeek <= 6
    ensures var r := UpsertSchedule(rows, spec, td);
      SchedulesValid(r)
      && (forall j :: 0 <= j < |r| && r[j].specialist == spec && r[j].dayOfWeek == td.dayOfWeek ==> IsScheduleOf(r[j], spec, td))
      && (exists j :: 0 <= j < |r| && IsScheduleOf(r[j], spec, td))
      && (forall s :: s in rows && (s.specialist != spec || s.dayOfWeek != td.dayOfWeek) ==> s in r)
      && (forall s :: s in r ==> s in rows || IsScheduleOf(s, spec, td))
  {
    var r := UpsertSchedule(rows, spec, td);
    match IndexOfSchedule(rows, spec, td.dayOfWeek)
    case Some(k) =>
      assert IsScheduleOf(r[k], spec, td);
      forall s | s in rows && (s.specialist != spec || s.dayOfWeek != td.dayOfWeek) ensures s in r {
        var j :| 0 <= j < |rows| && rows[j] == s;
        assert r[j] == s;
      }
    case None =>
      assert IsScheduleOf(r[|rows|], spec, td);
  }

  /** Every template day has a schedule row of `spec` copied from it. */
  ghost predicate HasAllDays(r: seq<Schedule>, spec: Id, days: seq<TemplateDay>) {
    forall i :: 0 <= i < |days| ==> exists j :: 0 <= j < |r| && IsScheduleOf(r[j], spec, days[i])
  }

  /** A row of `spec` on a template day's weekday is that template day. */
  ghost predicate OnlyTemplate(r: seq<Schedule>, spec: Id, days: seq<TemplateDay>) {
    forall i, j :: 0 <= i < |days| && 0 <= j < |r| && r[j].specialist == spec && r[j].dayOfWeek == days[i].dayOfWeek
      ==> IsScheduleOf(r[j], spec, days[i])
  }

  /** Rows of other specialists or other weekdays stay. */
  ghost predicate KeepsOthers(rows: seq<Schedule>, r: seq<Schedule>, spec: Id, days: seq<TemplateDay>) {
    forall s :: s in rows && (s.specialist != spec || forall i :: 0 <= i < |days| ==> days[i].dayOfWeek != s.dayOfWeek) ==> s in r
  }

  /** Every row was there before or comes from a template day. */
  ghost predicate NoStrangers(rows: seq<Schedule>, r: seq<Schedule>, spec: Id, days: seq<TemplateDay>) {
    forall s :: s in r ==> s in rows || exists i :: 0 <= i < |days| && IsScheduleOf(s, spec, days[i])
  }

  /** After `apply_to_specialist` every template day is the specialist's
      schedule for that weekday, exactly once; schedules of other specialists
      and other weekdays are untouched; no other row appears; the table stays
      unique per (specialist, day). */
  lemma {:induction false} ApplyTemplateFacts(rows: seq<Schedule>, spec: Id, days: seq<TemplateDay>)
    requires SchedulesValid(rows) && TemplateDaysValid(days)
    ensures var r := ApplyTemplate(rows, spec, days);
      SchedulesValid(r) && HasAllDays(r, spec, days) && OnlyTemplate(r, spec, days)
      && KeepsOthers(rows, r, spec, days) && NoStrangers(rows, r, spec, days)
    decreases |days|
  {
    if days != [] {
      var init := days[..|days| - 1];
      var last := days[|days| - 1];
      assert days == init + [last];
      assert TemplateDaysValid(init);
      ApplyTemplateFacts(rows, spec, init);
      var p := ApplyTemplate(rows, spec, init);
      assert 0 <= last.dayOfWeek <= 6;
      UpsertScheduleFacts(p, spec, last);
      StepHasAllDays(p, spec, init, last);
      StepOnlyTemplate(p, spec, init, last);
      StepKeepsOthers(rows, p, spec, init, last);
      StepNoStrangers(rows, p, spec, init, last);
    }
  }

  lemma StepHasAllDays(p: seq<Schedule>, spec: Id, init: seq<TemplateDay>, last: TemplateDay)
    requires SchedulesValid(p) && TemplateDaysValid(init + [last])
    requires HasAllDays(p, spec, init)
    ensures HasAllDays(UpsertSchedule(p, spec, last), spec, init + [last])
  {
    var days := init + [last];
    var r := UpsertSchedule(p, spec, last);
    assert days[|init|] == last;
    UpsertScheduleFacts(p, spec, last);
    forall i | 0 <= i < |days| ensures exists j :: 0 <= j < |r| && IsScheduleOf(r[j], spec, days[i]) {
      if i < |init| {
        assert days[i] == init[i];
        var j :| 0 <= j < |p| && IsScheduleOf(p[j], spec, init[i]);
        assert days[i].dayOfWeek != days[|init|].dayOfWeek;
        assert p[j] in r;
        var j' :| 0 <= j' < |r| && r[j'] == p[j];
      }
    }
  }

  lemma StepOnlyTemplate(p: seq<Schedule>, spec: Id, init: seq<TemplateDay>, last: TemplateDay)
    requires SchedulesValid(p) && TemplateDaysValid(init + [last])
    requires OnlyTemplate(p, spec, init) && HasAllDays(p, spec, init)
    ensures OnlyTemplate(UpsertSchedule(p, spec, last), spec, init + [last])
  {
    var days := init + [last];
    var r := UpsertSchedule(p, spec, last);
    assert days[|init|] == last;
    UpsertScheduleFacts(p, spec, last);
    forall i, j | 0 <= i < |days| && 0 <= j < |r| && r[j].specialist == spec && r[j].dayOfWeek == days[i].dayOfWeek
      ensures IsScheduleOf(r[j], spec, days[i])
    {
      if i < |init| {
        assert days[i] == init[i];
        assert days[i].dayOfWeek != days[|init|].dayOfWeek;
        assert r[j] in r;
        var j' :| 0 <= j' < |p| && p[j'] == r[j];
      }
    }
  }

  lemma StepKeepsOthers(rows: seq<Schedule>, p: seq<Schedule>, spec: Id, init: seq<TemplateDay>, last: TemplateDay)
    requires SchedulesValid(p) && 0 <= last.dayOfWeek <= 6
    requires KeepsOthers(rows, p, spec, init)
    ensures KeepsOthers(rows, UpsertSchedule(p, spec, last), spec, init + [last])
  {
    var days := init + [last];
    UpsertScheduleFacts(p, spec, last);
    forall s | s in rows && (s.specialist != spec || forall i :: 0 <= i < |days| ==> days[i].dayOfWeek != s.dayOfWeek)
      ensures s in UpsertSchedule(p, spec, last)
    {
      assert s.specialist != spec || forall i :: 0 <= i < |init| ==> init[i].dayOfWeek != s.dayOfWeek by {
        assert forall i :: 0 <= i < |init| ==> init[i] == days[i];
      }
      assert s.specialist != spec || last.dayOfWeek != s.dayOfWeek by {
        assert days[|init|] == last;
      }
    }
  }

  lemma StepNoStrangers(rows: seq<Schedule>, p: seq<Schedule>, spec: Id, init: seq<TemplateDay>, last: TemplateDay)
    requires SchedulesValid(p) && 0 <= last.dayOfWeek <= 6
    requires NoStrangers(rows, p, spec, init)
    ensures NoStrangers(rows, UpsertSchedule(p, spec, last), spec, init + [last])
  {
    var days := init + [last];
    UpsertScheduleFacts(p, spec, last);
    forall s | s in UpsertSchedule(p, spec, last) ensures s in rows || exists i :: 0 <= i < |days| && IsScheduleOf(s, spec, days[i]) {
      if s in p && s !in rows {
        var i :| 0 <= i < |init| && IsScheduleOf(s, spec, init[i]);
        assert days[i] == init[i];
      } else if s !in p {
        assert days[|init|] == last;
      }
    }
  }

  /** `ScheduleTemplate.apply_to_specialist`: one update-or-create per template
      day (in day order); returns the number of template days. */
  method ApplyToSpecialist(st: Store, spec: Id, days: seq<TemplateDay>) returns (count: nat)
    requires TemplateDaysValid(days)
    modifies st`schedules
    ensures st.schedules == ApplyTemplate(old(st.schedules), spec, days)
    ensures count == |days|
    ensures old(st.Valid()) ==> st.Valid()
  {
    if st.Valid() {
      ApplyTemplateFacts(st.schedules, spec, days);
    }
    var schedules := st.schedules;
    var i := 0;
    while i < |days|
      invariant 0 <= i <= |days|
      invariant schedules == ApplyTemplate(old(st.schedules), spec, days[..i])
    {
      assert days[..i + 1][..i] == days[..i];
      schedules := UpsertSchedule(schedules, spec, days[i]);
      i := i + 1;
    }
    assert days[..|days|] == days;
    st.schedules := schedules;
    count := |days|;
  }
}
