/** Restoring deleted bookings from the archive: the checks made before a
    restore, the restore of one archived booking (a one-way `restored` flag)
    and the restore of every unrestored archived member of a series. */
module Restore {
  import opened Common
  import opened Models
  import opened Text
  import opened Sorting
  import opened Conflicts

  // ------------------------------------------------------------ the check

  const VariantGone: string := "Услуга больше не существует"
  const SpecialistGone: string := "Специалист больше не существует"
  const CabinetGone: string := "Кабинет больше не существует"
  const StartMissing: string := "Не указано время начала"

  /** Outcome of `check_restore_conflicts`: `NoConflict` is its `None`, the
      others are its `{'error': …}`, `{'series_conflicts': …}` and flag
      dictionaries. */
  datatype RestoreCheck =
    | NoConflict
    | CheckError(message: string)
    | SeriesConflicts(issues: seq<Issue>)
    | FlagConflicts(conflicts: Conflicts)

  predicate VariantExists(cat: Catalog, data: BookingSnapshot) {
    data.serviceVariantId.Some? && FindVariant(cat.variants, data.serviceVariantId.value).Some?
  }

  predicate SpecialistExists(cat: Catalog, data: BookingSnapshot) {
    data.specialistId.Some? && FindSpecialist(cat.specialists, data.specialistId.value).Some?
  }

  predicate CabinetExists(cat: Catalog, data: BookingSnapshot) {
    data.cabinetId.Some? && FindCabinet(cat.cabinets, data.cabinetId.value).Some?
  }

  /** The archived references all resolve and a start time is recorded. */
  predicate Restorable(cat: Catalog, data: BookingSnapshot) {
    VariantExists(cat, data) && SpecialistExists(cat, data) && CabinetExists(cat, data) && data.startTime.Some?
  }

  function VariantOf(cat: Catalog, data: BookingSnapshot): ServiceVariant
    requires VariantExists(cat, data)
  {
    FindVariant(cat.variants, data.serviceVariantId.value).value
  }

  function SpecialistOf(cat: Catalog, data: BookingSnapshot): Specialist
    requires SpecialistExists(cat, data)
  {
    FindSpecialist(cat.specialists, data.specialistId.value).value
  }

  function CabinetOf(cat: Catalog, data: BookingSnapshot): Cabinet
    requires CabinetExists(cat, data)
  {
    FindCabinet(cat.cabinets, data.cabinetId.value).value
  }

  /** The conflict check of the archived booking itself; nothing is excluded. */
  function SingleConflicts(cat: Catalog, schedules: seq<Schedule>, rows: seq<Booking>, data: BookingSnapshot): Option<Conflicts>
    requires Restorable(cat, data)
  {
    CheckBookingConflicts(cat, schedules, rows, data.startTime.value, VariantOf(cat, data),
                          SpecialistOf(cat, data).id, CabinetOf(cat, data), None)
  }

  /** The unsaved series the check builds to expand the archived rule from
      the archived start. */
  function ProbeSeries(start: int, s: SeriesSnapshot): BookingSeries {
    BookingSeries(start, s.frequency, s.interval, s.endDate, s.occurrenceCount, s.weekdays, s.excludedDates, None)
  }

  /** The occurrences of the archived rule, as `generate` expands it. */
  function ProbeOccurrences(data: BookingSnapshot, s: SeriesSnapshot, generate: BookingSeries -> seq<int>): seq<int>
    requires data.startTime.Some?
  {
    generate(ProbeSeries(data.startTime.value, s))
  }

  /** The conflicting occurrences of the archived rule, none excluded. */
  function SeriesIssues(cat: Catalog, schedules: seq<Schedule>, rows: seq<Booking>, data: BookingSnapshot,
                        s: SeriesSnapshot, generate: BookingSeries -> seq<int>): seq<Issue>
    requires Restorable(cat, data)
  {
    var occurrences := ProbeOccurrences(data, s, generate);
    IssuesUpTo(ConflictCheck(cat, schedules, rows, VariantOf(cat, data), SpecialistOf(cat, data).id, CabinetOf(cat, data)),
               occurrences, [], |occurrences|)
  }

  /** `check_restore_conflicts`: the service variant, the specialist and the
      cabinet must still exist and a start must be recorded, checked in that
      order; then the booking's own conflicts are reported before the
      occurrences of the archived rule are looked at. */
  function CheckRestoreConflicts(cat: Catalog, schedules: seq<Schedule>, rows: seq<Booking>, data: BookingSnapshot,
                                 seriesData: Option<SeriesSnapshot>, generate: BookingSeries -> seq<int>): (r: RestoreCheck)
    ensures !VariantExists(cat, data) ==> r == CheckError(VariantGone)
    ensures VariantExists(cat, data) && !SpecialistExists(cat, data) ==> r == CheckError(SpecialistGone)
    ensures VariantExists(cat, data) && SpecialistExists(cat, data) && !CabinetExists(cat, data) ==>
      r == CheckError(CabinetGone)
    ensures VariantExists(cat, data) && SpecialistExists(cat, data) && CabinetExists(cat, data) && data.startTime.None? ==>
      r == CheckError(StartMissing)
    ensures !r.CheckError? <==> Restorable(cat, data)
    ensures r.FlagConflicts? <==> Restorable(cat, data) && SingleConflicts(cat, schedules, rows, data).Some?
    ensures r.FlagConflicts? ==> SingleConflicts(cat, schedules, rows, data) == Some(r.conflicts) && r.conflicts.Any()
    ensures r.SeriesConflicts? ==>
      Restorable(cat, data) && SingleConflicts(cat, schedules, rows, data).None? && seriesData.Some?
      && r.issues != [] && r.issues == SeriesIssues(cat, schedules, rows, data, seriesData.value, generate)
    ensures r.NoConflict? <==>
      Restorable(cat, data) && SingleConflicts(cat, schedules, rows, data).None?
      && (seriesData.None? || SeriesIssues(cat, schedules, rows, data, seriesData.value, generate) == [])
  {
    if !VariantExists(cat, data) then CheckError(VariantGone)
    else if !SpecialistExists(cat, data) then CheckError(SpecialistGone)
    else if !CabinetExists(cat, data) then CheckError(CabinetGone)
    else if data.startTime.None? then CheckError(StartMissing)
    else match SingleConflicts(cat, schedules, rows, data)
      case Some(c) => FlagConflicts(c)
      case None =>
        if seriesData.None? then NoConflict
        else
          var issues := SeriesIssues(cat, schedules, rows, data, seriesData.value, generate);
          if issues == [] then NoConflict else SeriesConflicts(issues)
  }

  /** Every reported series conflict is a genuine conflict of an occurrence
      of the archived rule, reported at its 1-based position, in order. */
  lemma SeriesConflictsSound(cat: Catalog, schedules: seq<Schedule>, rows: seq<Booking>, data: BookingSnapshot,
                             seriesData: Option<SeriesSnapshot>, generate: BookingSeries -> seq<int>)
    ensures var r := CheckRestoreConflicts(cat, schedules, rows, data, seriesData, generate);
      r.SeriesConflicts? ==>
        var occurrences := ProbeOccurrences(data, seriesData.value, generate);
        forall k :: 0 <= k < |r.issues| ==>
          1 <= r.issues[k].index <= |occurrences|
          && r.issues[k].start == occurrences[r.issues[k].index - 1]
          && CheckBookingConflicts(cat, schedules, rows, r.issues[k].start, VariantOf(cat, data),
                                   SpecialistOf(cat, data).id, CabinetOf(cat, data), None) == Some(r.issues[k].conflicts)
  {
    var r := CheckRestoreConflicts(cat, schedules, rows, data, seriesData, generate);
    if r.SeriesConflicts? {
      var occurrences := ProbeOccurrences(data, seriesData.value, generate);
      var check := ConflictCheck(cat, schedules, rows, VariantOf(cat, data), SpecialistOf(cat, data).id, CabinetOf(cat, data));
      IssuesSound(check, occurrences, [], |occurrences|);
      forall k | 0 <= k < |r.issues| ensures ExcludeFor([], r.issues[k].index) == None {
      }
    }
  }

  /** A clear check means what it says: no confirmed booking of the
      specialist or in the cabinet overlaps the archived span, the span is
      within the specialist's hours, the cabinet is active, and no occurrence
      of the archived rule has a conflict. */
  lemma {:induction false} NoConflictMeaning(cat: Catalog, schedules: seq<Schedule>, rows: seq<Booking>, data: BookingSnapshot,
                                             seriesData: Option<SeriesSnapshot>, generate: BookingSeries -> seq<int>)
    requires CheckRestoreConflicts(cat, schedules, rows, data, seriesData, generate).NoConflict?
    ensures Restorable(cat, data)
    ensures var start := data.startTime.value;
      var end := start + VariantOf(cat, data).durationMinutes + cat.bufferTimeMinutes;
      && !OutsideHours(schedules, SpecialistOf(cat, data).id, start, end)
      && CabinetOf(cat, data).isActive
      && (forall i :: 0 <= i < |rows| && Blocks(rows[i], start, end, None) ==>
            rows[i].specialist != SpecialistOf(cat, data).id && rows[i].cabinet != CabinetOf(cat, data).id)
    ensures seriesData.Some? ==>
      var occurrences := ProbeOccurrences(data, seriesData.value, generate);
      forall i :: 0 <= i < |occurrences| ==>
        CheckBookingConflicts(cat, schedules, rows, occurrences[i], VariantOf(cat, data),
                              SpecialistOf(cat, data).id, CabinetOf(cat, data), None).None?
  {
    CheckBookingConflictsMeaning(cat, schedules, rows, data.startTime.value, VariantOf(cat, data),
                                 SpecialistOf(cat, data).id, CabinetOf(cat, data), None);
    if seriesData.Some? {
      var occurrences := ProbeOccurrences(data, seriesData.value, generate);
      var check := ConflictCheck(cat, schedules, rows, VariantOf(cat, data), SpecialistOf(cat, data).id, CabinetOf(cat, data));
      IssuesComplete(check, occurrences, [], |occurrences|);
      forall i | 0 <= i < |occurrences|
        ensures CheckBookingConflicts(cat, schedules, rows, occurrences[i], VariantOf(cat, data),
                                      SpecialistOf(cat, data).id, CabinetOf(cat, data), None).None?
      {
        assert ExcludeFor([], i + 1) == None;
      }
    }
  }

  // -------------------------------------------------- restoring one booking

  const NotFoundMessage: string := "Запись об удаленном бронировании не найдена"
  const AlreadyRestoredMessage: string := "Бронирование уже было восстановлено ранее"
  const NoDataMessage: string := "Данные бронирования отсутствуют"
  const SeriesConflictMessage: string := "Обнаружены конфликты при восстановлении серии"
  const ConflictsPrefix: string := "Конфликты: "
  const RestoredMessage: string := "Бронирование успешно восстановлено"
  /** The failure text when the archived data has no guest name: the
      `KeyError('guest_name')` caught by the catch-all handler. */
  const MissingGuestNameMessage: string := "Ошибка при восстановлении: 'guest_name'"

  /** The message `restore_booking` returns for a check that found something. */
  function FailureMessage(c: RestoreCheck): string
    requires !c.NoConflict?
  {
    match c
    case CheckError(m) => m
    case SeriesConflicts(_) => SeriesConflictMessage
    case FlagConflicts(flags) => ConflictsPrefix + FormatConflictMessage(flags)
  }

  /** Index of the archive row with primary key `id`, if any. */
  function IndexOfArchive(rows: seq<DeletedBooking>, id: int): (r: Option<nat>)
    ensures r.Some? ==> r.value < |rows| && rows[r.value].id == id
    ensures r.None? ==> forall j :: 0 <= j < |rows| ==> rows[j].id != id
  {
    if rows == [] then None
    else if rows[0].id == id then Some(0)
    else match IndexOfArchive(rows[1..], id)
      case None => None
      case Some(k) => Some(k + 1)
  }

  predicate DistinctArchiveIds(rows: seq<DeletedBooking>) {
    forall i, j :: 0 <= i < j < |rows| ==> rows[i].id != rows[j].id
  }

  /** With distinct keys, looking up a row's own key finds that row. */
  lemma ArchiveLookup(rows: seq<DeletedBooking>, d: DeletedBooking)
    requires DistinctArchiveIds(rows) && d in rows
    ensures IndexOfArchive(rows, d.id).Some? && rows[IndexOfArchive(rows, d.id).value] == d
  {
    var j :| 0 <= j < |rows| && rows[j] == d;
    var k := IndexOfArchive(rows, d.id).value;
    assert rows[k].id == rows[j].id;
  }

  /** Two archives with the same keys and series ids at every position. */
  predicate SameArchiveKeys(a: seq<DeletedBooking>, b: seq<DeletedBooking>) {
    |a| == |b| && forall j :: 0 <= j < |a| ==> a[j].id == b[j].id && a[j].seriesId == b[j].seriesId
  }

  /** Lookups by key only read the keys. */
  lemma {:induction false} IndexOfArchiveSameKeys(a: seq<DeletedBooking>, b: seq<DeletedBooking>, id: int)
    requires SameArchiveKeys(a, b)
    ensures IndexOfArchive(a, id) == IndexOfArchive(b, id)
    decreases |a|
  {
    if a != [] {
      IndexOfArchiveSameKeys(a[1..], b[1..], id);
    }
  }

  /** The archive row after a successful restore. */
  function MarkedRestored(d: DeletedBooking, now: int, restorer: Option<Id>): (r: DeletedBooking)
    ensures r.restored && r.restoredAt == Some(now) && r.restoredBy == restorer
    ensures r.(restored := d.restored, restoredAt := d.restoredAt, restoredBy := d.restoredBy) == d
  {
    d.(restored := true, restoredAt := Some(now), restoredBy := restorer)
  }

  /** The series table after `get_or_create(id=sid, defaults=…)`: a missing
      series is created from the archived rule with no end date, no excluded
      dates and the restoring user as author; an existing one is updated in
      place, keeping its author and, when the archive lists none, its
      excluded dates. */
  function SeriesAfterRestore(series: map<Id, BookingSeries>, sid: Id, start: int, s: SeriesSnapshot, restorer: Option<Id>)
    : (r: map<Id, BookingSeries>)
    ensures r.Keys == series.Keys + {sid}
    ensures forall k :: k in series && k != sid ==> r[k] == series[k]
    ensures r[sid].startTime == start && r[sid].frequency == s.frequency && r[sid].interval == s.interval
    ensures r[sid].occurrenceCount == s.occurrenceCount && r[sid].weekdays == s.weekdays
    ensures sid !in series ==> r[sid].endDate.None? && r[sid].excludedDates == [] && r[sid].createdBy == restorer
    ensures sid in series ==>
      r[sid].endDate == s.endDate && r[sid].createdBy == series[sid].createdBy
      && r[sid].excludedDates == (if s.excludedDates == [] then series[sid].excludedDates else s.excludedDates)
  {
    if sid in series then
      var current := series[sid];
      var excluded := if s.excludedDates == [] then current.excludedDates else s.excludedDates;
      series[sid := BookingSeries(start, s.frequency, s.interval, s.endDate, s.occurrenceCount, s.weekdays, excluded, current.createdBy)]
    else
      series[sid := BookingSeries(start, s.frequency, s.interval, None, s.occurrenceCount, s.weekdays, [], restorer)]
  }

  /** Restoring several members of one series touches one series record:
      the key set grows by that one key at most. */
  lemma {:induction false} SeriesSharedByMembers(series: map<Id, BookingSeries>, sid: Id, starts: seq<int>,
                                                 s: SeriesSnapshot, restorer: Option<Id>)
    ensures Restoring(series, sid, starts, s, restorer).Keys == series.Keys + (if starts == [] then {} else {sid})
    decreases |starts|
  {
    if starts != [] {
      SeriesSharedByMembers(series, sid, starts[..|starts| - 1], s, restorer);
    }
  }

  /** The series table after restoring members starting at `starts`, in order. */
  function Restoring(series: map<Id, BookingSeries>, sid: Id, starts: seq<int>, s: SeriesSnapshot, restorer: Option<Id>)
    : map<Id, BookingSeries>
    decreases |starts|
  {
    if starts == [] then series
    else SeriesAfterRestore(Restoring(series, sid, starts[..|starts| - 1], s, restorer), sid, starts[|starts| - 1], s, restorer)
  }

  /** The author of the restored booking: the archived author when that user
      still exists, otherwise the restoring user. */
  function CreatorOf(cat: Catalog, createdById: Option<int>, restorer: Option<Id>): (r: Option<Id>)
    ensures r == restorer || (r.Some? && r.value in cat.users && createdById == Some(r.value))
  {
    if createdById.Some? && createdById.value >= 1 && (createdById.value as Id) in cat.users then
      Some(createdById.value as Id)
    else restorer
  }

  /** The row handed to `Booking.objects.create`, with the archived end time
      or, when none is archived, start + duration + buffer. */
  function RestoredBooking(cat: Catalog, data: BookingSnapshot, series: Option<Id>, restorer: Option<Id>, id: Id): (r: Booking)
    requires Restorable(cat, data) && data.guestName.Some?
    ensures HasVariant(cat, r) && FindVariant(cat.variants, r.serviceVariant) == Some(VariantOf(cat, data))
    ensures r.serviceVariant == data.serviceVariantId.value && r.specialist == data.specialistId.value
    ensures r.cabinet == data.cabinetId.value && r.startTime == data.startTime.value
    ensures r.guestName == data.guestName.value && r.series == series && r.guest.None?
    ensures r.guestRoomNumber == (if data.guestRoomNumber.Some? then data.guestRoomNumber.value else "")
    ensures r.status == (if data.status.Some? then data.status.value else Confirmed)
    ensures r.sequence == (if data.sequence.Some? then data.sequence.value else 1)
    ensures r.createdBy == CreatorOf(cat, data.createdById, restorer)
  {
    var variant := VariantOf(cat, data);
    var start := data.startTime.value;
    var end := if data.endTime.Some? then data.endTime.value else start + TotalMinutes(cat, variant);
    Booking(
      id,
      data.guestName.value,
      if data.guestRoomNumber.Some? then data.guestRoomNumber.value else "",
      None,
      variant.id,
      SpecialistOf(cat, data).id,
      CabinetOf(cat, data).id,
      start,
      end,
      CreatorOf(cat, data.createdById, restorer),
      if data.status.Some? then data.status.value else Confirmed,
      series,
      if data.sequence.Some? then data.sequence.value else 1)
  }

  /** The archived end time never reaches the table: the stored row ends at
      start + duration + buffer, whatever end the archive holds. */
  lemma RestoredEndIgnored(cat: Catalog, data: BookingSnapshot, series: Option<Id>, restorer: Option<Id>, id: Id, e: Option<int>)
    requires Restorable(cat, data) && data.guestName.Some?
    ensures Saved(cat, RestoredBooking(cat, data.(endTime := e), series, restorer, id))
         == Saved(cat, RestoredBooking(cat, data, series, restorer, id))
    ensures Saved(cat, RestoredBooking(cat, data, series, restorer, id)).endTime
         == data.startTime.value + VariantOf(cat, data).durationMinutes + cat.bufferTimeMinutes
  {
    var a := RestoredBooking(cat, data.(endTime := e), series, restorer, id);
    var b := RestoredBooking(cat, data, series, restorer, id);
    assert a == b.(endTime := a.endTime);
    SavedIgnoresEnd(cat, b, a.endTime);
  }

  /** The tables a restore may write. */
  function Tables(st: Store): (seq<Booking>, map<Id, BookingSeries>, seq<DeletedBooking>, Id)
    reads st
  {
    (st.bookings, st.series, st.archive, st.nextBookingId)
  }

  /** The series a restored row joins: the archived series id, when both the
      rule and the id were archived. */
  function JoinedSeries(d: DeletedBooking): (r: Option<Id>)
    ensures r.Some? <==> d.seriesData.Some? && d.seriesId.Some?
    ensures r.Some? ==> d.seriesId == r
  {
    if d.seriesData.Some? && d.seriesId.Some? then d.seriesId else None
  }

  /** What `restore_booking` returns, together with the tables it leaves. */
  datatype Restoration = Restoration(
    success: bool,
    booking: Option<Booking>,
    message: string,
    bookings: seq<Booking>,
    series: map<Id, BookingSeries>,
    archive: seq<DeletedBooking>,
    nextBookingId: Id)

  /** The series a restore of archive row `k` leaves (`k` out of range: none is touched). */
  function SeriesAfter(series: map<Id, BookingSeries>, archive: seq<DeletedBooking>, k: Option<nat>): set<Id> {
    if k.Some? && k.value < |archive| && JoinedSeries(archive[k.value]).Some? then {JoinedSeries(archive[k.value]).value} else {}
  }

  /** The writes of a restore that passed every check, for archive row `k`:
      the series is fetched or created by its archived id, then one booking
      is created with its end derived by `Booking.save` and the record is
      marked restored, by whom and when. A snapshot without a guest name
      fails after the series write, as the source's caught `KeyError` does. */
  function ApplyRestore(cat: Catalog, bookings: seq<Booking>, series: map<Id, BookingSeries>,
                        archive: seq<DeletedBooking>, nextId: Id, k: nat, restorer: Option<Id>, now: int): (r: Restoration)
    requires k < |archive| && archive[k].bookingData.Some? && Restorable(cat, archive[k].bookingData.value)
    ensures r.success <==> r.booking.Some?
    ensures r.success ==> r.bookings == bookings + [r.booking.value] && r.nextBookingId == nextId + 1
    ensures !r.success ==> r.bookings == bookings && r.nextBookingId == nextId && r.archive == archive
    ensures r.success ==> r.archive == archive[k := MarkedRestored(archive[k], now, restorer)]
    ensures SameArchiveKeys(r.archive, archive)
    ensures r.series.Keys <= series.Keys + SeriesAfter(series, archive, Some(k))
    ensures series.Keys <= r.series.Keys
    ensures r.success ==> r.booking.value.series == JoinedSeries(archive[k]) && SeriesKnown(r.booking.value, r.series)
  {
    var row := archive[k];
    var data := row.bookingData.value;
    var sid := JoinedSeries(row);
    var joined := if sid.Some? then SeriesAfterRestore(series, sid.value, data.startTime.value, row.seriesData.value, restorer)
                  else series;
    if data.guestName.None? then
      Restoration(false, None, MissingGuestNameMessage, bookings, joined, archive, nextId)
    else
      var created := Saved(cat, RestoredBooking(cat, data, sid, restorer, nextId));
      Restoration(true, Some(created), RestoredMessage, bookings + [created], joined,
                  archive[k := MarkedRestored(row, now, restorer)], nextId + 1)
  }

  /** `restore_booking` on the tables `bookings`, `series`, `archive` with
      booking keys allocated from `nextId`: a missing record, a record
      already restored, an empty snapshot and any finding of the check fail
      with nothing written; otherwise `ApplyRestore`. */
  function PlanRestore(cat: Catalog, schedules: seq<Schedule>, bookings: seq<Booking>, series: map<Id, BookingSeries>,
                       archive: seq<DeletedBooking>, nextId: Id, id: Id, restorer: Option<Id>, now: int,
                       generate: BookingSeries -> seq<int>): (r: Restoration)
    ensures r.success <==> r.booking.Some?
    ensures r.success ==> r.bookings == bookings + [r.booking.value] && r.nextBookingId == nextId + 1
    ensures !r.success ==> r.bookings == bookings && r.nextBookingId == nextId && r.archive == archive
    ensures series.Keys <= r.series.Keys
    ensures r.success ==> SeriesKnown(r.booking.value, r.series)
  {
    match IndexOfArchive(archive, id)
    case None => Restoration(false, None, NotFoundMessage, bookings, series, archive, nextId)
    case Some(k) =>
      var row := archive[k];
      if row.restored then Restoration(false, None, AlreadyRestoredMessage, bookings, series, archive, nextId)
      else if row.bookingData.None? then Restoration(false, None, NoDataMessage, bookings, series, archive, nextId)
      else
        var check := CheckRestoreConflicts(cat, schedules, bookings, row.bookingData.value, row.seriesData, generate);
        if !check.NoConflict? then Restoration(false, None, FailureMessage(check), bookings, series, archive, nextId)
        else ApplyRestore(cat, bookings, series, archive, nextId, k, restorer, now)
  }

  /** A restore keeps the archive's keys and series ids and touches at most
      the series of the restored row. */
  lemma PlanRestoreFrame(cat: Catalog, schedules: seq<Schedule>, bookings: seq<Booking>, series: map<Id, BookingSeries>,
                         archive: seq<DeletedBooking>, nextId: Id, id: Id, restorer: Option<Id>, now: int,
                         generate: BookingSeries -> seq<int>)
    ensures var r := PlanRestore(cat, schedules, bookings, series, archive, nextId, id, restorer, now, generate);
      SameArchiveKeys(r.archive, archive)
      && r.series.Keys <= series.Keys + SeriesAfter(series, archive, IndexOfArchive(archive, id))
      && (r.success ==> r.booking.value.series.None?
                        || (IndexOfArchive(archive, id).Some? && r.booking.value.series == archive[IndexOfArchive(archive, id).value].seriesId))
  {
    match IndexOfArchive(archive, id)
    case None =>
    case Some(k) =>
      var row := archive[k];
      if !row.restored && row.bookingData.Some?
         && CheckRestoreConflicts(cat, schedules, bookings, row.bookingData.value, row.seriesData, generate).NoConflict? {
        assert PlanRestore(cat, schedules, bookings, series, archive, nextId, id, restorer, now, generate)
            == ApplyRestore(cat, bookings, series, archive, nextId, k, restorer, now);
      }
  }

  /** The refusals: a missing record, a record already restored and a
      check with a finding fail with every table as it was. */
  lemma PlanRestoreRefusals(cat: Catalog, schedules: seq<Schedule>, bookings: seq<Booking>, series: map<Id, BookingSeries>,
                            archive: seq<DeletedBooking>, nextId: Id, id: Id, restorer: Option<Id>, now: int,
                            generate: BookingSeries -> seq<int>)
    ensures var r := PlanRestore(cat, schedules, bookings, series, archive, nextId, id, restorer, now, generate);
      var k := IndexOfArchive(archive, id);
      && (k.None? ==> !r.success && r.message == NotFoundMessage && r.series == series && r.archive == archive)
      && (k.Some? && archive[k.value].restored ==>
            !r.success && r.message == AlreadyRestoredMessage && r.series == series && r.archive == archive)
      && (k.Some? && !archive[k.value].restored && archive[k.value].bookingData.Some?
          && !CheckRestoreConflicts(cat, schedules, bookings, archive[k.value].bookingData.value, archive[k.value].seriesData, generate).NoConflict? ==>
            !r.success && r.series == series && r.archive == archive
            && r.message == FailureMessage(CheckRestoreConflicts(cat, schedules, bookings, archive[k.value].bookingData.value,
                                                                 archive[k.value].seriesData, generate)))
  {
  }

  /** A successful restore passed every check, marks exactly its record
      restored, and creates a booking at the archived start whose end is
      derived from the variant and the buffer. */
  lemma PlanRestoreSuccess(cat: Catalog, schedules: seq<Schedule>, bookings: seq<Booking>, series: map<Id, BookingSeries>,
                           archive: seq<DeletedBooking>, nextId: Id, id: Id, restorer: Option<Id>, now: int,
                           generate: BookingSeries -> seq<int>)
    ensures var r := PlanRestore(cat, schedules, bookings, series, archive, nextId, id, restorer, now, generate);
      var k := IndexOfArchive(archive, id);
      r.success ==>
        k.Some? && !archive[k.value].restored && archive[k.value].bookingData.Some?
        && CheckRestoreConflicts(cat, schedules, bookings, archive[k.value].bookingData.value, archive[k.value].seriesData, generate).NoConflict?
        && r.message == RestoredMessage
        && r.archive == archive[k.value := MarkedRestored(archive[k.value], now, restorer)]
        && EndDerived(cat, r.booking.value) && r.booking.value.id == nextId
        && r.booking.value.series == JoinedSeries(archive[k.value])
        && r.booking.value.startTime == archive[k.value].bookingData.value.startTime.value
  {
  }

  /** A restore keeps the tables valid: distinct booking keys below the
      allocation counter, every end derived, every series link present, and
      a series recreated only under an id that was allocated before. */
  lemma PlanRestoreValid(cat: Catalog, schedules: seq<Schedule>, bookings: seq<Booking>, series: map<Id, BookingSeries>,
                         archive: seq<DeletedBooking>, nextId: Id, nextSeriesId: int, id: Id, restorer: Option<Id>, now: int,
                         generate: BookingSeries -> seq<int>)
    requires TablesValid(cat, bookings, series, archive, nextId, nextSeriesId)
    ensures var r := PlanRestore(cat, schedules, bookings, series, archive, nextId, id, restorer, now, generate);
      TablesValid(cat, r.bookings, r.series, r.archive, r.nextBookingId, nextSeriesId)
  {
    PlanRestoreRowsValid(cat, schedules, bookings, series, archive, nextId, id, restorer, now, generate);
    PlanRestoreKeysValid(cat, schedules, bookings, series, archive, nextId, nextSeriesId, id, restorer, now, generate);
  }

  /** The booking rows after a restore: valid, and linked to existing series. */
  lemma PlanRestoreRowsValid(cat: Catalog, schedules: seq<Schedule>, bookings: seq<Booking>, series: map<Id, BookingSeries>,
                             archive: seq<DeletedBooking>, nextId: Id, id: Id, restorer: Option<Id>, now: int,
                             generate: BookingSeries -> seq<int>)
    requires BookingsValid(cat, bookings, nextId) && SeriesLinked(bookings, series)
    ensures var r := PlanRestore(cat, schedules, bookings, series, archive, nextId, id, restorer, now, generate);
      BookingsValid(cat, r.bookings, r.nextBookingId) && SeriesLinked(r.bookings, r.series)
  {
    var r := PlanRestore(cat, schedules, bookings, series, archive, nextId, id, restorer, now, generate);
    LinkedWider(bookings, series, r.series);
    if r.success {
      PlanRestoreSuccess(cat, schedules, bookings, series, archive, nextId, id, restorer, now, generate);
      var b := r.booking.value;
      assert r.bookings == bookings + [b];
      assert BookingsValid(cat, r.bookings, r.nextBookingId) by {
        forall i, j | 0 <= i < j < |r.bookings| ensures r.bookings[i].id != r.bookings[j].id {
          if j == |bookings| { assert r.bookings[i] == bookings[i]; }
        }
      }
    }
  }

  /** The series keys and the archived series ids after a restore stay below
      the series counter. */
  lemma PlanRestoreKeysValid(cat: Catalog, schedules: seq<Schedule>, bookings: seq<Booking>, series: map<Id, BookingSeries>,
                             archive: seq<DeletedBooking>, nextId: Id, nextSeriesId: int, id: Id, restorer: Option<Id>, now: int,
                             generate: BookingSeries -> seq<int>)
    requires forall k :: k in series ==> k < nextSeriesId
    requires forall i :: 0 <= i < |archive| && archive[i].seriesId.Some? ==> archive[i].seriesId.value < nextSeriesId
    ensures var r := PlanRestore(cat, schedules, bookings, series, archive, nextId, id, restorer, now, generate);
      (forall k :: k in r.series ==> k < nextSeriesId)
      && (forall i :: 0 <= i < |r.archive| && r.archive[i].seriesId.Some? ==> r.archive[i].seriesId.value < nextSeriesId)
  {
    PlanRestoreFrame(cat, schedules, bookings, series, archive, nextId, id, restorer, now, generate);
    var k := IndexOfArchive(archive, id);
    if k.Some? && k.value < |archive| && JoinedSeries(archive[k.value]).Some? {
      assert archive[k.value].seriesId.value < nextSeriesId;
    }
  }

  /** The flag is one-way: once a restore succeeded, restoring the same
      record again fails with "already restored" and writes nothing. */
  lemma RestoreTwiceFails(cat: Catalog, schedules: seq<Schedule>, bookings: seq<Booking>, series: map<Id, BookingSeries>,
                          archive: seq<DeletedBooking>, nextId: Id, id: Id, restorer: Option<Id>, now: int,
                          generate: BookingSeries -> seq<int>, restorer2: Option<Id>, now2: int)
    requires PlanRestore(cat, schedules, bookings, series, archive, nextId, id, restorer, now, generate).success
    ensures var r := PlanRestore(cat, schedules, bookings, series, archive, nextId, id, restorer, now, generate);
      var again := PlanRestore(cat, schedules, r.bookings, r.series, r.archive, r.nextBookingId, id, restorer2, now2, generate);
      !again.success && again.message == AlreadyRestoredMessage
      && again.bookings == r.bookings && again.series == r.series && again.archive == r.archive
  {
    var r := PlanRestore(cat, schedules, bookings, series, archive, nextId, id, restorer, now, generate);
    IndexOfArchiveSameKeys(r.archive, archive, id);
    var k := IndexOfArchive(archive, id).value;
    assert r.archive[k].restored;
  }

  /** `restore_booking`: the steps of `PlanRestore`, carried out on the store. */
  method RestoreBooking(st: Store, id: Id, restorer: Option<Id>, now: int, generate: BookingSeries -> seq<int>)
    returns (success: bool, booking: Option<Booking>, message: string)
    modifies st`bookings, st`nextBookingId, st`series, st`archive
    ensures var p := PlanRestore(st.catalog, st.schedules, old(st.bookings), old(st.series), old(st.archive),
                                 old(st.nextBookingId), id, restorer, now, generate);
      success == p.success && booking == p.booking && message == p.message
      && Tables(st) == (p.bookings, p.series, p.archive, p.nextBookingId)
    ensures old(st.Valid()) ==> st.Valid()
  {
    if st.Valid() {
      PlanRestoreValid(st.catalog, st.schedules, st.bookings, st.series, st.archive, st.nextBookingId, st.nextSeriesId,
                       id, restorer, now, generate);
    }
    success, booking, message := RestoreSteps(st, id, restorer, now, generate);
  }

  /** The lookups, checks and writes of `restore_booking`, in its order. */
  method RestoreSteps(st: Store, id: Id, restorer: Option<Id>, now: int, generate: BookingSeries -> seq<int>)
    returns (success: bool, booking: Option<Booking>, message: string)
    modifies st`bookings, st`nextBookingId, st`series, st`archive
    ensures var p := PlanRestore(st.catalog, st.schedules, old(st.bookings), old(st.series), old(st.archive),
                                 old(st.nextBookingId), id, restorer, now, generate);
      success == p.success && booking == p.booking && message == p.message
      && Tables(st) == (p.bookings, p.series, p.archive, p.nextBookingId)
  {
    var k := IndexOfArchive(st.archive, id);
    if k.None? {
      return false, None, NotFoundMessage;
    }
    var row := st.archive[k.value];
    if row.restored {
      return false, None, AlreadyRestoredMessage;
    }
    if row.bookingData.None? {
      return false, None, NoDataMessage;
    }
    var data := row.bookingData.value;
    var check := CheckRestoreConflicts(st.catalog, st.schedules, st.bookings, data, row.seriesData, generate);
    if !check.NoConflict? {
      return false, None, FailureMessage(check);
    }
    success, booking, message := ApplyRestoreTo(st, k.value, restorer, now);
  }

  /** The writes of `ApplyRestore`, carried out on the store. */
  method ApplyRestoreTo(st: Store, k: nat, restorer: Option<Id>, now: int)
    returns (success: bool, booking: Option<Booking>, message: string)
    requires k < |st.archive| && st.archive[k].bookingData.Some? && Restorable(st.catalog, st.archive[k].bookingData.value)
    modifies st`bookings, st`nextBookingId, st`series, st`archive
    ensures var p := ApplyRestore(st.catalog, old(st.bookings), old(st.series), old(st.archive), old(st.nextBookingId), k, restorer, now);
      success == p.success && booking == p.booking && message == p.message
      && Tables(st) == (p.bookings, p.series, p.archive, p.nextBookingId)
  {
    var row := st.archive[k];
    var data := row.bookingData.value;
    var sid := JoinedSeries(row);
    if sid.Some? {
      st.series := SeriesAfterRestore(st.series, sid.value, data.startTime.value, row.seriesData.value, restorer);
    }
    if data.guestName.None? {
      return false, None, MissingGuestNameMessage;
    }
    var created := CreateBooking(st, RestoredBooking(st.catalog, data, sid, restorer, st.nextBookingId));
    st.archive := st.archive[k := MarkedRestored(row, now, restorer)];
    return true, Some(created), RestoredMessage;
  }

  // ------------------------------------------------------ restoring a series

  const NotSeriesMessage: string := "Это не серия бронирований"
  const NothingLeftMessage: string := "Нет невосстановленных бронирований в этой серии"

  /** `order_by('booking_data__sequence')`: archived sequence numbers
      ascending, rows without one last. */
  function SequenceKey(d: DeletedBooking): seq<int> {
    if d.bookingData.Some? && d.bookingData.value.sequence.Some? then [0, d.bookingData.value.sequence.value] else [1]
  }

  /** The unrestored archive rows of series `sid`, in table order. */
  function Pending(rows: seq<DeletedBooking>, sid: Id): (r: seq<DeletedBooking>)
    ensures forall d :: d in r <==> d in rows && d.seriesId == Some(sid) && !d.restored
  {
    if rows == [] then []
    else (if rows[0].seriesId == Some(sid) && !rows[0].restored then [rows[0]] else []) + Pending(rows[1..], sid)
  }

  /** The rows `restore_series` walks: every unrestored archived member of
      the series and nothing else, ordered by archived sequence number. */
  function SeriesTargets(rows: seq<DeletedBooking>, sid: Id): (r: seq<DeletedBooking>)
    ensures forall d :: d in r <==> d in rows && d.seriesId == Some(sid) && !d.restored
    ensures multiset(r) == multiset(Pending(rows, sid))
    ensures SortedBy(r, SequenceKey)
  {
    var r := SortBy(Pending(rows, sid), SequenceKey);
    SortBySorted(Pending(rows, sid), SequenceKey);
    SortByMembers(Pending(rows, sid), SequenceKey);
    r
  }

  /** One line of the error list: the original booking id and the failure. */
  function ErrorLine(originalId: Id, message: string): string {
    "Бронирование " + NatToString(originalId) + ": " + message
  }

  const CountPrefix: string := "Восстановлено "
  const AllRestoredSuffix: string := " бронирований серии"
  const ErrorCountInfix: string := ", ошибок: "

  /** The summary of a series restore where every member came back. */
  function AllRestoredMessage(count: nat): (r: string)
    ensures |r| > |CountPrefix| + |AllRestoredSuffix|
    ensures r[..|CountPrefix|] == CountPrefix && r[|r| - |AllRestoredSuffix|..] == AllRestoredSuffix
    ensures var digits := r[|CountPrefix|..|r| - |AllRestoredSuffix|]; AllDigits(digits) && ParseNat(digits) == count
  {
    var r := CountPrefix + NatToString(count) + AllRestoredSuffix;
    assert r[|CountPrefix|..|r| - |AllRestoredSuffix|] == NatToString(count);
    ParseNatToString(count);
    r
  }

  /** The head of the summary when some member failed: both counts. */
  function PartialHead(restoredCount: nat, errorCount: nat): string {
    CountPrefix + NatToString(restoredCount) + ErrorCountInfix + NatToString(errorCount) + ". "
  }

  /** `message` starts with the counts of restored and failed members. */
  predicate HasPartialHead(message: string, restoredCount: nat, errorCount: nat) {
    var head := PartialHead(restoredCount, errorCount);
    |message| >= |head| && message[..|head|] == head
  }

  /** The outcome `restore_series` reports after walking `total` members of
      which `restoredCount` came back. */
  predicate SummaryFits(success: bool, message: string, restoredCount: nat, total: nat) {
    restoredCount <= total
    && (success <==> restoredCount == total)
    && (success ==> message == AllRestoredMessage(restoredCount))
    && (!success ==> HasPartialHead(message, restoredCount, total - restoredCount))
  }

  /** The summary of a series restore with failures: the counts, then the
      first three error lines joined by "; ". */
  function PartialMessage(restoredCount: nat, errors: seq<string>): (r: string)
    ensures HasPartialHead(r, restoredCount, |errors|)
    ensures r[|PartialHead(restoredCount, |errors|)|..] == Join(errors[..if |errors| < 3 then |errors| else 3], "; ")
  {
    PartialHead(restoredCount, |errors|) + Join(errors[..if |errors| < 3 then |errors| else 3], "; ")
  }

  /** The record with key `id` exists and is marked restored. */
  predicate MarkedIn(archive: seq<DeletedBooking>, id: int) {
    IndexOfArchive(archive, id).Some? && archive[IndexOfArchive(archive, id).value].restored
  }

  /** No restore unmarks a record. */
  lemma PlanKeepsMarks(cat: Catalog, schedules: seq<Schedule>, bookings: seq<Booking>, series: map<Id, BookingSeries>,
                       archive: seq<DeletedBooking>, nextId: Id, id: Id, restorer: Option<Id>, now: int,
                       generate: BookingSeries -> seq<int>, other: int)
    requires MarkedIn(archive, other)
    ensures MarkedIn(PlanRestore(cat, schedules, bookings, series, archive, nextId, id, restorer, now, generate).archive, other)
  {
    var r := PlanRestore(cat, schedules, bookings, series, archive, nextId, id, restorer, now, generate);
    if r.success {
      PlanRestoreSuccess(cat, schedules, bookings, series, archive, nextId, id, restorer, now, generate);
      var k := IndexOfArchive(archive, id).value;
      assert SameArchiveKeys(r.archive, archive);
      IndexOfArchiveSameKeys(r.archive, archive, other);
    }
  }

  /** A successful restore marks its record. */
  lemma PlanMarks(cat: Catalog, schedules: seq<Schedule>, bookings: seq<Booking>, series: map<Id, BookingSeries>,
                  archive: seq<DeletedBooking>, nextId: Id, id: Id, restorer: Option<Id>, now: int,
                  generate: BookingSeries -> seq<int>)
    requires PlanRestore(cat, schedules, bookings, series, archive, nextId, id, restorer, now, generate).success
    ensures MarkedIn(PlanRestore(cat, schedules, bookings, series, archive, nextId, id, restorer, now, generate).archive, id)
  {
    var r := PlanRestore(cat, schedules, bookings, series, archive, nextId, id, restorer, now, generate);
    PlanRestoreSuccess(cat, schedules, bookings, series, archive, nextId, id, restorer, now, generate);
    PlanRestoreFrame(cat, schedules, bookings, series, archive, nextId, id, restorer, now, generate);
    IndexOfArchiveSameKeys(r.archive, archive, id);
  }

  /** The state of the member loop of `restore_series`: the bookings restored
      and the error lines so far, and the tables. */
  datatype SeriesRun = SeriesRun(
    restored: seq<Booking>,
    errors: seq<string>,
    bookings: seq<Booking>,
    series: map<Id, BookingSeries>,
    archive: seq<DeletedBooking>,
    nextId: Id)

  /** One member of the loop: `restore_booking` of the record; a success is
      kept, a failure becomes the error line of the record's original id. */
  function RestoreStep(cat: Catalog, schedules: seq<Schedule>, run: SeriesRun, d: DeletedBooking,
                       restorer: Option<Id>, now: int, generate: BookingSeries -> seq<int>): SeriesRun
  {
    var p := PlanRestore(cat, schedules, run.bookings, run.series, run.archive, run.nextId, d.id, restorer, now, generate);
    SeriesRun(if p.success then run.restored + [p.booking.value] else run.restored,
              if p.success then run.errors else run.errors + [ErrorLine(d.originalId, p.message)],
              p.bookings, p.series, p.archive, p.nextBookingId)
  }

  /** The member loop over `targets`, in order, from the given tables. */
  function RestoreAll(cat: Catalog, schedules: seq<Schedule>, bookings: seq<Booking>, series: map<Id, BookingSeries>,
                      archive: seq<DeletedBooking>, nextId: Id, targets: seq<DeletedBooking>,
                      restorer: Option<Id>, now: int, generate: BookingSeries -> seq<int>): SeriesRun
    decreases |targets|
  {
    if targets == [] then SeriesRun([], [], bookings, series, archive, nextId)
    else
      var run := RestoreAll(cat, schedules, bookings, series, archive, nextId, targets[..|targets| - 1], restorer, now, generate);
      RestoreStep(cat, schedules, run, targets[|targets| - 1], restorer, now, generate)
  }

  /** Every member yields a booking or an error line; the restored bookings
      are appended to the table and take consecutive keys from the counter. */
  lemma {:induction false} RestoreAllCounts(cat: Catalog, schedules: seq<Schedule>, bookings: seq<Booking>,
                                            series: map<Id, BookingSeries>, archive: seq<DeletedBooking>, nextId: Id,
                                            targets: seq<DeletedBooking>, restorer: Option<Id>, now: int,
                                            generate: BookingSeries -> seq<int>)
    ensures var run := RestoreAll(cat, schedules, bookings, series, archive, nextId, targets, restorer, now, generate);
      |run.restored| + |run.errors| == |targets|
      && run.bookings == bookings + run.restored
      && run.nextId == nextId + |run.restored|
    ensures forall j :: 0 <= j < |RestoreAll(cat, schedules, bookings, series, archive, nextId, targets, restorer, now, generate).restored| ==>
      RestoreAll(cat, schedules, bookings, series, archive, nextId, targets, restorer, now, generate).restored[j].id == nextId + j
    decreases |targets|
  {
    if targets != [] {
      var prefix := targets[..|targets| - 1];
      var d := targets[|targets| - 1];
      RestoreAllCounts(cat, schedules, bookings, series, archive, nextId, prefix, restorer, now, generate);
      var run := RestoreAll(cat, schedules, bookings, series, archive, nextId, prefix, restorer, now, generate);
      PlanRestoreSuccess(cat, schedules, run.bookings, run.series, run.archive, run.nextId, d.id, restorer, now, generate);
      assert RestoreAll(cat, schedules, bookings, series, archive, nextId, targets, restorer, now, generate)
          == RestoreStep(cat, schedules, run, d, restorer, now, generate);
    }
  }

  /** The loop keeps the archive's keys, and touches and joins no series but
      the one whose members it restores. */
  lemma {:induction false} RestoreAllFrame(cat: Catalog, schedules: seq<Schedule>, bookings: seq<Booking>,
                                           series: map<Id, BookingSeries>, archive: seq<DeletedBooking>, nextId: Id,
                                           targets: seq<DeletedBooking>, sid: Id, restorer: Option<Id>, now: int,
                                           generate: BookingSeries -> seq<int>)
    requires DistinctArchiveIds(archive)
    requires forall d :: d in targets ==> d in archive && d.seriesId == Some(sid)
    ensures var run := RestoreAll(cat, schedules, bookings, series, archive, nextId, targets, restorer, now, generate);
      SameArchiveKeys(run.archive, archive)
      && run.series.Keys <= series.Keys + {sid}
      && forall b :: b in run.restored ==> b.series.None? || b.series == Some(sid)
    decreases |targets|
  {
    if targets != [] {
      var prefix := targets[..|targets| - 1];
      var d := targets[|targets| - 1];
      RestoreAllFrame(cat, schedules, bookings, series, archive, nextId, prefix, sid, restorer, now, generate);
      var run := RestoreAll(cat, schedules, bookings, series, archive, nextId, prefix, restorer, now, generate);
      assert RestoreAll(cat, schedules, bookings, series, archive, nextId, targets, restorer, now, generate)
          == RestoreStep(cat, schedules, run, d, restorer, now, generate);
      ArchiveLookup(archive, d);
      IndexOfArchiveSameKeys(run.archive, archive, d.id);
      PlanRestoreFrame(cat, schedules, run.bookings, run.series, run.archive, run.nextId, d.id, restorer, now, generate);
    }
  }

  /** Some error line reports the record with original id `originalId`. */
  ghost predicate Reported(errors: seq<string>, originalId: Id) {
    exists m :: ErrorLine(originalId, m) in errors
  }

  /** Later members keep the marks and the error lines of earlier ones. */
  lemma {:induction false} RestoreAllKeeps(cat: Catalog, schedules: seq<Schedule>, bookings: seq<Booking>,
                                           series: map<Id, BookingSeries>, archive: seq<DeletedBooking>, nextId: Id,
                                           targets: seq<DeletedBooking>, n: nat, restorer: Option<Id>, now: int,
                                           generate: BookingSeries -> seq<int>, id: int, originalId: Id)
    requires n <= |targets|
    ensures var early := RestoreAll(cat, schedules, bookings, series, archive, nextId, targets[..n], restorer, now, generate);
      var late := RestoreAll(cat, schedules, bookings, series, archive, nextId, targets, restorer, now, generate);
      (MarkedIn(early.archive, id) ==> MarkedIn(late.archive, id))
      && (Reported(early.errors, originalId) ==> Reported(late.errors, originalId))
    decreases |targets|
  {
    if n < |targets| {
      var prefix := targets[..|targets| - 1];
      assert prefix[..n] == targets[..n];
      RestoreAllKeeps(cat, schedules, bookings, series, archive, nextId, prefix, n, restorer, now, generate, id, originalId);
      var run := RestoreAll(cat, schedules, bookings, series, archive, nextId, prefix, restorer, now, generate);
      var d := targets[|targets| - 1];
      assert RestoreAll(cat, schedules, bookings, series, archive, nextId, targets, restorer, now, generate)
          == RestoreStep(cat, schedules, run, d, restorer, now, generate);
      if MarkedIn(run.archive, id) {
        PlanKeepsMarks(cat, schedules, run.bookings, run.series, run.archive, run.nextId, d.id, restorer, now, generate, id);
      }
      if Reported(run.errors, originalId) {
        var m :| ErrorLine(originalId, m) in run.errors;
        assert ErrorLine(originalId, m) in RestoreStep(cat, schedules, run, d, restorer, now, generate).errors;
      }
    } else {
      assert targets[..n] == targets;
    }
  }

  /** No member is lost: after the loop each member's record is marked
      restored, or an error line reports its original id. */
  lemma RestoreAllAccounts(cat: Catalog, schedules: seq<Schedule>, bookings: seq<Booking>,
                           series: map<Id, BookingSeries>, archive: seq<DeletedBooking>, nextId: Id,
                           targets: seq<DeletedBooking>, restorer: Option<Id>, now: int,
                           generate: BookingSeries -> seq<int>, j: nat)
    requires j < |targets|
    ensures var run := RestoreAll(cat, schedules, bookings, series, archive, nextId, targets, restorer, now, generate);
      MarkedIn(run.archive, targets[j].id) || Reported(run.errors, targets[j].originalId)
  {
    var d := targets[j];
    var before := RestoreAll(cat, schedules, bookings, series, archive, nextId, targets[..j], restorer, now, generate);
    assert targets[..j + 1][..j] == targets[..j];
    assert RestoreAll(cat, schedules, bookings, series, archive, nextId, targets[..j + 1], restorer, now, generate)
        == RestoreStep(cat, schedules, before, d, restorer, now, generate);
    var p := PlanRestore(cat, schedules, before.bookings, before.series, before.archive, before.nextId, d.id, restorer, now, generate);
    if p.success {
      PlanMarks(cat, schedules, before.bookings, before.series, before.archive, before.nextId, d.id, restorer, now, generate);
    } else {
      assert ErrorLine(d.originalId, p.message) in RestoreStep(cat, schedules, before, d, restorer, now, generate).errors;
    }
    RestoreAllKeeps(cat, schedules, bookings, series, archive, nextId, targets, j + 1, restorer, now, generate, d.id, d.originalId);
  }

  /** The member loop keeps the tables valid. */
  lemma {:induction false} RestoreAllValid(cat: Catalog, schedules: seq<Schedule>, bookings: seq<Booking>,
                                           series: map<Id, BookingSeries>, archive: seq<DeletedBooking>, nextId: Id,
                                           nextSeriesId: int, targets: seq<DeletedBooking>, restorer: Option<Id>, now: int,
                                           generate: BookingSeries -> seq<int>)
    requires TablesValid(cat, bookings, series, archive, nextId, nextSeriesId)
    ensures var run := RestoreAll(cat, schedules, bookings, series, archive, nextId, targets, restorer, now, generate);
      TablesValid(cat, run.bookings, run.series, run.archive, run.nextId, nextSeriesId)
    decreases |targets|
  {
    if targets != [] {
      var init := targets[..|targets| - 1];
      RestoreAllValid(cat, schedules, bookings, series, archive, nextId, nextSeriesId, init, restorer, now, generate);
      var run := RestoreAll(cat, schedules, bookings, series, archive, nextId, init, restorer, now, generate);
      PlanRestoreValid(cat, schedules, run.bookings, run.series, run.archive, run.nextId, nextSeriesId,
                       targets[|targets| - 1].id, restorer, now, generate);
    }
  }

  /** The summary `restore_series` reports: the count when no member failed,
      else the counts and the first error lines. */
  function SeriesMessage(restoredCount: nat, errors: seq<string>): string {
    if errors == [] then AllRestoredMessage(restoredCount) else PartialMessage(restoredCount, errors)
  }

  /** The summary agrees with the outcome: success exactly when every member
      came back, with the matching counts. */
  lemma SeriesMessageFits(restoredCount: nat, errors: seq<string>)
    ensures SummaryFits(errors == [], SeriesMessage(restoredCount, errors), restoredCount, restoredCount + |errors|)
  {
    if errors != [] {
      assert HasPartialHead(SeriesMessage(restoredCount, errors), restoredCount, |errors|);
    }
  }

  /** The loop of `restore_series` over the members of series `sid`: each
      success is kept, each failure becomes an error line, and nothing
      restored earlier is undone. */
  method RestoreMembers(st: Store, targets: seq<DeletedBooking>, sid: Id, restorer: Option<Id>, now: int,
                        generate: BookingSeries -> seq<int>)
    returns (restored: seq<Booking>, errors: seq<string>)
    requires DistinctArchiveIds(st.archive)
    requires forall d :: d in targets ==> d in st.archive && d.seriesId == Some(sid)
    modifies st`bookings, st`nextBookingId, st`series, st`archive
    ensures var run := RestoreAll(st.catalog, st.schedules, old(st.bookings), old(st.series), old(st.archive),
                                  old(st.nextBookingId), targets, restorer, now, generate);
      restored == run.restored && errors == run.errors && Tables(st) == (run.bookings, run.series, run.archive, run.nextId)
    ensures |restored| + |errors| == |targets|
    ensures st.bookings == old(st.bookings) + restored
    ensures st.nextBookingId == old(st.nextBookingId) + |restored|
    ensures forall b :: b in restored ==> b.series.None? || b.series == Some(sid)
    ensures st.series.Keys <= old(st.series).Keys + {sid}
    ensures SameArchiveKeys(st.archive, old(st.archive))
    ensures old(st.Valid()) ==> st.Valid()
  {
    if st.Valid() {
      RestoreAllValid(st.catalog, st.schedules, st.bookings, st.series, st.archive, st.nextBookingId, st.nextSeriesId,
                      targets, restorer, now, generate);
    }
    restored, errors := RestoreEach(st, targets, restorer, now, generate);
    RestoreAllCounts(st.catalog, st.schedules, old(st.bookings), old(st.series), old(st.archive),
                     old(st.nextBookingId), targets, restorer, now, generate);
    RestoreAllFrame(st.catalog, st.schedules, old(st.bookings), old(st.series), old(st.archive),
                    old(st.nextBookingId), targets, sid, restorer, now, generate);
  }

  /** The loop of `restore_series`: each target restored in turn, as `RestoreAll` folds. */
  method RestoreEach(st: Store, targets: seq<DeletedBooking>, restorer: Option<Id>, now: int,
                     generate: BookingSeries -> seq<int>)
    returns (restored: seq<Booking>, errors: seq<string>)
    modifies st`bookings, st`nextBookingId, st`series, st`archive
    ensures var run := RestoreAll(st.catalog, st.schedules, old(st.bookings), old(st.series), old(st.archive),
                                  old(st.nextBookingId), targets, restorer, now, generate);
      restored == run.restored && errors == run.errors && Tables(st) == (run.bookings, run.series, run.archive, run.nextId)
  {
    restored := [];
    errors := [];
    var i := 0;
    while i < |targets|
      invariant 0 <= i <= |targets|
      invariant RestoreAll(st.catalog, st.schedules, old(st.bookings), old(st.series), old(st.archive),
                           old(st.nextBookingId), targets[..i], restorer, now, generate)
             == SeriesRun(restored, errors, st.bookings, st.series, st.archive, st.nextBookingId)
    {
      var d := targets[i];
      ghost var run := SeriesRun(restored, errors, st.bookings, st.series, st.archive, st.nextBookingId);
      assert targets[..i + 1][..i] == targets[..i];
      assert RestoreAll(st.catalog, st.schedules, old(st.bookings), old(st.series), old(st.archive),
                        old(st.nextBookingId), targets[..i + 1], restorer, now, generate)
          == RestoreStep(st.catalog, st.schedules, run, d, restorer, now, generate);
      var ok, b, msg := RestoreSteps(st, d.id, restorer, now, generate);
      if ok {
        restored := restored + [b.value];
      } else {
        errors := errors + [ErrorLine(d.originalId, msg)];
      }
      i := i + 1;
    }
    assert targets[..i] == targets;
  }

  /** The members of series `sid` restored in turn, and the summary of the
      outcome. */
  method RestoreTargets(st: Store, targets: seq<DeletedBooking>, sid: Id, restorer: Option<Id>, now: int,
                        generate: BookingSeries -> seq<int>)
    returns (success: bool, restored: seq<Booking>, message: string)
    requires DistinctArchiveIds(st.archive)
    requires forall d :: d in targets ==> d in st.archive && d.seriesId == Some(sid)
    modifies st`bookings, st`nextBookingId, st`series, st`archive
    ensures var run := RestoreAll(st.catalog, st.schedules, old(st.bookings), old(st.series), old(st.archive),
                                  old(st.nextBookingId), targets, restorer, now, generate);
      restored == run.restored && Tables(st) == (run.bookings, run.series, run.archive, run.nextId)
      && success == (run.errors == []) && message == SeriesMessage(|restored|, run.errors)
    ensures SummaryFits(success, message, |restored|, |targets|)
    ensures st.bookings == old(st.bookings) + restored
    ensures st.nextBookingId == old(st.nextBookingId) + |restored|
    ensures forall b :: b in restored ==> b.series.None? || b.series == Some(sid)
    ensures st.series.Keys <= old(st.series).Keys + {sid}
    ensures SameArchiveKeys(st.archive, old(st.archive))
    ensures old(st.Valid()) ==> st.Valid()
  {
    var errors;
    restored, errors := RestoreMembers(st, targets, sid, restorer, now, generate);
    success := errors == [];
    message := SeriesMessage(|restored|, errors);
    SeriesMessageFits(|restored|, errors);
  }

  /** `restore_series`. The record must exist and belong to a series that
      still has unrestored archived members; those are restored one by one in
      sequence order. Failures are collected and do not undo earlier
      successes; the call succeeds exactly when every member came back. */
  method RestoreSeries(st: Store, id: Id, restorer: Option<Id>, now: int, generate: BookingSeries -> seq<int>)
    returns (success: bool, restored: seq<Booking>, message: string)
    requires DistinctArchiveIds(st.archive)
    modifies st`bookings, st`nextBookingId, st`series, st`archive
    ensures var k := IndexOfArchive(old(st.archive), id);
      k.None? ==> !success && restored == [] && message == NotFoundMessage && Tables(st) == old(Tables(st))
    ensures var k := IndexOfArchive(old(st.archive), id);
      k.Some? && old(st.archive)[k.value].seriesId.None? ==>
        !success && restored == [] && message == NotSeriesMessage && Tables(st) == old(Tables(st))
    ensures var k := IndexOfArchive(old(st.archive), id);
      k.Some? && old(st.archive)[k.value].seriesId.Some?
      && SeriesTargets(old(st.archive), old(st.archive)[k.value].seriesId.value) == [] ==>
        !success && restored == [] && message == NothingLeftMessage && Tables(st) == old(Tables(st))
    ensures var k := IndexOfArchive(old(st.archive), id);
      k.Some? && old(st.archive)[k.value].seriesId.Some?
      && SeriesTargets(old(st.archive), old(st.archive)[k.value].seriesId.value) != [] ==>
        var sid := old(st.archive)[k.value].seriesId.value;
        var targets := SeriesTargets(old(st.archive), sid);
        var run := RestoreAll(st.catalog, st.schedules, old(st.bookings), old(st.series), old(st.archive),
                              old(st.nextBookingId), targets, restorer, now, generate);
        restored == run.restored && Tables(st) == (run.bookings, run.series, run.archive, run.nextId)
        && success == (run.errors == []) && message == SeriesMessage(|restored|, run.errors)
        && SummaryFits(success, message, |restored|, |targets|)
        && st.bookings == old(st.bookings) + restored
        && st.nextBookingId == old(st.nextBookingId) + |restored|
        && (forall b :: b in restored ==> b.series.None? || b.series == Some(sid))
        && st.series.Keys <= old(st.series).Keys + {sid}
    ensures SameArchiveKeys(st.archive, old(st.archive))
    ensures old(st.Valid()) ==> st.Valid()
  {
    var k := IndexOfArchive(st.archive, id);
    if k.None? {
      return false, [], NotFoundMessage;
    }
    if st.archive[k.value].seriesId.None? {
      return false, [], NotSeriesMessage;
    }
    var sid := st.archive[k.value].seriesId.value;
    var targets := SeriesTargets(st.archive, sid);
    if targets == [] {
      return false, [], NothingLeftMessage;
    }
    assert k == IndexOfArchive(old(st.archive), id) && targets == SeriesTargets(old(st.archive), sid);
    forall d | d in targets ensures d in st.archive && d.seriesId == Some(sid) {
    }
    success, restored, message := RestoreTargets(st, targets, sid, restorer, now, generate);
  }
}
