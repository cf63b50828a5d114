/** The cross-field validation of the booking forms: the working-window
    check of the schedule form, the registration checks, and the edit form's
    checks and save. Field-level parsing (time and date-time inputs, model
    choice lookups) has already happened: absent values are `None`. */
module Forms {
  import opened Common
  import opened Models
  import opened Text
  import opened Conflicts

  /** A validation error attached to one form field. */
  datatype FieldError = FieldError(field: string, message: string)

  // ----------------------------------------------------- schedule form

  const EndNotAfterStart: string := "Время окончания должно быть больше времени начала"

  /** `SpecialistScheduleForm.clean`: with both times given, the end must be
      strictly after the start; the error is reported on `end_time`. Times are
      minutes of the day (a `datetime.time` is always truthy, midnight too). */
  function CleanSchedule(start: Option<int>, end: Option<int>): (r: Option<FieldError>)
    ensures r.Some? <==> start.Some? && end.Some? && start.value >= end.value
    ensures r.Some? ==> r.value == FieldError("end_time", EndNotAfterStart)
  {
    if start.Some? && end.Some? && start.value >= end.value then
      Some(FieldError("end_time", EndNotAfterStart))
    else None
  }

  /** A schedule the form accepts with both times given is a non-empty window. */
  lemma CleanScheduleWindow(start: int, end: int)
    requires CleanSchedule(Some(start), Some(end)).None?
    ensures start < end
  {
  }

  // ------------------------------------------------- registration form

  const UsernameTaken: string := "Пользователь с таким именем уже существует."
  const PasswordsDiffer: string := "Пароли не совпадают."

  /** `SpecialistRegistrationForm.clean_username`: a name already in use is refused. */
  function CleanUsername(existing: set<string>, username: string): (r: Result<string, string>)
    ensures r.Err? <==> username in existing
    ensures r.Err? ==> r.error == UsernameTaken
    ensures r.Ok? ==> r.value == username
  {
    if username in existing then Err(UsernameTaken) else Ok(username)
  }

  /** Python truthiness of an optional text field. */
  predicate Given(s: Option<string>) {
    s.Some? && s.value != ""
  }

  /** `SpecialistRegistrationForm.clean_password2`: two given passwords that
      differ are refused; when either is missing the field errors of the
      required fields speak instead. */
  function CleanPassword2(password1: Option<string>, password2: Option<string>): (r: Result<Option<string>, string>)
    ensures r.Err? <==> Given(password1) && Given(password2) && password1.value != password2.value
    ensures r.Err? ==> r.error == PasswordsDiffer
    ensures r.Ok? ==> r.value == password2
  {
    if Given(password1) && Given(password2) && password1.value != password2.value then Err(PasswordsDiffer)
    else Ok(password2)
  }

  /** Two given passwords pass only when they are equal. */
  lemma PasswordsMustMatch(p1: string, p2: string)
    requires p1 != "" && p2 != ""
    ensures CleanPassword2(Some(p1), Some(p2)).Ok? <==> p1 == p2
  {
  }

  // ------------------------------------------------------ booking edit

  const SpecialistCannot: string := "Выбранный специалист не может выполнять данную услугу"
  const CabinetUnsuitable: string := "Выбранный кабинет не подходит для данной услуги"
  const TimeUnavailable: string := "Выбранное время недоступно"

  /** The cabinet types the variant's service requires (none when the
      service is not in the catalog, which its foreign key rules out). */
  function RequiredTypesOf(cat: Catalog, variant: ServiceVariant): seq<Id> {
    match FindService(cat.services, variant.service)
    case Some(s) => s.requiredCabinetTypes
    case None => []
  }

  /** The blocking error text: the sentence of every set flag in the fixed
      order, joined by "; ". */
  function FormConflictMessage(c: Conflicts): (r: string)
    ensures c.Any() ==> r != ""
    ensures forall i :: 0 <= i < 4 ==> (FormLabels[i] in Selected(c.Flags(), FormLabels) <==> c.Flags()[i])
  {
    var parts := Selected(c.Flags(), FormLabels);
    SelectedEmpty(c.Flags(), FormLabels);
    AnyFlag(c);
    forall i | 0 <= i < |parts| ensures parts[i] != [] {
      assert parts[i] in FormLabels;
    }
    JoinEmpty(parts, "; ");
    LabelSetsDistinct();
    forall i | 0 <= i < 4 ensures FormLabels[i] in parts <==> c.Flags()[i] {
      SelectedMembership(c.Flags(), FormLabels, i);
    }
    if parts == [] then TimeUnavailable else Join(parts, "; ")
  }

  /** `BookingEditForm.clean`. With any of start, variant, specialist and
      cabinet missing the cross-field checks are skipped. Otherwise it
      refuses, in this order, a specialist who cannot perform the service, a
      cabinet of a type the service does not require, and any conflict of the
      new span with other bookings (the edited booking `editing`, when it has a
      key, excluded). */
  function CleanEdit(cat: Catalog, schedules: seq<Schedule>, bookings: seq<Booking>, editing: Option<Id>,
                     start: Option<int>, variant: Option<ServiceVariant>, spec: Option<Specialist>,
                     cabinet: Option<Cabinet>): (r: Option<FieldError>)
    ensures start.None? || variant.None? || spec.None? || cabinet.None? ==> r.None?
    ensures start.Some? && variant.Some? && spec.Some? && cabinet.Some? ==>
      && (r == Some(FieldError("specialist", SpecialistCannot)) <==> variant.value.service !in spec.value.servicesCanPerform)
      && (r == Some(FieldError("cabinet", CabinetUnsuitable)) <==>
            variant.value.service in spec.value.servicesCanPerform
            && cabinet.value.cabinetType !in RequiredTypesOf(cat, variant.value))
      && ((r.Some? && r.value.field == "start_datetime") <==>
            variant.value.service in spec.value.servicesCanPerform
            && cabinet.value.cabinetType in RequiredTypesOf(cat, variant.value)
            && CheckBookingConflicts(cat, schedules, bookings, start.value, variant.value, spec.value.id, cabinet.value, editing).Some?)
      && (r.Some? && r.value.field == "start_datetime" ==>
            r.value.message == FormConflictMessage(
              CheckBookingConflicts(cat, schedules, bookings, start.value, variant.value, spec.value.id, cabinet.value, editing).value))
  {
    if start.None? || variant.None? || spec.None? || cabinet.None? then None
    else if variant.value.service !in spec.value.servicesCanPerform then
      Some(FieldError("specialist", SpecialistCannot))
    else if cabinet.value.cabinetType !in RequiredTypesOf(cat, variant.value) then
      Some(FieldError("cabinet", CabinetUnsuitable))
    else match CheckBookingConflicts(cat, schedules, bookings, start.value, variant.value, spec.value.id, cabinet.value, editing)
      case Some(c) => Some(FieldError("start_datetime", FormConflictMessage(c)))
      case None => None
  }

  /** What an accepted edit guarantees: the specialist performs the service,
      the cabinet has a required type and is active, the new span lies within
      the specialist's hours, and no other confirmed booking of the
      specialist or in the cabinet overlaps it. */
  lemma CleanEditAccepted(cat: Catalog, schedules: seq<Schedule>, bookings: seq<Booking>, editing: Option<Id>,
                          start: int, variant: ServiceVariant, spec: Specialist, cabinet: Cabinet)
    requires CleanEdit(cat, schedules, bookings, editing, Some(start), Some(variant), Some(spec), Some(cabinet)).None?
    ensures variant.service in spec.servicesCanPerform
    ensures cabinet.cabinetType in RequiredTypesOf(cat, variant) && cabinet.isActive
    ensures var end := start + variant.durationMinutes + cat.bufferTimeMinutes;
      !OutsideHours(schedules, spec.id, start, end)
      && (forall i :: 0 <= i < |bookings| && Blocks(bookings[i], start, end, editing) ==>
            bookings[i].specialist != spec.id && bookings[i].cabinet != cabinet.id)
  {
    CheckBookingConflictsMeaning(cat, schedules, bookings, start, variant, spec.id, cabinet, editing);
  }

  /** The instance `BookingEditForm.save` builds from the cleaned data: the
      guest fields and status of the model form, the chosen variant,
      specialist and cabinet, the new start, and the end recomputed as start +
      duration + buffer. */
  function EditedBooking(cat: Catalog, b: Booking, guestName: string, roomNumber: string, status: Status,
                         variant: ServiceVariant, spec: Specialist, cabinet: Cabinet, start: int): (r: Booking)
    ensures r.id == b.id && r.series == b.series && r.sequence == b.sequence && r.guest == b.guest && r.createdBy == b.createdBy
    ensures r.serviceVariant == variant.id && r.specialist == spec.id && r.cabinet == cabinet.id
    ensures r.startTime == start && r.endTime == start + variant.durationMinutes + cat.bufferTimeMinutes
  {
    b.(guestName := guestName, guestRoomNumber := roomNumber, status := status,
       serviceVariant := variant.id, specialist := spec.id, cabinet := cabinet.id,
       startTime := start, endTime := start + TotalMinutes(cat, variant))
  }

  /** When the chosen variant is the catalog's row for its key, the end the
      form computes is the one `Booking.save` derives, so saving stores the
      instance unchanged. */
  lemma EditedBookingStored(cat: Catalog, b: Booking, guestName: string, roomNumber: string, status: Status,
                            variant: ServiceVariant, spec: Specialist, cabinet: Cabinet, start: int)
    requires FindVariant(cat.variants, variant.id) == Some(variant)
    ensures EndDerived(cat, EditedBooking(cat, b, guestName, roomNumber, status, variant, spec, cabinet, start))
  {
  }

  /** `BookingEditForm.save(commit)`: the instance is rebuilt and, with
      `commit`, stored by `Booking.save`. */
  method SaveEdit(st: Store, b: Booking, guestName: string, roomNumber: string, status: Status,
                  variant: ServiceVariant, spec: Specialist, cabinet: Cabinet, start: int, commit: bool)
    returns (instance: Booking)
    requires FindVariant(st.catalog.variants, variant.id) == Some(variant)
    modifies st`bookings
    ensures instance == EditedBooking(st.catalog, b, guestName, roomNumber, status, variant, spec, cabinet, start)
    ensures commit ==> st.bookings == WithSaved(st.catalog, old(st.bookings), instance)
    ensures commit ==> instance in st.bookings
    ensures !commit ==> st.bookings == old(st.bookings)
    ensures old(st.Valid()) && b.id < st.nextBookingId && SeriesKnown(b, st.series) ==> st.Valid()
  {
    instance := b.(guestName := guestName, guestRoomNumber := roomNumber, status := status);
    instance := instance.(serviceVariant := variant.id, specialist := spec.id, cabinet := cabinet.id);
    instance := instance.(startTime := start);
    instance := instance.(endTime := instance.startTime + variant.durationMinutes + st.catalog.bufferTimeMinutes);
    if commit {
      EditedBookingStored(st.catalog, b, guestName, roomNumber, status, variant, spec, cabinet, start);
      if st.Valid() && b.id < st.nextBookingId && SeriesKnown(b, st.series) {
        SaveKeepsTables(st.catalog, st.bookings, st.series, st.archive, st.nextBookingId, st.nextSeriesId, instance);
      }
      SaveBooking(st, instance);
      assert Saved(st.catalog, instance) == instance;
      match IndexOfBooking(old(st.bookings), instance.id) {
        case Some(k) => assert st.bookings[k] == instance;
        case None => assert st.bookings[|old(st.bookings)|] == instance;
      }
    }
  }
}
