/** The booking form's last step: the chosen slot arrives as one string
    "start|specialist|cabinet" (older pages send only "start|specialist"),
    is parsed, checked against the slots still free and turned into a
    booking. */
module SlotSelection {
  import opened Common
  import opened Models
  import opened Text
  import opened Slots

  datatype SlotChoice = SlotChoice(startTime: int, specialist: int, cabinet: int)

  /** What the view answers: a booking to create, a redirect back to the
      service choice with an error message, or a 404. */
  datatype CreateOutcome = Accepted(choice: SlotChoice, variant: ServiceVariant) | Rejected(message: string) | NotFound

  const NoSlotSelected: string := "Слот не выбран"
  /** Shown for every `ValueError`, `IndexError` or `TypeError` of the view. */
  const CreateFailed: string := "Ошибка при создании бронирования"
  const CabinetUnfit: string := "Выбранный кабинет не подходит для данной услуги"
  const SlotUnavailable: string := "Выбранный слот недоступен"
  const CabinetTaken: string := "Выбранный кабинет недоступен для данного времени"

  /** Index of the first slot with this specialist and start. */
  function IndexOfSlot(slots: seq<Slot>, spec: int, start: int): (r: Option<nat>)
    ensures r.Some? ==> r.value < |slots| && slots[r.value].specialist == spec && slots[r.value].startTime == start
    ensures r.Some? ==> forall j :: 0 <= j < r.value ==> !(slots[j].specialist == spec && slots[j].startTime == start)
    ensures r.None? ==> forall j :: 0 <= j < |slots| ==> !(slots[j].specialist == spec && slots[j].startTime == start)
  {
    if slots == [] then None
    else if slots[0].specialist == spec && slots[0].startTime == start then Some(0)
    else match IndexOfSlot(slots[1..], spec, start)
      case None => None
      case Some(k) => Some(k + 1)
  }

  /** The cabinet an old-format selection falls back to: the first free
      cabinet of the slot, else the slot's own cabinet. */
  function FallbackCabinet(s: Slot): (r: int)
    ensures s.availableCabinets != [] ==> r == s.availableCabinets[0].id
    ensures s.availableCabinets == [] ==> r == s.cabinet.id
  {
    if s.availableCabinets != [] then s.availableCabinets[0].id else s.cabinet.id
  }

  function CabinetIds(cabs: seq<Cabinet>): seq<int> {
    seq(|cabs|, i requires 0 <= i < |cabs| => cabs[i].id)
  }

  /** The checks of `create_booking_view` after parsing, in its order: the
      variant, specialist and cabinet must exist (404 otherwise); the cabinet
      type must be one the service requires; a slot with this specialist and
      start must still be offered; and the cabinet must be among its free
      cabinets (or, for a slot without that list, be its cabinet).
      `available` is what `find_available_slots` returns for the start's day
      and the variant. */
  function ValidateChoice(cat: Catalog, variant: Option<ServiceVariant>, choice: SlotChoice, available: seq<Slot>): (r: CreateOutcome)
    ensures r.Accepted? ==> r.choice.specialist >= 1 && r.choice.cabinet >= 1
    ensures r.Accepted? ==>
      variant.Some? && r.variant == variant.value && r.choice == choice
      && FindSpecialist(cat.specialists, choice.specialist).Some?
      && FindCabinet(cat.cabinets, choice.cabinet).Some?
      && exists s :: s in available && s.specialist == choice.specialist && s.startTime == choice.startTime
                     && (choice.cabinet in CabinetIds(s.availableCabinets) || (s.availableCabinets == [] && s.cabinet.id == choice.cabinet))
    ensures r == Rejected(SlotUnavailable) ==> forall s :: s in available ==> !(s.specialist == choice.specialist && s.startTime == choice.startTime)
  {
    if variant.None? || FindSpecialist(cat.specialists, choice.specialist).None?
       || FindCabinet(cat.cabinets, choice.cabinet).None? then NotFound
    else
      var cabinet := FindCabinet(cat.cabinets, choice.cabinet).value;
      var required := match FindService(cat.services, variant.value.service)
                      case Some(service) => service.requiredCabinetTypes
                      case None => [];
      if cabinet.cabinetType !in required then Rejected(CabinetUnfit)
      else match IndexOfSlot(available, choice.specialist, choice.startTime)
        case None => Rejected(SlotUnavailable)
        case Some(k) =>
          var s := available[k];
          if s.availableCabinets != [] && choice.cabinet !in CabinetIds(s.availableCabinets) then Rejected(CabinetTaken)
          else if s.availableCabinets == [] && s.cabinet.id != choice.cabinet then Rejected(CabinetTaken)
          else Accepted(choice, variant.value)
  }

  /** `create_booking_view` up to the insert. `parseDateTime` stands for
      `datetime.fromisoformat` followed by `make_aware`; `variantText` is the
      posted service variant. */
  function DecideCreate(cat: Catalog, selected: string, variantText: string,
                        parseDateTime: string -> Option<int>, available: seq<Slot>): (r: CreateOutcome)
    ensures r.Accepted? ==> r.choice.specialist >= 1 && r.choice.cabinet >= 1
    ensures r == Rejected(NoSlotSelected) <==> selected == ""
    ensures r.Accepted? ==>
      var parts := Split(selected, '|');
      |parts| >= 2 && parseDateTime(parts[0]) == Some(r.choice.startTime)
      && ParseInt(parts[1]) == Some(r.choice.specialist)
      && (|parts| >= 3 ==> ParseInt(parts[2]) == Some(r.choice.cabinet))
      && ParseInt(variantText).Some? && FindVariant(cat.variants, ParseInt(variantText).value) == Some(r.variant)
  {
    if selected == "" then Rejected(NoSlotSelected)
    else
      var parts := Split(selected, '|');
      if |parts| < 2 then Rejected(CreateFailed)
      else match (parseDateTime(parts[0]), ParseInt(parts[1]))
        case (None, _) => Rejected(CreateFailed)
        case (_, None) => Rejected(CreateFailed)
        case (Some(start), Some(spec)) =>
          if |parts| >= 3 then DecideWithCabinet(cat, parts[2], variantText, start, spec, available)
          else DecideWithFallback(cat, variantText, start, spec, available)
  }

  /** Three or more parts: the posted cabinet is taken as chosen. */
  function DecideWithCabinet(cat: Catalog, cabinetText: string, variantText: string, start: int, spec: int,
                             available: seq<Slot>): (r: CreateOutcome)
    ensures r.Accepted? ==> r.choice.specialist >= 1 && r.choice.cabinet >= 1
    ensures r != Rejected(NoSlotSelected)
    ensures r.Accepted? ==>
      r.choice.startTime == start && r.choice.specialist == spec && ParseInt(cabinetText) == Some(r.choice.cabinet)
      && ParseInt(variantText).Some? && FindVariant(cat.variants, ParseInt(variantText).value) == Some(r.variant)
  {
    match ParseInt(cabinetText)
    case None => Rejected(CreateFailed)
    case Some(cab) =>
      match ParseInt(variantText)
      case None => Rejected(CreateFailed)
      case Some(vid) => ValidateChoice(cat, FindVariant(cat.variants, vid), SlotChoice(start, spec, cab), available)
  }

  /** Two parts: the cabinet comes from the offered slot itself. */
  function DecideWithFallback(cat: Catalog, variantText: string, start: int, spec: int,
                              available: seq<Slot>): (r: CreateOutcome)
    ensures r.Accepted? ==> r.choice.specialist >= 1 && r.choice.cabinet >= 1
    ensures r != Rejected(NoSlotSelected)
    ensures r.Accepted? ==>
      r.choice.startTime == start && r.choice.specialist == spec
      && ParseInt(variantText).Some? && FindVariant(cat.variants, ParseInt(variantText).value) == Some(r.variant)
  {
    match ParseInt(variantText)
    case None => Rejected(CreateFailed)
    case Some(vid) =>
      if FindVariant(cat.variants, vid).None? then NotFound
      else match IndexOfSlot(available, spec, start)
        case None => Rejected(CreateFailed)
        case Some(k) =>
          ValidateChoice(cat, FindVariant(cat.variants, vid), SlotChoice(start, spec, FallbackCabinet(available[k])), available)
  }

  /** `create_booking_view`: on acceptance one confirmed booking is inserted
      for the chosen slot, created by the user. */
  method CreateBookingView(st: Store, selected: string, variantText: string, guestName: string, roomNumber: string,
                           user: Id, parseDateTime: string -> Option<int>, available: seq<Slot>)
    returns (outcome: CreateOutcome, created: Option<Booking>)
    modifies st`bookings, st`nextBookingId
    ensures outcome == DecideCreate(st.catalog, selected, variantText, parseDateTime, available)
    ensures !outcome.Accepted? ==> created.None? && st.bookings == old(st.bookings) && st.nextBookingId == old(st.nextBookingId)
    ensures outcome.Accepted? ==>
      created.Some? && st.bookings == old(st.bookings) + [created.value]
      && created.value == Saved(st.catalog, Booking(old(st.nextBookingId), guestName, roomNumber, None, outcome.variant.id,
                                                     outcome.choice.specialist, outcome.choice.cabinet,
                                                     outcome.choice.startTime, outcome.choice.startTime, Some(user),
                                                     Confirmed, None, 1))
      && st.nextBookingId == old(st.nextBookingId) + 1
    ensures old(st.Valid()) ==> st.Valid()
  {
    outcome := DecideCreate(st.catalog, selected, variantText, parseDateTime, available);
    created := None;
    if outcome.Accepted? {
      var c := outcome.choice;
      var found := FindVariant(st.catalog.variants, outcome.variant.id);
      assert found.Some?;
      assert c.specialist >= 1 && c.cabinet >= 1;
      var row := Booking(st.nextBookingId, guestName, roomNumber, None, outcome.variant.id,
                         c.specialist as Id, c.cabinet as Id, c.startTime, c.startTime, Some(user),
                         Confirmed, None, 1);
      var b := InsertChosen(st, row);
      created := Some(b);
    }
  }

  /** The insert behind an accepted choice: one row without a series,
      appended under the next key, keeping the store valid. */
  method InsertChosen(st: Store, row: Booking) returns (created: Booking)
    requires HasVariant(st.catalog, row) && row.series.None?
    modifies st`bookings, st`nextBookingId
    ensures created == Saved(st.catalog, row.(id := old(st.nextBookingId)))
    ensures st.bookings == old(st.bookings) + [created]
    ensures st.nextBookingId == old(st.nextBookingId) + 1
    ensures old(st.Valid()) ==> st.Valid()
  {
    if st.Valid() {
      CreateKeepsTables(st.catalog, st.bookings, st.series, st.archive, st.nextBookingId, st.nextSeriesId, row);
    }
    created := CreateBooking(st, row);
  }

  // ------------------------------------------------------------ properties

  /** The string a slot page renders, "start|specialist|cabinet", parses back
      to the same start, specialist and cabinet. */
  lemma SlotStringRoundTrip(iso: string, start: int, spec: nat, cab: nat, parseDateTime: string -> Option<int>)
    requires '|' !in iso && parseDateTime(iso) == Some(start)
    ensures var parts := Split(iso + "|" + NatToString(spec) + "|" + NatToString(cab), '|');
      |parts| == 3 && parseDateTime(parts[0]) == Some(start)
      && ParseInt(parts[1]) == Some(spec) && ParseInt(parts[2]) == Some(cab)
  {
    var parts := [iso, NatToString(spec), NatToString(cab)];
    assert '|' !in NatToString(spec) by { assert forall c :: c in NatToString(spec) ==> IsDigit(c); }
    assert '|' !in NatToString(cab) by { assert forall c :: c in NatToString(cab) ==> IsDigit(c); }
    SplitJoin(parts, '|');
    assert parts[1..][1..] == [NatToString(cab)];
    assert Join(parts[1..], "|") == NatToString(spec) + "|" + NatToString(cab);
    assert Join(parts, "|") == iso + "|" + NatToString(spec) + "|" + NatToString(cab);
    ParseIntOfNat(spec);
    ParseIntOfNat(cab);
  }

  lemma KeysLocate(slots: seq<Slot>)
    requires DistinctKeys(slots)
    ensures forall a, b :: 0 <= a < |slots| && 0 <= b < |slots| && a != b ==>
      slots[a].startTime != slots[b].startTime || slots[a].specialist != slots[b].specialist
  {
    forall a, b | 0 <= a < |slots| && 0 <= b < |slots| && a != b
      ensures slots[a].startTime != slots[b].startTime || slots[a].specialist != slots[b].specialist
    {
      if a < b { assert 0 <= a < b < |slots|; } else { assert 0 <= b < a < |slots|; }
    }
  }

  /** An old-format selection of an offered slot takes the slot's first free
      cabinet, and that choice passes the view's cabinet check. */
  lemma FallbackChoiceAccepted(cat: Catalog, variant: ServiceVariant, start: int, spec: int, available: seq<Slot>)
    requires IndexOfSlot(available, spec, start).Some?
    requires var s := available[IndexOfSlot(available, spec, start).value];
      s.availableCabinets != [] && s.cabinet == s.availableCabinets[0]
    requires var s := available[IndexOfSlot(available, spec, start).value];
      FindSpecialist(cat.specialists, spec).Some? && FindCabinet(cat.cabinets, s.cabinet.id).Some?
      && FindService(cat.services, variant.service).Some?
      && FindCabinet(cat.cabinets, s.cabinet.id).value.cabinetType in FindService(cat.services, variant.service).value.requiredCabinetTypes
    ensures var s := available[IndexOfSlot(available, spec, start).value];
      ValidateChoice(cat, Some(variant), SlotChoice(start, spec, FallbackCabinet(s)), available)
        == Accepted(SlotChoice(start, spec, s.cabinet.id), variant)
  {
    var s := available[IndexOfSlot(available, spec, start).value];
    assert CabinetIds(s.availableCabinets)[0] == s.cabinet.id;
  }

  /** A choice whose specialist, start and cabinet match a slot that
      `find_available_slots` offers is rejected only for a cabinet of the
      wrong type, never as taken or unavailable. */
  lemma OfferedChoiceNotTaken(cat: Catalog, variant: ServiceVariant, choice: SlotChoice, available: seq<Slot>, q: SlotQuery)
    requires DistinctKeys(available) && forall s :: s in available ==> SlotOk(q, s)
    requires exists s :: s in available && s.specialist == choice.specialist && s.startTime == choice.startTime
                         && exists c :: c in s.availableCabinets && c.id == choice.cabinet
    ensures var r := ValidateChoice(cat, Some(variant), choice, available);
      r != Rejected(SlotUnavailable) && r != Rejected(CabinetTaken)
  {
    var s :| s in available && s.specialist == choice.specialist && s.startTime == choice.startTime
             && exists c :: c in s.availableCabinets && c.id == choice.cabinet;
    var c :| c in s.availableCabinets && c.id == choice.cabinet;
    var k := IndexOfSlot(available, choice.specialist, choice.startTime).value;
    var i :| 0 <= i < |available| && available[i] == s;
    KeysLocate(available);
    assert k == i;
    var j :| 0 <= j < |s.availableCabinets| && s.availableCabinets[j] == c;
    assert CabinetIds(s.availableCabinets)[j] == choice.cabinet;
  }
}
