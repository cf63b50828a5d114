/** Audit-log helpers: the field diff recorded with a booking change and the
    client address taken from the request headers. */
module Logs {
  import opened Common
  import opened Models
  import opened Text

  // ------------------------------------------------------------ field diff

  /** An attribute value as read from a model instance: missing (or None),
      text, a plain integer, a date-time (absolute minutes), or a related
      object with its key. */
  datatype FieldValue = Absent | Chars(chars: string) | Number(number: int) | Moment(at: int) | Reference(key: Id)

  /** A value as stored in the JSON of a log entry. */
  datatype LogValue = Null | Str(text: string) | Int(number: int)

  /** The attribute names the diff looks at. */
  datatype Field = GuestName | GuestRoomNumber | StatusField | StartTime | ServiceVariantId | SpecialistId | CabinetId

  /** The attribute's name, which is also its key in the logged JSON. */
  function FieldName(f: Field): string {
    match f
    case GuestName => "guest_name"
    case GuestRoomNumber => "guest_room_number"
    case StatusField => "status"
    case StartTime => "start_time"
    case ServiceVariantId => "service_variant_id"
    case SpecialistId => "specialist_id"
    case CabinetId => "cabinet_id"
  }

  lemma FieldNamesDistinct(f: Field, g: Field)
    ensures FieldName(f) == FieldName(g) <==> f == g
  {
  }

  /** The tracked attributes of an instance; one that is not there reads as None. */
  datatype Attrs = Attrs(guestName: FieldValue, guestRoomNumber: FieldValue, status: FieldValue,
                         startTime: FieldValue, serviceVariantId: FieldValue, specialistId: FieldValue,
                         cabinetId: FieldValue)

  /** The changed fields with their old and with their new values. */
  datatype Changes = Changes(oldValues: map<Field, LogValue>, newValues: map<Field, LogValue>)

  /** The fields whose changes are logged, in the order they are compared. */
  const TrackedFields: seq<Field> :=
    [GuestName, GuestRoomNumber, StatusField, StartTime, ServiceVariantId, SpecialistId, CabinetId]

  /** Every attribute of the enumeration is compared. */
  lemma EveryFieldTracked(f: Field)
    ensures f in TrackedFields
  {
    match f
    case GuestName => assert TrackedFields[0] == f;
    case GuestRoomNumber => assert TrackedFields[1] == f;
    case StatusField => assert TrackedFields[2] == f;
    case StartTime => assert TrackedFields[3] == f;
    case ServiceVariantId => assert TrackedFields[4] == f;
    case SpecialistId => assert TrackedFields[5] == f;
    case CabinetId => assert TrackedFields[6] == f;
  }

  /** `getattr(instance, field, None)`. */
  function GetAttr(obj: Attrs, field: Field): FieldValue {
    match field
    case GuestName => obj.guestName
    case GuestRoomNumber => obj.guestRoomNumber
    case StatusField => obj.status
    case StartTime => obj.startTime
    case ServiceVariantId => obj.serviceVariantId
    case SpecialistId => obj.specialistId
    case CabinetId => obj.cabinetId
  }

  /** A related object becomes its key and a date-time its ISO text
      (`isoformat` renders the local date-time); anything else is kept. */
  function Normalized(v: FieldValue, isoformat: int -> string): LogValue {
    match v
    case Absent => Null
    case Chars(s) => Str(s)
    case Number(n) => Int(n)
    case Moment(t) => Str(isoformat(t))
    case Reference(k) => Int(k)
  }

  /** `get_booking_changes`: the tracked fields whose normalized old and new
      values differ, each with its old value on one side and its new value on
      the other. */
  function GetBookingChanges(before: Attrs, after: Attrs, isoformat: int -> string): (r: Changes)
    ensures r.oldValues.Keys == r.newValues.Keys
  {
    Changes(
      map f | f in TrackedFields && Normalized(GetAttr(before, f), isoformat) != Normalized(GetAttr(after, f), isoformat)
        :: Normalized(GetAttr(before, f), isoformat),
      map f | f in TrackedFields && Normalized(GetAttr(before, f), isoformat) != Normalized(GetAttr(after, f), isoformat)
        :: Normalized(GetAttr(after, f), isoformat))
  }

  /** A field is logged exactly when its normalized values differ, and then
      with the old value on the old side and the new value on the new side. */
  lemma GetBookingChangesMeaning(before: Attrs, after: Attrs, isoformat: int -> string, f: Field)
    ensures var r := GetBookingChanges(before, after, isoformat);
      var o := Normalized(GetAttr(before, f), isoformat);
      var n := Normalized(GetAttr(after, f), isoformat);
      (f in r.oldValues <==> o != n)
      && (f in r.oldValues ==> r.oldValues[f] == o && r.newValues[f] == n)
  {
    EveryFieldTracked(f);
  }

  /** Comparing an instance with itself logs nothing. */
  lemma NoChangesForEqual(obj: Attrs, isoformat: int -> string)
    ensures GetBookingChanges(obj, obj, isoformat) == Changes(map[], map[])
  {
    var r := GetBookingChanges(obj, obj, isoformat);
    assert r.oldValues.Keys == {};
    assert r.newValues.Keys == {};
  }

  /** Swapping the two instances swaps the two sides of the diff. */
  lemma ChangesSwap(before: Attrs, after: Attrs, isoformat: int -> string)
    ensures var r := GetBookingChanges(before, after, isoformat);
      GetBookingChanges(after, before, isoformat) == Changes(r.newValues, r.oldValues)
  {
    var r := GetBookingChanges(before, after, isoformat);
    var s := GetBookingChanges(after, before, isoformat);
    forall f ensures (f in s.oldValues <==> f in r.oldValues) {
      GetBookingChangesMeaning(before, after, isoformat, f);
      GetBookingChangesMeaning(after, before, isoformat, f);
    }
    assert s.oldValues.Keys == r.newValues.Keys;
    assert s.oldValues == r.newValues;
    assert s.newValues == r.oldValues;
  }

  /** The stored code of a status choice. */
  function StatusCode(s: Status): (r: string)
    ensures r in ["confirmed", "paid", "completed", "canceled"]
  {
    match s
    case Confirmed => "confirmed"
    case Paid => "paid"
    case Completed => "completed"
    case Canceled => "canceled"
  }

  lemma StatusCodeInjective(s: Status, t: Status)
    ensures StatusCode(s) == StatusCode(t) <==> s == t
  {
  }

  /** The tracked attributes of a booking. */
  function AttrsOf(b: Booking): Attrs {
    Attrs(Chars(b.guestName), Chars(b.guestRoomNumber), Chars(StatusCode(b.status)), Moment(b.startTime),
          Number(b.serviceVariant), Number(b.specialist), Number(b.cabinet))
  }

  /** Whether a tracked field differs between two versions of a booking;
      the start is compared as rendered. */
  function FieldChanged(b: Booking, c: Booking, isoformat: int -> string, f: Field): bool {
    match f
    case GuestName => b.guestName != c.guestName
    case GuestRoomNumber => b.guestRoomNumber != c.guestRoomNumber
    case StatusField => b.status != c.status
    case StartTime => isoformat(b.startTime) != isoformat(c.startTime)
    case ServiceVariantId => b.serviceVariant != c.serviceVariant
    case SpecialistId => b.specialist != c.specialist
    case CabinetId => b.cabinet != c.cabinet
  }

  /** For two versions of a booking the diff holds exactly the fields that
      changed. */
  lemma {:induction false} BookingEditChanges(b: Booking, c: Booking, isoformat: int -> string)
    ensures forall f :: f in GetBookingChanges(AttrsOf(b), AttrsOf(c), isoformat).oldValues <==> FieldChanged(b, c, isoformat, f)
  {
    forall f ensures f in GetBookingChanges(AttrsOf(b), AttrsOf(c), isoformat).oldValues <==> FieldChanged(b, c, isoformat, f) {
      GetBookingChangesMeaning(AttrsOf(b), AttrsOf(c), isoformat, f);
      StatusCodeInjective(b.status, c.status);
    }
  }

  // ------------------------------------------------------------ client ip

  /** The first comma-separated item of a text: everything before the first comma. */
  lemma {:induction false} SplitHead(s: string, c: char)
    ensures var h := Split(s, c)[0];
      |h| <= |s| && h == s[..|h|] && c !in h && (|h| < |s| ==> s[|h|] == c)
    decreases |s|
  {
    if s != [] && s[0] != c {
      SplitHead(s[1..], c);
    }
  }

  /** `get_client_ip`: the first item of a non-empty X-Forwarded-For header,
      untrimmed, and otherwise REMOTE_ADDR (None when that is missing too). */
  function GetClientIp(meta: map<string, string>): (r: Option<string>)
    ensures "HTTP_X_FORWARDED_FOR" in meta && meta["HTTP_X_FORWARDED_FOR"] != "" ==>
      var x := meta["HTTP_X_FORWARDED_FOR"];
      r.Some? && |r.value| <= |x| && r.value == x[..|r.value|] && ',' !in r.value
      && (|r.value| < |x| ==> x[|r.value|] == ',')
    ensures !("HTTP_X_FORWARDED_FOR" in meta && meta["HTTP_X_FORWARDED_FOR"] != "") ==>
      r == (if "REMOTE_ADDR" in meta then Some(meta["REMOTE_ADDR"]) else None)
  {
    if "HTTP_X_FORWARDED_FOR" in meta && meta["HTTP_X_FORWARDED_FOR"] != "" then
      SplitHead(meta["HTTP_X_FORWARDED_FOR"], ',');
      Some(Split(meta["HTTP_X_FORWARDED_FOR"], ',')[0])
    else if "REMOTE_ADDR" in meta then Some(meta["REMOTE_ADDR"])
    else None
  }

  /** A header without a comma is taken whole. */
  lemma ClientIpSingle(meta: map<string, string>)
    requires "HTTP_X_FORWARDED_FOR" in meta && meta["HTTP_X_FORWARDED_FOR"] != ""
    requires ',' !in meta["HTTP_X_FORWARDED_FOR"]
    ensures GetClientIp(meta) == Some(meta["HTTP_X_FORWARDED_FOR"])
  {
    SplitNoSeparator(meta["HTTP_X_FORWARDED_FOR"], ',');
  }

  /** Of a proxy chain "client,proxy,..." the client part is taken, spaces included. */
  lemma ClientIpFirstItem(meta: map<string, string>, client: string, rest: string)
    requires "HTTP_X_FORWARDED_FOR" in meta && meta["HTTP_X_FORWARDED_FOR"] == client + [','] + rest
    requires ',' !in client
    ensures GetClientIp(meta) == Some(client)
  {
    SplitAfterWord(client, ',', rest);
  }
}
