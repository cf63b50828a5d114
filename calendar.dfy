/** The booking calendar page: the excluded-date list of the quick booking
    form, the date-time text sent to the server, and the page state the
    event handlers change (width mode, view, copy buffer, last clicked slot). */
module Calendar {
  import opened Common
  import opened Text

  // ------------------------------------------------- excluded-date list

  /** `YYYY-MM-DD`: four, two and two ASCII digits separated by hyphens. */
  predicate IsIsoShape(s: string) {
    |s| == 10 && AllDigits(s[0..4]) && s[4] == '-' && AllDigits(s[5..7]) && s[7] == '-' && AllDigits(s[8..10])
  }

  /** `item.replace(/\//g, '.')`. */
  function SlashesToDots(s: string): (r: string)
    ensures |r| == |s| && '/' !in r
    ensures forall i :: 0 <= i < |s| ==> r[i] == (if s[i] == '/' then '.' else s[i])
  {
    seq(|s|, i requires 0 <= i < |s| => if s[i] == '/' then '.' else s[i])
  }

  /** The day, month and year of `D.M.YYYY` (one or two digits for day and
      month, exactly four for the year), or None when the text is not of
      that shape. */
  function DottedParts(s: string): (r: Option<seq<string>>)
    ensures r.Some? ==> (|r.value| == 3
      && 1 <= |r.value[0]| <= 2 && AllDigits(r.value[0])
      && 1 <= |r.value[1]| <= 2 && AllDigits(r.value[1])
      && |r.value[2]| == 4 && AllDigits(r.value[2]))
  {
    var p := Split(s, '.');
    if |p| == 3 && 1 <= |p[0]| <= 2 && AllDigits(p[0]) && 1 <= |p[1]| <= 2 && AllDigits(p[1])
       && |p[2]| == 4 && AllDigits(p[2])
    then Some(p) else None
  }

  lemma PadDigits(s: string)
    requires 1 <= |s| <= 2 && AllDigits(s)
    ensures |PadStart2(s)| == 2 && AllDigits(PadStart2(s))
  {
    if |s| == 1 {
      assert PadStart2(s) == ['0'] + s;
    }
  }

  /** One trimmed item of the list: ISO dates are kept, `D.M.YYYY` and
      `D/M/YYYY` become zero-padded ISO dates, anything else is dropped. */
  function ConvertItem(item: string): (r: Option<string>)
    ensures r.Some? ==> IsIsoShape(r.value)
  {
    var n := SlashesToDots(item);
    if IsIsoShape(n) then Some(n)
    else match DottedParts(n)
      case Some(p) =>
        PadDigits(p[0]);
        PadDigits(p[1]);
        var iso := p[2] + "-" + PadStart2(p[1]) + "-" + PadStart2(p[0]);
        assert iso[0..4] == p[2] && iso[5..7] == PadStart2(p[1]) && iso[8..10] == PadStart2(p[0]);
        Some(iso)
      case None => None
  }

  /** An ISO date is kept verbatim. */
  lemma ConvertIso(item: string)
    requires IsIsoShape(item)
    ensures ConvertItem(item) == Some(item)
  {
    assert item[0..4] == item[..4];
    forall i | 0 <= i < |item| ensures item[i] != '/' {
      if i < 4 { assert item[i] == item[0..4][i]; }
      else if 4 < i < 7 { assert item[i] == item[5..7][i - 5]; }
      else if 7 < i { assert item[i] == item[8..10][i - 8]; }
    }
    assert SlashesToDots(item) == item;
  }

  /** Converting a converted date changes nothing. */
  lemma ConvertIdempotent(item: string)
    requires ConvertItem(item).Some?
    ensures ConvertItem(ConvertItem(item).value) == ConvertItem(item)
  {
    ConvertIso(ConvertItem(item).value);
  }

  /** Digits contain no separator. */
  lemma DigitsWithout(s: string, c: char)
    requires AllDigits(s) && !IsDigit(c)
    ensures c !in s
  {
    forall i | 0 <= i < |s| ensures s[i] != c {
      assert IsDigit(s[i]);
    }
  }

  /** Replacing slashes in `D/M/YYYY` gives `D.M.YYYY`. */
  lemma SlashesOfDotted(ds: string, ms: string, year: string, sep: char)
    requires AllDigits(ds) && AllDigits(ms) && AllDigits(year)
    requires sep == '.' || sep == '/'
    ensures SlashesToDots(ds + [sep] + ms + [sep] + year) == ds + ['.'] + ms + ['.'] + year
  {
    DigitsWithout(ds, '/');
    DigitsWithout(ms, '/');
    DigitsWithout(year, '/');
    var item := ds + [sep] + ms + [sep] + year;
    var want := ds + ['.'] + ms + ['.'] + year;
    forall i | 0 <= i < |item| ensures SlashesToDots(item)[i] == want[i] {
      if i < |ds| {
        assert item[i] == ds[i];
      } else if i == |ds| || i == |ds| + 1 + |ms| {
      } else if i < |ds| + 1 + |ms| {
        assert item[i] == ms[i - |ds| - 1];
      } else {
        assert item[i] == year[i - |ds| - |ms| - 2];
      }
    }
  }

  /** The three dotted parts of `D.M.YYYY`. */
  lemma SplitDotted(ds: string, ms: string, year: string)
    requires AllDigits(ds) && AllDigits(ms) && AllDigits(year)
    ensures Split(ds + ['.'] + ms + ['.'] + year, '.') == [ds, ms, year]
  {
    DigitsWithout(ds, '.');
    DigitsWithout(ms, '.');
    DigitsWithout(year, '.');
    SplitNoSeparator(year, '.');
    SplitAfterWord(ms, '.', year);
    SplitAfterWord(ds, '.', ms + ['.'] + year);
    assert ds + ['.'] + ms + ['.'] + year == ds + ['.'] + (ms + ['.'] + year);
  }

  /** `D.M.YYYY` (with at most two digits for day and month) is not an ISO date. */
  lemma DottedNotIso(ds: string, ms: string, year: string)
    requires 1 <= |ds| <= 2 && 1 <= |ms| <= 2 && |year| == 4
    ensures !IsIsoShape(ds + ['.'] + ms + ['.'] + year)
  {
    var n := ds + ['.'] + ms + ['.'] + year;
    if |n| == 10 {
      assert n[2] == '.';
      assert n[0..4][2] == n[2];
    }
  }

  /** `D.M.YYYY` and `D/M/YYYY` become `YYYY-MM-DD`. */
  lemma ConvertDotted(ds: string, ms: string, year: string, sep: char)
    requires 1 <= |ds| <= 2 && AllDigits(ds) && 1 <= |ms| <= 2 && AllDigits(ms) && |year| == 4 && AllDigits(year)
    requires sep == '.' || sep == '/'
    ensures ConvertItem(ds + [sep] + ms + [sep] + year) == Some(year + "-" + PadStart2(ms) + "-" + PadStart2(ds))
  {
    SlashesOfDotted(ds, ms, year, sep);
    DottedNotIso(ds, ms, year);
    SplitDotted(ds, ms, year);
  }

  /** The example of the form's help text: 5.3.2024 is the fifth of March. */
  lemma ConvertExample()
    ensures ConvertItem("5.3.2024") == Some("2024-03-05")
  {
    assert "5.3.2024" == "5" + ['.'] + "3" + ['.'] + "2024";
    ConvertDotted("5", "3", "2024", '.');
    assert PadStart2("3") == "03" && PadStart2("5") == "05";
    assert "2024" + "-" + "03" + "-" + "05" == "2024-03-05";
  }

  /** The items of the list: comma-split, trimmed, blanks dropped. */
  function NonBlankItems(parts: seq<string>): (r: seq<string>)
    ensures |r| <= |parts|
    ensures forall x :: x in r ==> x != "" && Trim(x, JavaScript) == x
    decreases |parts|
  {
    if parts == [] then []
    else
      var t := Trim(parts[0], JavaScript);
      if t == "" then NonBlankItems(parts[1..])
      else
        TrimUnpadded(t, JavaScript);
        [t] + NonBlankItems(parts[1..])
  }

  /** Items are kept part by part: concatenated parts give concatenated items. */
  lemma {:induction false} NonBlankItemsAppend(a: seq<string>, b: seq<string>)
    ensures NonBlankItems(a + b) == NonBlankItems(a) + NonBlankItems(b)
    decreases |a|
  {
    if a != [] {
      assert (a + b)[0] == a[0];
      assert (a + b)[1..] == a[1..] + b;
      NonBlankItemsAppend(a[1..], b);
    } else {
      assert a + b == b;
    }
  }

  /** An item is kept exactly when it is the non-blank trim of some part. */
  lemma {:induction false} NonBlankItemsMembers(parts: seq<string>, x: string)
    ensures x in NonBlankItems(parts) <==> x != "" && exists i :: 0 <= i < |parts| && Trim(parts[i], JavaScript) == x
    decreases |parts|
  {
    if parts != [] {
      NonBlankItemsMembers(parts[1..], x);
      if exists i :: 0 <= i < |parts[1..]| && Trim(parts[1..][i], JavaScript) == x {
        var i :| 0 <= i < |parts[1..]| && Trim(parts[1..][i], JavaScript) == x;
        assert Trim(parts[i + 1], JavaScript) == x;
      }
      if exists i :: 0 <= i < |parts| && Trim(parts[i], JavaScript) == x {
        var i :| 0 <= i < |parts| && Trim(parts[i], JavaScript) == x;
        if i > 0 { assert Trim(parts[1..][i - 1], JavaScript) == x; }
      }
    }
  }

  /** The dates the `forEach` collects, in input order. */
  function IsoDates(items: seq<string>): (r: seq<string>)
    ensures |r| <= |items|
    ensures forall v :: v in r ==> IsIsoShape(v)
  {
    if items == [] then []
    else match ConvertItem(items[0])
      case Some(v) => [v] + IsoDates(items[1..])
      case None => IsoDates(items[1..])
  }

  /** The collection is done item by item: concatenated lists give
      concatenated dates, so the order of the input is kept. */
  lemma {:induction false} IsoDatesAppend(a: seq<string>, b: seq<string>)
    ensures IsoDates(a + b) == IsoDates(a) + IsoDates(b)
    decreases |a|
  {
    if a != [] {
      assert (a + b)[0] == a[0];
      assert (a + b)[1..] == a[1..] + b;
      IsoDatesAppend(a[1..], b);
      match ConvertItem(a[0])
      case Some(v) =>
        assert IsoDates(a + b) == [v] + IsoDates(a[1..] + b);
        assert IsoDates(a) == [v] + IsoDates(a[1..]);
      case None =>
        assert IsoDates(a + b) == IsoDates(a[1..] + b);
    } else {
      assert a + b == b;
    }
  }

  /** A date is collected exactly when some item converts to it. */
  lemma {:induction false} IsoDatesMembers(items: seq<string>, v: string)
    ensures v in IsoDates(items) <==> exists i :: 0 <= i < |items| && ConvertItem(items[i]) == Some(v)
    decreases |items|
  {
    if items != [] {
      IsoDatesMembers(items[1..], v);
      if exists i :: 0 <= i < |items[1..]| && ConvertItem(items[1..][i]) == Some(v) {
        var i :| 0 <= i < |items[1..]| && ConvertItem(items[1..][i]) == Some(v);
        assert ConvertItem(items[i + 1]) == Some(v);
      }
      if exists i :: 0 <= i < |items| && ConvertItem(items[i]) == Some(v) {
        var i :| 0 <= i < |items| && ConvertItem(items[i]) == Some(v);
        if i > 0 { assert ConvertItem(items[1..][i - 1]) == Some(v); }
      }
    }
  }

  /** `JSON.stringify` of a list of strings without quotes or backslashes. */
  function JsonStringArray(values: seq<string>): (r: string)
    ensures |r| >= 2 && r[0] == '[' && r[|r| - 1] == ']'
  {
    var quoted := seq(|values|, i requires 0 <= i < |values| => "\"" + values[i] + "\"");
    "[" + Join(quoted, ",") + "]"
  }

  /** The dates the hidden field receives from the visible text. */
  function ExcludedDates(display: string): seq<string> {
    IsoDates(NonBlankItems(Split(Trim(display, JavaScript), ',')))
  }

  /** `syncQuickExcludedDates`: the hidden field gets '' for a blank text or
      when no item is a date, and the JSON list of the dates otherwise. */
  function SyncQuickExcludedDates(display: string): (r: string)
    ensures Trim(display, JavaScript) == "" ==> r == ""
    ensures r == "" <==> ExcludedDates(display) == []
    ensures r != "" ==> r == JsonStringArray(ExcludedDates(display))
  {
    var raw := Trim(display, JavaScript);
    var dates := IsoDates(NonBlankItems(Split(raw, ',')));
    assert dates == ExcludedDates(display);
    if raw == "" then
      assert Split(raw, ',') == [""];
      assert |NonBlankItems([""])| == 0 by { assert Trim("", JavaScript) == ""; }
      ""
    else if dates == [] then ""
    else JsonStringArray(dates)
  }

  // --------------------------------------------------- date-time for input

  /** `formatDateForInput`: `YYYY-MM-DDTHH:MM` from the browser's local
      date fields; the month index counts from 0, and all fields but the
      year are padded to two digits. */
  function FormatDateForInput(year: nat, monthIndex: nat, day: nat, hours: nat, minutes: nat): (r: string)
    requires monthIndex < 12 && 1 <= day <= 31 && hours < 24 && minutes < 60
    ensures var y := |NatToString(year)|;
      |r| == y + 12 && r[..y] == NatToString(year)
      && r[y] == '-' && r[y + 3] == '-' && r[y + 6] == 'T' && r[y + 9] == ':'
  {
    var mo, d, h, mi := PadStart2(NatToString(monthIndex + 1)), PadStart2(NatToString(day)),
                        PadStart2(NatToString(hours)), PadStart2(NatToString(minutes));
    PadStart2Value(monthIndex + 1);
    PadStart2Value(day);
    PadStart2Value(hours);
    PadStart2Value(minutes);
    DateTimeShape(NatToString(year), mo, d, h, mi);
    NatToString(year) + "-" + mo + "-" + d + "T" + h + ":" + mi
  }

  /** Where the separators of `Y-MO-DTH:MI` fall when every field but the
      year has two characters. */
  lemma DateTimeShape(y: string, mo: string, d: string, h: string, mi: string)
    requires |mo| == 2 && |d| == 2 && |h| == 2 && |mi| == 2
    ensures var r := y + "-" + mo + "-" + d + "T" + h + ":" + mi;
      |r| == |y| + 12 && r[..|y|] == y
      && r[|y|] == '-' && r[|y| + 3] == '-' && r[|y| + 6] == 'T' && r[|y| + 9] == ':'
  {
  }

  /** A slice of the second part of a concatenation. */
  lemma SliceOfTail(p: string, q: string, i: nat, j: nat)
    requires i <= j <= |q|
    ensures (p + q)[|p| + i..|p| + j] == q[i..j]
  {
  }

  /** Where the pieces of `Y-MM-DDTHH:MM` sit. */
  lemma {:induction false} PiecesOf(ys: string, m: string, d: string, h: string, mi: string)
    requires |m| == 2 && |d| == 2 && |h| == 2 && |mi| == 2
    ensures var r := ys + "-" + m + "-" + d + "T" + h + ":" + mi;
      var y := |ys|;
      r[..y] == ys && r[y + 1..y + 3] == m && r[y + 4..y + 6] == d && r[y + 7..y + 9] == h && r[y + 10..y + 12] == mi
  {
    var t6 := ":" + mi;
    var t5 := h + t6;
    var t4 := "T" + t5;
    var t3 := d + t4;
    var t2 := "-" + t3;
    var t1 := m + t2;
    var t0 := "-" + t1;
    var y := |ys|;
    assert ys + "-" + m + "-" + d + "T" + h + ":" + mi == ys + t0;
    SliceOfTail(ys, t0, 1, 3);
    SliceOfTail("-", t1, 0, 2);
    assert t1[0..2] == m;
    SliceOfTail(ys, t0, 4, 6);
    SliceOfTail("-", t1, 3, 5);
    SliceOfTail(m, t2, 1, 3);
    SliceOfTail("-", t3, 0, 2);
    assert t3[0..2] == d;
    SliceOfTail(ys, t0, 7, 9);
    SliceOfTail("-", t1, 6, 8);
    SliceOfTail(m, t2, 4, 6);
    SliceOfTail("-", t3, 3, 5);
    SliceOfTail(d, t4, 1, 3);
    SliceOfTail("T", t5, 0, 2);
    assert t5[0..2] == h;
    SliceOfTail(ys, t0, 10, 12);
    SliceOfTail("-", t1, 9, 11);
    SliceOfTail(m, t2, 7, 9);
    SliceOfTail("-", t3, 6, 8);
    SliceOfTail(d, t4, 4, 6);
    SliceOfTail("T", t5, 3, 5);
    SliceOfTail(h, t6, 1, 3);
    assert t6[1..3] == mi;
  }

  /** The fields of the text are the year's digits and the two-digit,
      zero-padded month (counted from 1), day, hours and minutes, so each
      reads back as its number (`ParseNatToString`, `PadStart2Value`). */
  lemma FormatDateForInputFields(year: nat, monthIndex: nat, day: nat, hours: nat, minutes: nat)
    requires monthIndex < 12 && 1 <= day <= 31 && hours < 24 && minutes < 60
    ensures var r := FormatDateForInput(year, monthIndex, day, hours, minutes);
      var y := |NatToString(year)|;
      |r| == y + 12 && r[..y] == NatToString(year)
      && r[y + 1..y + 3] == PadStart2(NatToString(monthIndex + 1)) && r[y + 4..y + 6] == PadStart2(NatToString(day))
      && r[y + 7..y + 9] == PadStart2(NatToString(hours)) && r[y + 10..y + 12] == PadStart2(NatToString(minutes))
  {
    var ys := NatToString(year);
    var m, d := PadStart2(NatToString(monthIndex + 1)), PadStart2(NatToString(day));
    var h, mi := PadStart2(NatToString(hours)), PadStart2(NatToString(minutes));
    PadStart2Length(monthIndex + 1);
    PadStart2Length(day);
    PadStart2Length(hours);
    PadStart2Length(minutes);
    assert FormatDateForInput(year, monthIndex, day, hours, minutes) == ys + "-" + m + "-" + d + "T" + h + ":" + mi;
    PiecesOf(ys, m, d, h, mi);
  }

  // ------------------------------------------------------------ page state

  const WidthModes: seq<string> := ["standard", "wide", "fullscreen"]
  const AllowedViews: seq<string> := ["dayGridMonth", "timeGridWeek", "timeGridDay", "timeGridThreeDay"]
  const MonthView: string := "dayGridMonth"
  const DefaultCopyTitle: string := "Бронирование"

  /** `toggleCalendarWidth`: standard → wide → fullscreen → standard; any
      other value goes back to standard. */
  function NextWidth(mode: string): (r: string)
    ensures r in WidthModes
  {
    if mode == "standard" then "wide"
    else if mode == "wide" then "fullscreen"
    else "standard"
  }

  /** Three toggles bring an allowed mode back to itself, and no fewer do. */
  lemma WidthCycle(mode: string)
    requires mode in WidthModes
    ensures NextWidth(NextWidth(NextWidth(mode))) == mode
    ensures NextWidth(mode) != mode && NextWidth(NextWidth(mode)) != mode
  {
  }

  /** A stored preference is adopted only when it is one of the allowed values. */
  function Adopted(saved: Option<string>, allowed: seq<string>, current: string): (r: string)
    ensures r == current || (saved.Some? && r == saved.value && r in allowed)
    ensures saved.Some? && saved.value != "" && saved.value in allowed ==> r == saved.value
    ensures saved.None? || saved.value == "" || saved.value !in allowed ==> r == current
  {
    if saved.Some? && saved.value != "" && saved.value in allowed then saved.value else current
  }

  /** A booking copied with Ctrl/⌘+C. */
  datatype CopiedBooking = CopiedBooking(bookingId: string, title: string, startHours: nat, startMinutes: nat, copiedAt: int)

  /** A calendar event under the pointer; `start` is local absolute minutes. */
  datatype CalendarEvent = CalendarEvent(id: string, title: string, eventType: string, seriesId: Option<Id>, start: Option<int>)

  /** What a key press leads to. */
  datatype ShortcutOutcome =
    | Ignored
    | BufferCleared
    | Copied
    | SeriesNotCopied
    | PasteWithoutBuffer
    | PasteWithoutSlot
    | Paste(bookingId: string, target: int)

  /** The buffer a copy of `ev` at time `now` fills. */
  function CopyOf(ev: CalendarEvent, now: int): (c: CopiedBooking)
    ensures c.bookingId == ev.id && c.startHours < 24 && c.startMinutes < 60
    ensures ev.start.Some? ==> c.startHours * 60 + c.startMinutes == MinuteOfDay(ev.start.value)
  {
    CopiedBooking(ev.id, if ev.title == "" then DefaultCopyTitle else ev.title,
                  if ev.start.Some? then MinuteOfDay(ev.start.value) / 60 else 0,
                  if ev.start.Some? then MinuteOfDay(ev.start.value) % 60 else 0,
                  now)
  }

  /** `handleCopyPasteShortcut` as a function of the page state and the key
      event: the outcome and the new copy buffer. */
  function ShortcutStep(enabled: bool, buffer: Option<CopiedBooking>, hovered: Option<CalendarEvent>,
                        lastSlot: Option<int>, key: string, modifier: bool, shift: bool, alt: bool,
                        typing: bool, now: int): (ShortcutOutcome, Option<CopiedBooking>)
  {
    var k := ToLower(key);
    if !enabled || typing then (Ignored, buffer)
    else if k == "escape" && buffer.Some? then (BufferCleared, None)
    else if !modifier then (Ignored, buffer)
    else if !shift && !alt && k == "c" then
      if hovered.None? || hovered.value.eventType != "booking" then (Ignored, buffer)
      else if hovered.value.seriesId.Some? then (SeriesNotCopied, buffer)
      else (Copied, Some(CopyOf(hovered.value, now)))
    else if !shift && !alt && k == "v" then
      if buffer.None? then (PasteWithoutBuffer, buffer)
      else if lastSlot.None? then (PasteWithoutSlot, buffer)
      else (Paste(buffer.value.bookingId, lastSlot.value), buffer)
    else (Ignored, buffer)
  }

  /** Only Escape and a copy change the buffer; a series booking is never copied. */
  lemma ShortcutBuffer(enabled: bool, buffer: Option<CopiedBooking>, hovered: Option<CalendarEvent>,
                       lastSlot: Option<int>, key: string, modifier: bool, shift: bool, alt: bool,
                       typing: bool, now: int)
    ensures var (outcome, next) := ShortcutStep(enabled, buffer, hovered, lastSlot, key, modifier, shift, alt, typing, now);
      (next != buffer ==> outcome == BufferCleared || outcome == Copied)
      && (outcome == BufferCleared ==> buffer.Some? && next.None?)
      && (outcome == Copied ==> hovered.Some? && hovered.value.seriesId.None? && next == Some(CopyOf(hovered.value, now)))
      && (hovered.Some? && hovered.value.seriesId.Some? ==> next == buffer || next.None?)
  {
  }

  /** A paste is requested only with both a buffer and a selected slot, and
      it pastes the buffered booking at that slot. */
  lemma PasteNeedsBufferAndSlot(enabled: bool, buffer: Option<CopiedBooking>, hovered: Option<CalendarEvent>,
                                lastSlot: Option<int>, key: string, modifier: bool, shift: bool, alt: bool,
                                typing: bool, now: int)
    ensures var (outcome, _) := ShortcutStep(enabled, buffer, hovered, lastSlot, key, modifier, shift, alt, typing, now);
      outcome.Paste? ==> (enabled && modifier && buffer.Some? && lastSlot.Some?
        && outcome == Paste(buffer.value.bookingId, lastSlot.value))
  {
  }

  /** Escape with a full buffer empties it, with or without a modifier. */
  lemma EscapeClears(buffer: CopiedBooking, hovered: Option<CalendarEvent>, lastSlot: Option<int>,
                     modifier: bool, shift: bool, alt: bool, now: int)
    ensures ShortcutStep(true, Some(buffer), hovered, lastSlot, "Escape", modifier, shift, alt, false, now) == (BufferCleared, None)
  {
    assert ToLower("Escape") == "escape";
  }

  /** The slot a click selects: in the month view the day at the copied
      time when a copy is pending, else at 09:00; in the time views the
      clicked time itself. */
  function ClickTarget(view: string, date: int, enabled: bool, buffer: Option<CopiedBooking>): (t: int)
    ensures view == MonthView && !(enabled && buffer.Some?) ==> MinuteOfDay(t) == 9 * 60 && DayOf(t) == DayOf(date)
    ensures view == MonthView && enabled && buffer.Some? && buffer.value.startHours < 24 && buffer.value.startMinutes < 60 ==>
      MinuteOfDay(t) == buffer.value.startHours * 60 + buffer.value.startMinutes && DayOf(t) == DayOf(date)
    ensures view != MonthView ==> t == date
  {
    if view == MonthView then
      if enabled && buffer.Some? then DayOf(date) * MinutesPerDay + buffer.value.startHours * 60 + buffer.value.startMinutes
      else DayOf(date) * MinutesPerDay + 9 * 60
    else date
  }

  /** What a click on a free slot does. */
  datatype ClickAction = PasteAt(bookingId: string, target: int) | OpenQuickBooking(target: int)

  class CalendarState {
    var widthMode: string
    var storedWidth: Option<string>
    var view: string
    var currentDate: Option<int>
    var copyEnabled: bool
    var buffer: Option<CopiedBooking>
    var hovered: Option<CalendarEvent>
    var lastSlot: Option<int>

    /** The initial page state. */
    constructor(copyEnabled: bool)
      ensures widthMode == "standard" && view == "timeGridDay" && this.copyEnabled == copyEnabled
      ensures storedWidth.None? && currentDate.None? && buffer.None? && hovered.None? && lastSlot.None?
    {
      widthMode := "standard";
      storedWidth := None;
      view := "timeGridDay";
      currentDate := None;
      this.copyEnabled := copyEnabled;
      buffer := None;
      hovered := None;
      lastSlot := None;
    }

    /** `toggleCalendarWidth`, with the new mode saved. */
    method ToggleWidth()
      modifies this`widthMode, this`storedWidth
      ensures widthMode == NextWidth(old(widthMode)) && storedWidth == Some(widthMode)
    {
      if widthMode == "standard" {
        widthMode := "wide";
      } else if widthMode == "wide" {
        widthMode := "fullscreen";
      } else {
        widthMode := "standard";
      }
      storedWidth := Some(widthMode);
    }

    /** `restoreWidthMode` from the saved preference. */
    method RestoreWidthMode()
      modifies this`widthMode
      ensures widthMode == Adopted(storedWidth, WidthModes, old(widthMode))
    {
      if storedWidth.Some? && storedWidth.value != "" && storedWidth.value in WidthModes {
        widthMode := storedWidth.value;
      }
    }

    /** `restoreViewState`: a saved view is adopted when allowed; a saved date
      is adopted when it parsed (`savedDate` is the parsed value). */
    method RestoreViewState(savedView: Option<string>, savedDate: Option<int>)
      modifies this`view, this`currentDate
      ensures view == Adopted(savedView, AllowedViews, old(view))
      ensures currentDate == if savedDate.Some? then savedDate else old(currentDate)
    {
      if savedView.Some? && savedView.value != "" && savedView.value in AllowedViews {
        view := savedView.value;
      }
      if savedDate.Some? {
        currentDate := savedDate;
      }
    }

    /** The pointer enters a booking event. */
    method MouseEnter(ev: CalendarEvent)
      modifies this`hovered
      ensures hovered == if copyEnabled && ev.eventType == "booking" then Some(ev) else old(hovered)
    {
      if !copyEnabled {
        return;
      }
      if ev.eventType != "booking" {
        return;
      }
      hovered := Some(ev);
    }

    /** The pointer leaves an event. */
    method MouseLeave(ev: CalendarEvent)
      modifies this`hovered
      ensures hovered == if copyEnabled && old(hovered).Some? && old(hovered).value.id == ev.id then None else old(hovered)
    {
      if !copyEnabled {
        return;
      }
      if hovered.Some? && hovered.value.id == ev.id {
        hovered := None;
      }
    }

    /** `handleCopyPasteShortcut`. */
    method HandleCopyPasteShortcut(key: string, modifier: bool, shift: bool, alt: bool, typing: bool, now: int)
      returns (outcome: ShortcutOutcome)
      modifies this`buffer
      ensures (outcome, buffer) == ShortcutStep(copyEnabled, old(buffer), hovered, lastSlot, key, modifier, shift, alt, typing, now)
    {
      if !copyEnabled || typing {
        return Ignored;
      }
      var k := ToLower(key);
      if k == "escape" && buffer.Some? {
        buffer := None;
        return BufferCleared;
      }
      if !modifier {
        return Ignored;
      }
      if !shift && !alt && k == "c" {
        if hovered.None? || hovered.value.eventType != "booking" {
          return Ignored;
        }
        if hovered.value.seriesId.Some? {
          return SeriesNotCopied;
        }
        buffer := Some(CopyOf(hovered.value, now));
        return Copied;
      }
      if !shift && !alt && k == "v" {
        if buffer.None? {
          return PasteWithoutBuffer;
        }
        if lastSlot.None? {
          return PasteWithoutSlot;
        }
        return Paste(buffer.value.bookingId, lastSlot.value);
      }
      return Ignored;
    }

    /** `dateClick`: the slot is remembered; with a pending copy it is pasted
      there, otherwise the quick booking form opens for it. */
    method DateClick(viewType: string, date: int) returns (action: ClickAction)
      modifies this`lastSlot
      ensures lastSlot == Some(ClickTarget(viewType, date, copyEnabled, buffer))
      ensures action == if copyEnabled && buffer.Some? then PasteAt(buffer.value.bookingId, lastSlot.value)
                        else OpenQuickBooking(lastSlot.value)
    {
      var target := date;
      if viewType == MonthView {
        if copyEnabled && buffer.Some? {
          target := DayOf(date) * MinutesPerDay + buffer.value.startHours * 60 + buffer.value.startMinutes;
        } else {
          target := DayOf(date) * MinutesPerDay + 9 * 60;
        }
      }
      lastSlot := Some(target);
      if copyEnabled && buffer.Some? {
        return PasteAt(buffer.value.bookingId, target);
      }
      return OpenQuickBooking(target);
    }
  }

  /** A toggled width survives a reload: restoring the saved mode gives the
      mode the toggle chose. */
  lemma ToggledWidthRestores(mode: string, current: string)
    ensures Adopted(Some(NextWidth(mode)), WidthModes, current) == NextWidth(mode)
  {
  }
}
