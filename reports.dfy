/** The guest report page: the duration text of the load columns and the
    client-side merge of several checked guests into one summary row. */
module Reports {
  import opened Common
  import opened Text
  import opened Sorting

  // -------------------------------------------------------------- duration

  /** Decimal text of an integer, with a minus sign when negative. */
  function IntText(n: int): (r: string)
    ensures n >= 0 ==> r == NatToString(n)
  {
    if n < 0 then "-" + NatToString(-n) else NatToString(n)
  }

  /** `formatDuration`: below an hour "M мин"; otherwise "H ч", followed by
      " M мин" when the minutes are not zero. */
  function FormatDuration(minutes: int): (r: string)
  {
    if minutes >= 60 then
      var h := minutes / 60;
      var m := minutes % 60;
      if m != 0 then IntText(h) + " ч " + IntText(m) + " мин" else IntText(h) + " ч"
    else IntText(minutes) + " мин"
  }

  /** Reads a duration text back: "M мин", "H ч" or "H ч M мин". */
  function ParseDuration(s: string): (r: Option<int>)
  {
    var w := Split(s, ' ');
    if |w| == 2 && AllDigits(w[0]) && w[0] != "" && w[1] == "мин" then Some(ParseNat(w[0]))
    else if |w| == 2 && AllDigits(w[0]) && w[0] != "" && w[1] == "ч" then Some(60 * ParseNat(w[0]))
    else if |w| == 4 && AllDigits(w[0]) && w[0] != "" && w[1] == "ч" && AllDigits(w[2]) && w[2] != "" && w[3] == "мин"
    then Some(60 * ParseNat(w[0]) + ParseNat(w[2]))
    else None
  }

  lemma DigitsNoSpace(s: string)
    requires AllDigits(s)
    ensures ' ' !in s
  {
    forall i | 0 <= i < |s| ensures s[i] != ' ' {
      assert IsDigit(s[i]);
    }
  }

  lemma SplitUnits()
    ensures Split("мин", ' ') == ["мин"] && Split("ч", ' ') == ["ч"]
  {
    SplitNoSeparator("мин", ' ');
    SplitNoSeparator("ч", ' ');
  }

  /** The words of "M мин". */
  lemma MinutesWords(a: string)
    requires AllDigits(a)
    ensures Split(a + " мин", ' ') == [a, "мин"]
  {
    DigitsNoSpace(a);
    SplitUnits();
    SplitAfterWord(a, ' ', "мин");
    assert a + " мин" == a + [' '] + "мин";
  }

  /** The words of "H ч". */
  lemma HoursWords(a: string)
    requires AllDigits(a)
    ensures Split(a + " ч", ' ') == [a, "ч"]
  {
    DigitsNoSpace(a);
    SplitUnits();
    SplitAfterWord(a, ' ', "ч");
    assert a + " ч" == a + [' '] + "ч";
  }

  /** The words of "H ч M мин". */
  lemma HoursMinutesWords(a: string, b: string)
    requires AllDigits(a) && AllDigits(b)
    ensures Split(a + " ч " + b + " мин", ' ') == [a, "ч", b, "мин"]
  {
    DigitsNoSpace(a);
    MinutesWords(b);
    var tail := b + " мин";
    assert Split("ч" + [' '] + tail, ' ') == ["ч"] + Split(tail, ' ') by {
      SplitAfterWord("ч", ' ', tail);
    }
    SplitAfterWord(a, ' ', "ч" + [' '] + tail);
    assert a + " ч " + b + " мин" == a + [' '] + ("ч" + [' '] + tail);
  }

  lemma ParseMinutesText(a: string)
    requires AllDigits(a) && a != ""
    ensures ParseDuration(a + " мин") == Some(ParseNat(a))
  {
    MinutesWords(a);
  }

  lemma ParseHoursText(a: string)
    requires AllDigits(a) && a != ""
    ensures ParseDuration(a + " ч") == Some(60 * ParseNat(a))
  {
    HoursWords(a);
    var w := Split(a + " ч", ' ');
    assert w[1] == "ч";
    assert w[1] != "мин" by { assert |"ч"| != |"мин"|; }
  }

  lemma ParseHoursMinutesText(a: string, b: string)
    requires AllDigits(a) && a != "" && AllDigits(b) && b != ""
    ensures ParseDuration(a + " ч " + b + " мин") == Some(60 * ParseNat(a) + ParseNat(b))
  {
    HoursMinutesWords(a, b);
    var w := Split(a + " ч " + b + " мин", ' ');
    assert |w| == 4 && w[0] == a && w[1] == "ч" && w[2] == b && w[3] == "мин";
  }

  /** The text gives back the number of minutes it was made from. */
  lemma FormatDurationRoundTrip(minutes: nat)
    ensures ParseDuration(FormatDuration(minutes)) == Some(minutes)
  {
    var h, m := minutes / 60, minutes % 60;
    assert minutes == 60 * h + m;
    if minutes < 60 {
      assert FormatDuration(minutes) == NatToString(minutes) + " мин";
      ParseNatToString(minutes);
      ParseMinutesText(NatToString(minutes));
    } else if m == 0 {
      assert FormatDuration(minutes) == NatToString(h) + " ч";
      ParseNatToString(h);
      ParseHoursText(NatToString(h));
    } else {
      assert FormatDuration(minutes) == NatToString(h) + " ч " + NatToString(m) + " мин";
      ParseNatToString(h);
      ParseNatToString(m);
      ParseHoursMinutesText(NatToString(h), NatToString(m));
    }
  }

  /** The text has the minutes part exactly when the duration is not a
      whole number of hours, and the hours part exactly from one hour on. */
  lemma FormatDurationParts(minutes: nat)
    ensures var w := Split(FormatDuration(minutes), ' ');
      (minutes < 60 ==> |w| == 2 && w[1] == "мин")
      && (minutes >= 60 && minutes % 60 == 0 ==> |w| == 2 && w[1] == "ч")
      && (minutes >= 60 && minutes % 60 != 0 ==> |w| == 4 && w[1] == "ч" && w[3] == "мин")
  {
    if minutes < 60 {
      MinutesWords(NatToString(minutes));
    } else if minutes % 60 == 0 {
      HoursWords(NatToString(minutes / 60));
    } else {
      HoursMinutesWords(NatToString(minutes / 60), NatToString(minutes % 60));
    }
  }

  // ---------------------------------------------------------- merge button

  /** `toggleMergeButton`: the button is shown from two checked guests on. */
  predicate MergeButtonVisible(checkedCount: nat) {
    checkedCount >= 2
  }

  // ---------------------------------------------------------- merged guest

  /** One booking of a guest in the page's embedded data. Missing text is "";
      a duration that does not parse as an integer is None. */
  datatype ReportBooking = ReportBooking(date: string, time: string, roomNumber: string, serviceName: string,
                                         durationMinutes: Option<int>)

  /** The summary row of the merged guests (amounts are left out). */
  datatype MergedGuest = MergedGuest(name: string, bookings: seq<ReportBooking>, visitCount: nat, totalMinutes: int,
                                     firstDate: Option<string>, lastDate: Option<string>, rooms: seq<string>,
                                     services: seq<string>)

  /** `data[n] || []`. */
  function RowsOf(data: map<string, seq<ReportBooking>>, name: string): seq<ReportBooking> {
    if name in data then data[name] else []
  }

  /** The bookings of the checked guests, guest after guest. */
  function Gathered(names: seq<string>, data: map<string, seq<ReportBooking>>): (r: seq<ReportBooking>)
    decreases |names|
  {
    if names == [] then [] else Gathered(names[..|names| - 1], data) + RowsOf(data, names[|names| - 1])
  }

  /** A booking is gathered exactly when it belongs to one of the checked guests. */
  lemma {:induction false} GatheredMembers(names: seq<string>, data: map<string, seq<ReportBooking>>, b: ReportBooking)
    ensures b in Gathered(names, data) <==> exists n :: n in names && b in RowsOf(data, n)
    decreases |names|
  {
    if names != [] {
      var init := names[..|names| - 1];
      GatheredMembers(init, data, b);
      assert forall n :: n in names <==> n in init || n == names[|names| - 1] by {
        assert names == init + [names[|names| - 1]];
      }
    }
  }

  /** `parseInt(b.duration_minutes, 10) || 0`. */
  function DurationOf(b: ReportBooking): int {
    if b.durationMinutes.Some? then b.durationMinutes.value else 0
  }

  function SumDurations(rows: seq<ReportBooking>): int
    decreases |rows|
  {
    if rows == [] then 0 else DurationOf(rows[0]) + SumDurations(rows[1..])
  }

  /** The non-empty room numbers in order, repeats kept. */
  function RoomsIn(rows: seq<ReportBooking>): seq<string>
    decreases |rows|
  {
    if rows == [] then []
    else
      var b := rows[|rows| - 1];
      RoomsIn(rows[..|rows| - 1]) + (if b.roomNumber != "" then [b.roomNumber] else [])
  }

  /** The rooms listed are exactly the non-empty room numbers of the bookings. */
  lemma {:induction false} RoomsInMembers(rows: seq<ReportBooking>)
    ensures forall x :: x in RoomsIn(rows) <==> exists b :: b in rows && b.roomNumber == x && x != ""
    decreases |rows|
  {
    if rows != [] {
      var init := rows[..|rows| - 1];
      var b := rows[|rows| - 1];
      assert rows == init + [b];
      RoomsInMembers(init);
    }
  }

  /** The service names in order, repeats kept. */
  function ServiceList(rows: seq<ReportBooking>): (r: seq<string>)
    ensures |r| == |rows| && forall i :: 0 <= i < |rows| ==> r[i] == rows[i].serviceName
  {
    seq(|rows|, i requires 0 <= i < |rows| => rows[i].serviceName)
  }

  /** No text occurs twice. */
  predicate NoRepeats(s: seq<string>) {
    forall i, j :: 0 <= i < j < |s| ==> s[i] != s[j]
  }

  /** The listed services are those of the bookings. */
  lemma ServiceListMembers(rows: seq<ReportBooking>)
    ensures forall x :: x in ServiceList(rows) <==> exists b :: b in rows && b.serviceName == x
  {
    var list := ServiceList(rows);
    forall x ensures x in list <==> exists b :: b in rows && b.serviceName == x {
      if x in list {
        var k :| 0 <= k < |list| && list[k] == x;
        assert rows[k] in rows;
      }
      if exists b :: b in rows && b.serviceName == x {
        var b :| b in rows && b.serviceName == x;
        var k :| 0 <= k < |rows| && rows[k] == b;
        assert list[k] == x;
      }
    }
  }

  /** Repeats dropped, first occurrences kept in order (`new Set(...)` and
      the key order of a plain object). */
  function Dedup(s: seq<string>): seq<string>
    decreases |s|
  {
    if s == [] then []
    else
      var d := Dedup(s[..|s| - 1]);
      if s[|s| - 1] in d then d else d + [s[|s| - 1]]
  }

  /** Every text is kept once and only once. */
  lemma {:induction false} DedupMeaning(s: seq<string>)
    ensures forall x :: x in Dedup(s) <==> x in s
    ensures NoRepeats(Dedup(s))
    decreases |s|
  {
    if s != [] {
      var init := s[..|s| - 1];
      var x := s[|s| - 1];
      assert s == init + [x];
      DedupMeaning(init);
      var d := Dedup(init);
      if x !in d {
        var r := d + [x];
        forall i, j | 0 <= i < j < |r| ensures r[i] != r[j] {
          if j == |d| { assert r[i] == d[i]; } else { assert r[i] == d[i] && r[j] == d[j]; }
        }
      }
    }
  }

  /** `filter(Boolean)` on strings: the empty ones are dropped. */
  function NonEmpty(s: seq<string>): (r: seq<string>)
    ensures forall x :: x in r <==> x in s && x != ""
    decreases |s|
  {
    if s == [] then []
    else (if s[0] != "" then [s[0]] else []) + NonEmpty(s[1..])
  }

  /** Filtering keeps a list without repeats free of repeats. */
  lemma {:induction false} NonEmptyDistinct(s: seq<string>)
    requires NoRepeats(s)
    ensures NoRepeats(NonEmpty(s))
    decreases |s|
  {
    if s != [] {
      var t := s[1..];
      assert NoRepeats(t) by {
        forall i, j | 0 <= i < j < |t| ensures t[i] != t[j] {
          assert t[i] == s[i + 1] && t[j] == s[j + 1];
        }
      }
      NonEmptyDistinct(t);
      assert s[0] !in t by {
        forall k | 0 <= k < |t| ensures t[k] != s[0] {
          assert t[k] == s[k + 1];
        }
      }
      var rest := NonEmpty(t);
      assert s[0] !in rest;
      if s[0] != "" {
        var r := [s[0]] + rest;
        assert NonEmpty(s) == r;
        forall i, j | 0 <= i < j < |r| ensures r[i] != r[j] {
          assert r[j] == rest[j - 1] && rest[j - 1] in rest;
          if i > 0 { assert r[i] == rest[i - 1]; }
        }
      } else {
        assert NonEmpty(s) == [] + rest;
        assert [] + rest == rest;
      }
    }
  }

  /** `Array.from(new Set(rooms)).filter(Boolean)`. */
  function DistinctRooms(rooms: seq<string>): (r: seq<string>)
    ensures forall x :: x in r <==> x in rooms && x != ""
    ensures NoRepeats(r)
  {
    DedupMeaning(rooms);
    NonEmptyDistinct(Dedup(rooms));
    NonEmpty(Dedup(rooms))
  }

  /** `Object.keys(allServices).sort()`: the keys in code-unit order. */
  function SortedServices(keys: seq<string>): (r: seq<string>)
    requires NoRepeats(keys)
    ensures forall x :: x in r <==> x in keys
    ensures SortedBy(r, CodePoints) && DistinctBy(r, (x: string) => x)
  {
    SortBySorted(keys, CodePoints);
    SortByMembers(keys, CodePoints);
    assert DistinctBy(keys, (x: string) => x);
    SortByDistinct(keys, CodePoints, (x: string) => x);
    SortBy(keys, CodePoints)
  }

  /** The key the merged bookings are sorted by: date, 'T', and the time or
      midnight when there is none. */
  function SortKey(b: ReportBooking): seq<int> {
    CodePoints(b.date + "T" + (if b.time == "" then "00:00" else b.time))
  }

  /** String order by code units, as JavaScript's `<` on strings. */
  predicate StrLe(a: string, b: string) {
    LexLe(CodePoints(a), CodePoints(b))
  }

  /** The non-empty dates of some bookings. */
  function DatesIn(rows: seq<ReportBooking>): set<string> {
    set b | b in rows && b.date != "" :: b.date
  }

  /** One more booking adds its room (when it has one) and its service (when
      new) at the end. */
  lemma CollectStep(all: seq<ReportBooking>, b: ReportBooking)
    ensures RoomsIn(all + [b]) == RoomsIn(all) + (if b.roomNumber != "" then [b.roomNumber] else [])
    ensures var keys := Dedup(ServiceList(all));
      Dedup(ServiceList(all + [b])) == if b.serviceName in keys then keys else keys + [b.serviceName]
  {
    assert (all + [b])[..|all|] == all;
    assert ServiceList(all + [b]) == ServiceList(all) + [b.serviceName];
    assert ServiceList(all + [b])[..|all|] == ServiceList(all);
  }

  lemma PrefixStep<T>(s: seq<T>, j: nat)
    requires j < |s|
    ensures s[..j + 1] == s[..j] + [s[j]]
  {
  }

  /** The inner loop of the collection: one guest's bookings are appended,
      with their rooms and their new services. */
  method AppendRows(all: seq<ReportBooking>, rooms: seq<string>, serviceKeys: seq<string>, list: seq<ReportBooking>)
    returns (all': seq<ReportBooking>, rooms': seq<string>, serviceKeys': seq<string>)
    requires rooms == RoomsIn(all) && serviceKeys == Dedup(ServiceList(all))
    ensures all' == all + list
    ensures rooms' == RoomsIn(all') && serviceKeys' == Dedup(ServiceList(all'))
  {
    all', rooms', serviceKeys' := all, rooms, serviceKeys;
    var j := 0;
    while j < |list|
      invariant 0 <= j <= |list|
      invariant all' == all + list[..j]
      invariant rooms' == RoomsIn(all') && serviceKeys' == Dedup(ServiceList(all'))
    {
      var b := list[j];
      CollectStep(all', b);
      PrefixStep(list, j);
      all' := all' + [b];
      if b.roomNumber != "" {
        rooms' := rooms' + [b.roomNumber];
      }
      if b.serviceName !in serviceKeys' {
        serviceKeys' := serviceKeys' + [b.serviceName];
      }
      j := j + 1;
    }
    assert list[..j] == list;
  }

  /** The collecting loops of `mergeGuests`: every booking of every checked
      guest in turn, the non-empty room numbers in order, and the service
      names in first-seen order. */
  method Collect(names: seq<string>, data: map<string, seq<ReportBooking>>)
    returns (all: seq<ReportBooking>, rooms: seq<string>, serviceKeys: seq<string>)
    ensures all == Gathered(names, data)
    ensures rooms == RoomsIn(all)
    ensures serviceKeys == Dedup(ServiceList(all))
  {
    all, rooms, serviceKeys := [], [], [];
    var i := 0;
    while i < |names|
      invariant 0 <= i <= |names|
      invariant all == Gathered(names[..i], data)
      invariant rooms == RoomsIn(all) && serviceKeys == Dedup(ServiceList(all))
    {
      all, rooms, serviceKeys := AppendRows(all, rooms, serviceKeys, RowsOf(data, names[i]));
      assert names[..i + 1][..i] == names[..i];
      i := i + 1;
    }
    assert names[..i] == names;
  }

  /** `first` is the smallest of the dates, None when there are none. */
  predicate IsFirst(first: Option<string>, dates: set<string>) {
    (first.None? <==> dates == {})
    && (first.Some? ==> first.value in dates && forall d :: d in dates ==> StrLe(first.value, d))
  }

  /** `last` is the largest of the dates, None when there are none. */
  predicate IsLast(last: Option<string>, dates: set<string>) {
    (last.None? <==> dates == {})
    && (last.Some? ==> last.value in dates && forall d :: d in dates ==> StrLe(d, last.value))
  }

  /** `if (!firstDate || b.date < firstDate) firstDate = b.date` keeps the smallest date. */
  lemma FirstStep(first: Option<string>, dates: set<string>, date: string)
    requires IsFirst(first, dates)
    ensures IsFirst(if first.None? || (StrLe(date, first.value) && date != first.value) then Some(date) else first,
                    dates + {date})
  {
    LexLeRefl(CodePoints(date));
    if first.Some? {
      LexLeRefl(CodePoints(first.value));
      LexLeTotal(CodePoints(date), CodePoints(first.value));
      if StrLe(date, first.value) && date != first.value {
        forall d | d in dates ensures StrLe(date, d) {
          LexLeTrans(CodePoints(date), CodePoints(first.value), CodePoints(d));
        }
      } else if !StrLe(date, first.value) {
      } else {
        assert date == first.value;
      }
    }
  }

  /** `if (!lastDate || b.date > lastDate) lastDate = b.date` keeps the largest date. */
  lemma LastStep(last: Option<string>, dates: set<string>, date: string)
    requires IsLast(last, dates)
    ensures IsLast(if last.None? || (StrLe(last.value, date) && date != last.value) then Some(date) else last,
                   dates + {date})
  {
    LexLeRefl(CodePoints(date));
    if last.Some? {
      LexLeRefl(CodePoints(last.value));
      LexLeTotal(CodePoints(date), CodePoints(last.value));
      if StrLe(last.value, date) && date != last.value {
        forall d | d in dates ensures StrLe(d, date) {
          LexLeTrans(CodePoints(d), CodePoints(last.value), CodePoints(date));
        }
      } else if !StrLe(last.value, date) {
      } else {
        assert date == last.value;
      }
    }
  }

  /** One more booking adds its date, when it has one. */
  lemma DatesStep(rows: seq<ReportBooking>, i: nat)
    requires i < |rows|
    ensures DatesIn(rows[..i + 1]) == DatesIn(rows[..i]) + (if rows[i].date != "" then {rows[i].date} else {})
    ensures SumDurations(rows[i..]) == DurationOf(rows[i]) + SumDurations(rows[i + 1..])
  {
    assert rows[..i + 1] == rows[..i] + [rows[i]];
    assert rows[i..] == [rows[i]] + rows[i + 1..];
  }

  /** The summing loop of `mergeGuests`: the total of the durations and the
      smallest and largest non-empty dates (None when there is none). */
  method Summarize(rows: seq<ReportBooking>) returns (total: int, first: Option<string>, last: Option<string>)
    ensures total == SumDurations(rows)
    ensures IsFirst(first, DatesIn(rows)) && IsLast(last, DatesIn(rows))
  {
    total, first, last := 0, None, None;
    var i := 0;
    while i < |rows|
      invariant 0 <= i <= |rows|
      invariant total + SumDurations(rows[i..]) == SumDurations(rows)
      invariant IsFirst(first, DatesIn(rows[..i])) && IsLast(last, DatesIn(rows[..i]))
    {
      var b := rows[i];
      DatesStep(rows, i);
      total := total + DurationOf(b);
      if b.date != "" {
        FirstStep(first, DatesIn(rows[..i]), b.date);
        LastStep(last, DatesIn(rows[..i]), b.date);
        if first.None? || (StrLe(b.date, first.value) && b.date != first.value) {
          first := Some(b.date);
        }
        if last.None? || (StrLe(last.value, b.date) && b.date != last.value) {
          last := Some(b.date);
        }
      }
      i := i + 1;
    }
    assert rows[..i] == rows;
  }

  /** Sorting does not change the total. */
  lemma {:induction false} SumInsert(x: ReportBooking, s: seq<ReportBooking>, key: ReportBooking -> seq<int>)
    ensures SumDurations(Insert(x, s, key)) == DurationOf(x) + SumDurations(s)
    decreases |s|
  {
    if s != [] && !LexLe(key(x), key(s[0])) {
      SumInsert(x, s[1..], key);
      assert ([s[0]] + Insert(x, s[1..], key))[1..] == Insert(x, s[1..], key);
    } else if s != [] {
      assert ([x] + s)[1..] == s;
    }
  }

  lemma {:induction false} SumSorted(s: seq<ReportBooking>, key: ReportBooking -> seq<int>)
    ensures SumDurations(SortBy(s, key)) == SumDurations(s)
    decreases |s|
  {
    if s != [] {
      SumSorted(s[1..], key);
      SumInsert(s[0], SortBy(s[1..], key), key);
    }
  }

  /** The dates of a reordering are the same dates. */
  lemma DatesSorted(s: seq<ReportBooking>, key: ReportBooking -> seq<int>)
    ensures DatesIn(SortBy(s, key)) == DatesIn(s)
  {
    SortByMembers(s, key);
  }

  /** `mergeGuests`: nothing happens with fewer than two checked guests;
      otherwise the row joins the names with " + " and holds all their
      bookings sorted by date and time, their count, the total duration, the
      first and last dates, the distinct non-empty rooms in order of
      appearance and the distinct services in sorted order. */
  method MergeGuests(names: seq<string>, data: map<string, seq<ReportBooking>>) returns (r: Option<MergedGuest>)
    ensures r.None? <==> !MergeButtonVisible(|names|)
    ensures r.Some? ==> var g := r.value; var all := Gathered(names, data);
      && g.name == Join(names, " + ")
      && multiset(g.bookings) == multiset(all) && SortedBy(g.bookings, SortKey)
      && g.visitCount == |all| && g.totalMinutes == SumDurations(all)
      && IsFirst(g.firstDate, DatesIn(all)) && IsLast(g.lastDate, DatesIn(all))
      && (forall x :: x in g.rooms <==> exists b :: b in all && b.roomNumber == x && x != "")
      && NoRepeats(g.rooms)
      && (forall x :: x in g.services <==> exists b :: b in all && b.serviceName == x)
      && SortedBy(g.services, CodePoints) && DistinctBy(g.services, (x: string) => x)
  {
    if |names| < 2 {
      return None;
    }
    var all, allRooms, serviceKeys := Collect(names, data);
    var sorted := SortBy(all, SortKey);
    SortBySorted(all, SortKey);
    SumSorted(all, SortKey);
    DatesSorted(all, SortKey);
    var total, first, last := Summarize(sorted);
    RoomsInMembers(all);
    var rooms := DistinctRooms(allRooms);
    DedupMeaning(ServiceList(all));
    ServiceListMembers(all);
    var services := SortedServices(serviceKeys);
    r := Some(MergedGuest(Join(names, " + "), sorted, |sorted|, total, first, last, rooms, services));
  }
}
