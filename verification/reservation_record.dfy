/** One reservation as the reservation list shows it: the status-to-tab
    mapping, the display name, the normalised record built from a backend
    element, and its sort key, the time value of `parseResvDate`. */
module ReservationRecord {
  import opened Wrappers
  import opened JsText
  import opened JsNumber
  import opened Json
  import opened CivilDate
  import opened ClockText

  datatype Tab = Unconfirmed | Confirmed | Rejected

  /** `STATUS_TO_TAB`: exact, case-sensitive comparison; anything that is
      not an accepted or rejected code is unconfirmed. */
  function StatusToTab(s: string): (t: Tab)
    ensures t == Confirmed <==> s == "1" || s == "accepted"
    ensures t == Rejected <==> s == "-1" || s == "rejected"
    ensures t == Unconfirmed <==> s !in {"1", "accepted", "-1", "rejected"}
  {
    if s == "1" || s == "accepted" then Confirmed
    else if s == "-1" || s == "rejected" then Rejected
    else Unconfirmed
  }

  // ----------------------------------------------------------- the name

  /** The truthy values among `title`, `first_name`, `last_name`, as text. */
  function NameParts(r: Json): (ps: seq<string>)
    ensures |ps| <= 3
    ensures !Truthy(Get(r, "title")) && !Truthy(Get(r, "first_name")) && !Truthy(Get(r, "last_name")) ==> ps == []
  {
    var fs := [Get(r, "title"), Get(r, "first_name"), Get(r, "last_name")];
    TruthyParts(fs)
  }

  /** `[title, first_name, last_name].filter(Boolean).join(' ').trim()`. */
  function JoinedName(r: Json): (s: string)
    ensures Trimmed(s)
  {
    Trim(Join(NameParts(r), " "))
  }

  /** The list's display name: the joined name, or '—' when it is empty. */
  function DisplayName(r: Json): (s: string)
    ensures s != ""
    ensures JoinedName(r) != "" ==> s == JoinedName(r)
    ensures JoinedName(r) == "" ==> s == "—"
    ensures NameParts(r) == [] ==> s == "—"
  {
    var n := JoinedName(r);
    if n == "" then "—" else n
  }

  // ------------------------------------------------------- the sort key

  /** The time value of the local date-time text
      'YYYY-MM-DDTHH:MM:00' built from the parsed pieces, in milliseconds
      from the epoch with the local zone taken as UTC; `None` (NaN) when
      the text is not a valid date-time: a year outside 0..9999 (it would
      not print as four digits), a month outside 1..12, a day outside the
      month, or a time past 24:00. */
  function IsoTime(y: int, mo: int, d: int, h: nat, mi: nat): (r: Option<int>)
    ensures r.Some? <==> 0 <= y <= 9999 && Valid(Date(y, mo, d))
                         && ((h < 24 && mi < 60) || (h == 24 && mi == 0))
  {
    if 0 <= y <= 9999 && 1 <= mo <= 12 && 1 <= d <= DaysInMonth(y, mo)
       && ((h < 24 && mi < 60) || (h == 24 && mi == 0))
    then Some(MinuteIndex(Date(y, mo, d), h * 60 + mi) * 60000)
    else None
  }

  /** Minutes from the epoch to minute `t` of day `d`. */
  function MinuteIndex(d: Date, t: int): int
    requires Valid(d)
  {
    DayNumber(d) * 1440 + t
  }

  /** `parseResvDate(dmy, time12).getTime()`: a falsy date is the epoch;
      otherwise the date text gives day, month and year, and a falsy time
      reads as '00:00 AM'. A truthy date that is not text has no `split`
      and throws (`DateThrows`); the key is only read for the others. */
  function SortKey(dmy: Json, time12: Json): Option<int>
  {
    if !Truthy(dmy) then Some(0)
    else
      var hm := Parse12to24(Or(time12, JStr("00:00 AM")));
      match DateFields(StringOf(dmy))
      case None => None
      case Some(f) => IsoTime(f.0, f.1, f.2, hm.0, hm.1)
  }

  /** `dmy.split('-').map(n => parseInt(n, 10))` read as day, month and
      year, returned as (year, month, day); `None` when a piece is missing
      or is not a number. Pieces after the third are ignored. */
  function DateFields(dmy: string): Option<(int, int, int)>
  {
    var parts := Split(dmy, '-');
    if |parts| < 3 then None
    else
      var dd := ParseIntText(parts[0]);
      var mm := ParseIntText(parts[1]);
      var yy := ParseIntText(parts[2]);
      if dd.None? || mm.None? || yy.None? then None
      else Some((yy.value, mm.value, dd.value))
  }

  // ------------------------------------------------------------ a record

  /** The normalised reservation of the list. */
  datatype Reservation = Reservation(
    id: Json,
    name: string,
    phone: Json,
    email: string,
    guests: Option<real>,
    date: Json,
    time: Json,
    platform: Json,
    status: string,
    sortKey: Option<int>,
    raw: Json)

  /** `(r.email || '').trim()`; `None` when `trim` throws because the
      e-mail is truthy but not text. */
  function Email(r: Json): (e: Option<string>)
    ensures e.None? <==> StringMethodThrows(Get(r, "email"))
    ensures !Truthy(Get(r, "email")) ==> e == Some("")
    ensures Get(r, "email").JStr? ==> e == Some(Trim(Get(r, "email").s))
    ensures e.Some? ==> Trimmed(e.value)
  {
    var v := Or(Get(r, "email"), JStr(""));
    if v.JStr? then Some(Trim(v.s)) else None
  }

  /** `dmy.split('-')` in `parseResvDate` throws: the date is truthy but
      not text. */
  predicate DateThrows(r: Json) {
    StringMethodThrows(Get(r, "reservation_date"))
  }

  /** Normalising element `r` throws a TypeError: reading `r.title` of a
      `null` or `undefined` element, splitting a date that is not text, or
      trimming an e-mail that is not text. */
  predicate Throws(r: Json) {
    Nullish(r) || DateThrows(r) || Email(r).None?
  }

  /** `String(r.status ?? statusKey)`. */
  function Status(r: Json, statusKey: string): (st: string)
    ensures !Nullish(Get(r, "status")) ==> st == StringOf(Get(r, "status"))
    ensures Nullish(Get(r, "status")) ==> st == statusKey
  {
    StringOf(Coalesce(Get(r, "status"), JStr(statusKey)))
  }

  /** The normalisation of one backend element; `statusKey` is the status
      used when the element has none. `None` when it throws. */
  function Normalize(r: Json, statusKey: string): (n: Option<Reservation>)
    ensures n.None? <==> Throws(r)
    ensures n.Some? ==> n.value.name != ""
    ensures n.Some? && !Nullish(Get(r, "status")) ==> n.value.status == StringOf(Get(r, "status"))
    ensures n.Some? && Nullish(Get(r, "status")) ==> n.value.status == statusKey
    ensures n.Some? ==> Some(n.value.email) == Email(r) && Trimmed(n.value.email)
    ensures n.Some? ==> n.value.date == Get(r, "reservation_date") && n.value.time == Get(r, "reservation_time")
    ensures n.Some? ==> n.value.sortKey == SortKey(n.value.date, n.value.time) && n.value.raw == r
  {
    if Throws(r) then None else Some(Record(r, statusKey))
  }

  /** The record built from an element whose normalisation does not
      throw. */
  function Record(r: Json, statusKey: string): Reservation
  {
    Reservation(
      Get(r, "id"),
      DisplayName(r),
      FirstTruthy([Get(r, "mobile"), Get(r, "telephone")], JStr("—")),
      Email(r).GetOr(""),
      ToNumber(Or(Get(r, "no_of_guest"), JNum(0.0))),
      Get(r, "reservation_date"),
      Get(r, "reservation_time"),
      Get(r, "platform"),
      Status(r, statusKey),
      SortKey(Get(r, "reservation_date"), Get(r, "reservation_time")),
      r)
  }

  // ------------------------------------------------------------- lemmas

  /** Within one day, a later minute has a larger index; across days, the
      later day has the larger index whatever the minutes. */
  lemma MinuteIndexOrder(d1: Date, t1: int, d2: Date, t2: int)
    requires Valid(d1) && Valid(d2)
    requires 0 <= t1 < 1440 && 0 <= t2 < 1440
    ensures MinuteIndex(d1, t1) < MinuteIndex(d2, t2)
      <==> LexBefore(d1, d2) || (d1 == d2 && t1 < t2)
  {
    BeforeIsCalendarOrder(d1, d2);
    DayNumberInjective(d1, d2);
    var n1 := DayNumber(d1);
    var n2 := DayNumber(d2);
    if n1 < n2 {
      assert n1 * 1440 + 1440 <= n2 * 1440;
    } else if n2 < n1 {
      assert n2 * 1440 + 1440 <= n1 * 1440;
    }
  }

  /** Defined keys before 24:00 order by date, then hour, then minute. */
  lemma IsoTimeOrder(y1: int, mo1: int, d1: int, h1: nat, mi1: nat,
                     y2: int, mo2: int, d2: int, h2: nat, mi2: nat)
    requires IsoTime(y1, mo1, d1, h1, mi1).Some? && h1 < 24
    requires IsoTime(y2, mo2, d2, h2, mi2).Some? && h2 < 24
    ensures IsoTime(y1, mo1, d1, h1, mi1).value < IsoTime(y2, mo2, d2, h2, mi2).value
      <==> LexBefore(Date(y1, mo1, d1), Date(y2, mo2, d2))
           || (Date(y1, mo1, d1) == Date(y2, mo2, d2) && (h1 < h2 || (h1 == h2 && mi1 < mi2)))
  {
    MinuteIndexOrder(Date(y1, mo1, d1), h1 * 60 + mi1, Date(y2, mo2, d2), h2 * 60 + mi2);
  }

  /** 24:00 of a day is midnight of the next. */
  lemma IsoTimeMidnight(d: Date)
    requires Valid(d) && 0 <= d.year && NextDay(d).year <= 9999
    ensures IsoTime(d.year, d.month, d.day, 24, 0)
      == IsoTime(NextDay(d).year, NextDay(d).month, NextDay(d).day, 0, 0)
  {
    NextDayNumber(d);
  }

  /** A missing date sorts as the epoch, so it comes no later than any
      defined key on or after 1 January 1970. */
  lemma EmptyDateFirst(time12: Json, y: int, mo: int, d: int, h: nat, mi: nat)
    requires IsoTime(y, mo, d, h, mi).Some? && y >= 1970
    ensures SortKey(JStr(""), time12) == Some(0)
    ensures SortKey(JNull, time12) == Some(0)
    ensures 0 <= IsoTime(y, mo, d, h, mi).value
  {
    MissingDateKey(JStr(""), time12);
    MissingDateKey(JNull, time12);
    IsoTimeAfterEpoch(y, mo, d, h, mi);
  }

  /** A falsy date sorts as the epoch, whatever the time. */
  lemma MissingDateKey(dmy: Json, time12: Json)
    requires !Truthy(dmy)
    ensures SortKey(dmy, time12) == Some(0)
  {
  }

  /** A valid date-time from 1970 on has a non-negative time value. */
  lemma IsoTimeAfterEpoch(y: int, mo: int, d: int, h: nat, mi: nat)
    requires IsoTime(y, mo, d, h, mi).Some? && y >= 1970
    ensures 0 <= IsoTime(y, mo, d, h, mi).value
  {
    var dt := Date(y, mo, d);
    DayNumberBounds(dt);
    if y > 1970 {
      DaysBeforeYearMono(1969, y);
    }
  }

  /** On one date, the example times 1:00 AM, 6:40 PM and 11:00 PM sort in
      that order. */
  lemma ExampleTimesOrder(dmy: Json)
    requires Truthy(dmy) && SortKey(dmy, JStr("1:00 AM")).Some?
    ensures var a := SortKey(dmy, JStr("1:00 AM"));
      var b := SortKey(dmy, JStr("6:40 PM"));
      var c := SortKey(dmy, JStr("11:00 PM"));
      b.Some? && c.Some? && a.value < b.value < c.value
  {
    Parse12to24Examples();
    var f := DateFields(StringOf(dmy)).value;
    SortKeyWithTime(dmy, JStr("1:00 AM"), 1, 0);
    SortKeyWithTime(dmy, JStr("6:40 PM"), 18, 40);
    SortKeyWithTime(dmy, JStr("11:00 PM"), 23, 0);
    IsoTimeOrder(f.0, f.1, f.2, 1, 0, f.0, f.1, f.2, 18, 40);
    IsoTimeOrder(f.0, f.1, f.2, 18, 40, f.0, f.1, f.2, 23, 0);
  }

  /** With a date present, the key is the date-time of its fields and the
      time read by `parse12to24`. */
  lemma SortKeyWithTime(dmy: Json, t: Json, h: nat, mi: nat)
    requires Truthy(dmy) && Truthy(t) && Parse12to24(t) == (h, mi)
    ensures DateFields(StringOf(dmy)).None? ==> SortKey(dmy, t).None?
    ensures DateFields(StringOf(dmy)).Some? ==>
      var f := DateFields(StringOf(dmy)).value;
      SortKey(dmy, t) == IsoTime(f.0, f.1, f.2, h, mi)
  {
  }

  /** The text 'DD-MM-YYYY' of a date with a four-digit year. */
  function DmyText(d: Date): string
    requires Valid(d) && 1000 <= d.year <= 9999
  {
    Pad2(d.day) + "-" + Pad2(d.month) + "-" + NatToString(d.year)
  }

  /** 'DD-MM-YYYY' text reads back as its day, month and year. */
  lemma DateFieldsOfDmy(d: Date)
    requires Valid(d) && 1000 <= d.year <= 9999
    ensures DateFields(DmyText(d)) == Some((d.year, d.month, d.day))
  {
    var a := Pad2(d.day);
    var b := Pad2(d.month);
    var c := NatToString(d.year);
    DigitsHaveNoDash(a);
    DigitsHaveNoDash(b);
    DigitsHaveNoDash(c);
    SplitThree(a, b, c);
    assert Split(DmyText(d), '-') == [a, b, c];
    ParseIntDigits(a);
    ParseIntDigits(b);
    ParseIntDigits(c);
  }

  /** Three dash-free pieces joined by dashes split back into themselves. */
  lemma SplitThree(a: string, b: string, c: string)
    requires '-' !in a && '-' !in b && '-' !in c
    ensures Split(a + "-" + b + "-" + c, '-') == [a, b, c]
  {
    assert a + "-" + b + "-" + c == a + ['-'] + (b + ['-'] + c);
    SplitFirst(a, '-', b + ['-'] + c);
    SplitFirst(b, '-', c);
    SplitNone(c, '-');
  }

  lemma DigitsHaveNoDash(s: string)
    requires AllDigits(s)
    ensures '-' !in s
  {
  }

  /** The key of a 'DD-MM-YYYY' date with a time present is the
      date-time of that date and the time `parse12to24` reads. */
  lemma SortKeyOfDmy(d: Date, t: Json)
    requires Valid(d) && 1000 <= d.year <= 9999 && Truthy(t)
    ensures SortKey(JStr(DmyText(d)), t)
      == IsoTime(d.year, d.month, d.day, Parse12to24(t).0, Parse12to24(t).1)
  {
    DateFieldsOfDmy(d);
    assert DmyText(d) != "";
    SortKeyWithTime(JStr(DmyText(d)), t, Parse12to24(t).0, Parse12to24(t).1);
  }

  /** For well-formed 'DD-MM-YYYY' dates and 12-hour times, keys order by
      date, then hour, then minute. */
  lemma DmyKeysOrder(d1: Date, t1: Json, d2: Date, t2: Json)
    requires Valid(d1) && 1000 <= d1.year <= 9999
    requires Valid(d2) && 1000 <= d2.year <= 9999
    requires Truthy(t1) && Truthy(t2)
    requires Parse12to24(t1).0 < 24 && Parse12to24(t1).1 < 60
    requires Parse12to24(t2).0 < 24 && Parse12to24(t2).1 < 60
    ensures SortKey(JStr(DmyText(d1)), t1).Some? && SortKey(JStr(DmyText(d2)), t2).Some?
    ensures var (h1, m1) := Parse12to24(t1);
      var (h2, m2) := Parse12to24(t2);
      (SortKey(JStr(DmyText(d1)), t1).value < SortKey(JStr(DmyText(d2)), t2).value)
        <==> (LexBefore(d1, d2) || (d1 == d2 && (h1 < h2 || (h1 == h2 && m1 < m2))))
  {
    SortKeyOfDmy(d1, t1);
    SortKeyOfDmy(d2, t2);
    var (h1, m1) := Parse12to24(t1);
    var (h2, m2) := Parse12to24(t2);
    IsoTimeOrder(d1.year, d1.month, d1.day, h1, m1, d2.year, d2.month, d2.day, h2, m2);
  }
}
