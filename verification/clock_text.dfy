/** Times of day as text: the 'h:mm am|pm' formatter shared by the opening-
    hours and reservation-hours screens, the reading of such text as a
    minute of the day (the `moment(t, 'hh:mm a')` comparison those screens
    make), and the reservation list's `parse12to24`. */
module ClockText {
  import opened Wrappers
  import opened JsText
  import opened JsNumber
  import opened Json

  /** The pieces of a 'h:mm AM' text: hour digits, minute digits and the
      meridiem, before any range check. */
  datatype Clock = Clock(hour: nat, minute: nat, pm: bool)

  predicate IsMeridiemLetter(c: char) { c == 'A' || c == 'a' || c == 'P' || c == 'p' }

  predicate IsMLetter(c: char) { c == 'M' || c == 'm' }

  /** The pattern `(\d{1,2}):(\d{2})\s*([AP]M)` matched case-insensitively
      against the whole of `u`. */
  function MatchClock(u: string): (r: Option<Clock>)
    ensures r.Some? ==> r.value.hour < 100 && r.value.minute < 100
  {
    var k := DigitRun(u);
    if ClockDigits(u, k) then
      assert AllDigits(u[k + 1..k + 3]) by {
        assert u[k + 1..k + 3] == [u[k + 1], u[k + 2]];
      }
      ReadClock(u[..k], u[k + 1..k + 3], TrimStart(u[k + 3..]))
    else None
  }

  /** `u` starts with one or two digits (a run of `k`), a colon and two
      more digits. */
  predicate ClockDigits(u: string, k: nat) {
    1 <= k <= 2 && |u| >= k + 3 && u[k] == ':' && IsDigit(u[k + 1]) && IsDigit(u[k + 2])
  }

  /** The hour and minute digits with what follows them once leading
      whitespace is dropped, which must be the meridiem and nothing else. */
  function ReadClock(hd: string, md: string, mer: string): (r: Option<Clock>)
    requires AllDigits(hd) && |hd| <= 2 && AllDigits(md) && |md| == 2
    ensures r.Some? ==> r.value.hour < 100 && r.value.minute < 100
    ensures r.Some? <==> |mer| == 2 && IsMeridiemLetter(mer[0]) && IsMLetter(mer[1])
  {
    if |mer| == 2 && IsMeridiemLetter(mer[0]) && IsMLetter(mer[1]) then
      TwoDigitsBelow100(hd);
      TwoDigitsBelow100(md);
      Some(Clock(DigitsValue(hd), DigitsValue(md), mer[0] == 'P' || mer[0] == 'p'))
    else None
  }

  lemma TwoDigitsBelow100(d: string)
    requires AllDigits(d) && |d| <= 2
    ensures DigitsValue(d) < 100
  {
    if |d| == 2 {
      assert d[..1] == [d[0]];
    }
  }

  // ------------------------------------------------------------ formatter

  /** `fmt` / `formatAMPM`: the hour on the 12-hour clock with 0 shown as
      12, two-digit minutes, and 'am' before noon, 'pm' from noon. */
  function Fmt(h: nat, m: nat): (r: string)
    requires h < 24 && m < 60
    ensures |r| == 7 || |r| == 8
    ensures r[|r| - 2..] == (if h < 12 then "am" else "pm")
  {
    NatToString(Hour12(h)) + (":" + Pad2(m) + " " + (if h < 12 then "am" else "pm"))
  }

  /** The hour as the formatter shows it: `h % 12 || 12`. */
  function Hour12(h: nat): (r: nat)
    requires h < 24
    ensures 1 <= r <= 12
    ensures r % 12 == h % 12
  {
    if h % 12 == 0 then 12 else h % 12
  }

  // ------------------------------------------------ reading 'hh:mm a' text

  /** The minute of the day that `moment(t, 'hh:mm a')` gives for `t`, or
      `None` when it is not a valid time: hour 1..12, minute 0..59, 12 am
      being midnight and 12 pm noon. */
  function MinuteOfDay(t: string): (r: Option<nat>)
    ensures r.Some? ==> r.value < 24 * 60
  {
    match MatchClock(t)
    case None => None
    case Some(c) =>
      if 1 <= c.hour <= 12 && c.minute < 60 then
        Some(((c.hour % 12) + (if c.pm then 12 else 0)) * 60 + c.minute)
      else None
  }

  /** `isOpenBeforeClose` / `a.isValid() && b.isValid() && a.isBefore(b)`:
      both texts are times and the first is strictly earlier. */
  predicate OpensBeforeCloses(open: string, close: string) {
    var a := MinuteOfDay(open);
    var b := MinuteOfDay(close);
    a.Some? && b.Some? && a.value < b.value
  }

  /** The pattern reads back the pieces of any text of the shape
      one or two hour digits, ':', two minute digits, whitespace, and a
      meridiem. */
  lemma MatchClockShape(hd: string, md: string, sp: string, mer: string)
    requires 1 <= |hd| <= 2 && AllDigits(hd)
    requires |md| == 2 && AllDigits(md)
    requires AllSpace(sp)
    requires |mer| == 2 && IsMeridiemLetter(mer[0]) && IsMLetter(mer[1])
    ensures MatchClock(hd + (":" + md + sp + mer))
      == Some(Clock(DigitsValue(hd), DigitsValue(md), mer[0] == 'P' || mer[0] == 'p'))
  {
    var s := hd + (":" + md + sp + mer);
    var k := |hd|;
    assert ":" + md + sp + mer == ":" + md + (sp + mer);
    ClockLayout(hd, md, sp + mer);
    TrimStartSpaces(sp, mer);
    MatchClockReads(s, k, hd, md, mer);
  }

  /** Where the pieces of 'h:mm' followed by `rest` sit in the text. */
  lemma ClockLayout(hd: string, md: string, rest: string)
    requires |md| == 2 && AllDigits(md)
    ensures var s := hd + (":" + md + rest); var k := |hd|;
      |s| >= k + 3 && s[..k] == hd && s[k] == ':' && s[k + 1..k + 3] == md
      && IsDigit(s[k + 1]) && IsDigit(s[k + 2]) && s[k + 3..] == rest
    ensures AllDigits(hd) ==> DigitRun(hd + (":" + md + rest)) == |hd|
  {
    var s := hd + (":" + md + rest);
    var k := |hd|;
    assert s[k + 1] == md[0] && s[k + 2] == md[1];
    if AllDigits(hd) {
      DigitRunPrefix(hd, ":" + md + rest);
    }
  }

  /** With the digits in place, the pattern reads what follows them. */
  lemma MatchClockReads(u: string, k: nat, hd: string, md: string, mer: string)
    requires DigitRun(u) == k && ClockDigits(u, k)
    requires AllDigits(hd) && |hd| <= 2 && AllDigits(md) && |md| == 2
    requires u[..k] == hd && u[k + 1..k + 3] == md && TrimStart(u[k + 3..]) == mer
    ensures MatchClock(u) == ReadClock(hd, md, mer)
  {
  }

  lemma MatchClockOfParts(h: nat, m: nat, sp: string, mer: string)
    requires h < 100 && m < 100
    requires AllSpace(sp)
    requires |mer| == 2 && IsMeridiemLetter(mer[0]) && IsMLetter(mer[1])
    ensures MatchClock(NatToString(h) + (":" + Pad2(m) + sp + mer))
      == Some(Clock(h, m, mer[0] == 'P' || mer[0] == 'p'))
  {
    MatchClockShape(NatToString(h), Pad2(m), sp, mer);
  }

  /** Reading back the formatter's text gives the time it was made from. */
  lemma FmtRoundTrip(h: nat, m: nat)
    requires h < 24 && m < 60
    ensures MatchClock(Fmt(h, m)) == Some(Clock(Hour12(h), m, h >= 12))
    ensures MinuteOfDay(Fmt(h, m)) == Some(h * 60 + m)
  {
    FmtMatches(h, m);
    MinuteOfHour12(Fmt(h, m), h, m);
  }

  /** Text read as the 12-hour form of `h`:`m` is that minute of the day. */
  lemma MinuteOfHour12(t: string, h: nat, m: nat)
    requires h < 24 && m < 60
    requires MatchClock(t) == Some(Clock(Hour12(h), m, h >= 12))
    ensures MinuteOfDay(t) == Some(h * 60 + m)
  {
    Hour12Back(h);
  }

  lemma FmtMatches(h: nat, m: nat)
    requires h < 24 && m < 60
    ensures MatchClock(Fmt(h, m)) == Some(Clock(Hour12(h), m, h >= 12))
  {
    var ap := if h < 12 then "am" else "pm";
    MatchClockOfParts(Hour12(h), m, " ", ap);
    assert Fmt(h, m) == NatToString(Hour12(h)) + (":" + Pad2(m) + " " + ap);
  }

  /** The shown hour and the meridiem together give back the hour. */
  lemma Hour12Back(h: nat)
    requires h < 24
    ensures (Hour12(h) % 12) + (if h >= 12 then 12 else 0) == h
  {
  }

  /** The formatter's output is a valid time, so two formatted times
      compare by the times they show. */
  lemma FmtOrder(h1: nat, m1: nat, h2: nat, m2: nat)
    requires h1 < 24 && m1 < 60 && h2 < 24 && m2 < 60
    ensures OpensBeforeCloses(Fmt(h1, m1), Fmt(h2, m2)) <==> (h1, m1) != (h2, m2) && (h1 < h2 || (h1 == h2 && m1 < m2))
  {
    FmtRoundTrip(h1, m1);
    FmtRoundTrip(h2, m2);
  }

  // -------------------------------------------------------- parse12to24

  /** `parse12to24(t)`: a falsy or non-matching value is 0:00; otherwise
      PM adds 12 to an hour below 12, 12 AM is hour 0, and any other hour
      and the minutes are kept as written (no range check). */
  function Parse12to24(t: Json): (r: (nat, nat))
    ensures r.0 < 100 && r.1 < 100
  {
    if !Truthy(t) then (0, 0)
    else
      match ClockOf(t)
      case None => (0, 0)
      case Some(c) => To24(c)
  }

  /** The clock pieces `parse12to24` reads from a truthy value. */
  function ClockOf(t: Json): Option<Clock> {
    MatchClock(Trim(StringOf(t)))
  }

  /** The 24-hour reading of matched clock pieces. */
  function To24(c: Clock): (r: (nat, nat))
    ensures r.1 == c.minute
    ensures c.hour < 100 ==> r.0 < 100
  {
    var h := if c.pm && c.hour < 12 then c.hour + 12
             else if !c.pm && c.hour == 12 then 0
             else c.hour;
    (h, c.minute)
  }

  /** A trimmed text that matches is read through `To24`. */
  lemma Parse12to24OfMatch(s: string, c: Clock)
    requires StringOf(JStr(s)) == s && Trim(s) == s
    requires MatchClock(s) == Some(c)
    ensures Parse12to24(JStr(s)) == To24(c)
  {
  }

  /** For a 12-hour time (hour 1..12, minute 0..59) the result is a 24-hour
      time, and the meridiem decides which half of the day it is in. */
  lemma Parse12to24Range(t: Json)
    requires Truthy(t)
    requires var c := ClockOf(t);
      c.Some? && 1 <= c.value.hour <= 12 && c.value.minute < 60
    ensures var r := Parse12to24(t);
      r.0 < 24 && r.1 < 60
      && (r.0 >= 12 <==> ClockOf(t).value.pm)
  {
    assert Parse12to24(t) == To24(ClockOf(t).value);
  }

  /** `parse12to24` reads the formatter's text back as the same time. */
  lemma Parse12to24OfFmt(h: nat, m: nat)
    requires h < 24 && m < 60
    ensures Parse12to24(JStr(Fmt(h, m))) == (h, m)
  {
    var ap := if h < 12 then "am" else "pm";
    ClockTextTrimmed(Fmt(h, m), Hour12(h), m, ap);
    FmtMatches(h, m);
    Parse12to24OfMatch(Fmt(h, m), Clock(Hour12(h), m, h >= 12));
    To24OfHour12(h, m);
  }

  lemma To24OfHour12(h: nat, m: nat)
    requires h < 24
    ensures To24(Clock(Hour12(h), m, h >= 12)) == (h, m)
  {
  }

  /** The three times of the reservation example: 1:00 AM, 6:40 PM and
      11:00 PM read as 1:00, 18:40 and 23:00. */
  lemma Parse12to24Examples()
    ensures Parse12to24(JStr("1:00 AM")) == (1, 0)
    ensures Parse12to24(JStr("6:40 PM")) == (18, 40)
    ensures Parse12to24(JStr("11:00 PM")) == (23, 0)
  {
    ExampleOne();
    ExampleTwo();
    ExampleThree();
  }

  lemma ExampleOne()
    ensures Parse12to24(JStr("1:00 AM")) == (1, 0)
  {
    assert NatToString(1) == "1" && Pad2(0) == "00";
    ExampleTime("1:00 AM", 1, 0, "AM");
  }

  lemma ExampleTwo()
    ensures Parse12to24(JStr("6:40 PM")) == (18, 40)
  {
    assert NatToString(6) == "6" && NatToString(4) == "4";
    assert Pad2(40) == "40";
    ExampleTime("6:40 PM", 6, 40, "PM");
  }

  lemma ExampleThree()
    ensures Parse12to24(JStr("11:00 PM")) == (23, 0)
  {
    assert NatToString(1) == "1";
    assert NatToString(11) == "11" && Pad2(0) == "00";
    ExampleTime("11:00 PM", 11, 0, "PM");
  }

  /** A missing time (null, undefined, the empty string) reads as
      midnight. */
  lemma Parse12to24Missing(t: Json)
    requires !Truthy(t)
    ensures Parse12to24(t) == (0, 0)
  {
  }

  lemma ExampleTime(s: string, h: nat, m: nat, mer: string)
    requires h < 100 && m < 100
    requires |mer| == 2 && IsMeridiemLetter(mer[0]) && IsMLetter(mer[1])
    requires s == NatToString(h) + (":" + Pad2(m) + " " + mer)
    ensures Parse12to24(JStr(s)) == To24(Clock(h, m, mer[0] == 'P' || mer[0] == 'p'))
  {
    MatchClockOfParts(h, m, " ", mer);
    ClockTextTrimmed(s, h, m, mer);
    Parse12to24OfMatch(s, Clock(h, m, mer[0] == 'P' || mer[0] == 'p'));
  }

  /** Clock text has no surrounding whitespace to trim. */
  lemma ClockTextTrimmed(s: string, h: nat, m: nat, mer: string)
    requires h < 100 && m < 100
    requires |mer| == 2 && IsMeridiemLetter(mer[0]) && IsMLetter(mer[1])
    requires s == NatToString(h) + (":" + Pad2(m) + " " + mer)
    ensures StringOf(JStr(s)) == s && Trim(s) == s
  {
    var hd := NatToString(h);
    assert s[0] == hd[0];
    assert IsDigit(s[0]);
    assert s[|s| - 1] == mer[1];
    TrimIdentity(s);
  }
}
