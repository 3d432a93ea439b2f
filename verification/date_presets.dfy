/** The date-range filters of the online-order list and the reservation
    list: the named presets, computed from today's date, and the custom
    range dialog with its two date pickers. */
module DatePresets {
  import opened Wrappers
  import opened CivilDate

  datatype Range = Range(from: Date, to: Date)

  /** What choosing a filter option does. */
  datatype FilterAction =
    | Fetch(range: Range)   // load the list for this range
    | OpenCustom            // show the custom range dialog
    | NoAction              // an unknown option

  predicate ValidRange(r: Range) {
    Valid(r.from) && Valid(r.to)
  }

  predicate OrderedRange(r: Range)
    requires ValidRange(r)
  {
    NotAfter(r.from, r.to)
  }

  /** The filter options the two screens offer, read from the option's
      label. */
  datatype Preset =
    | Today | Yesterday | Last7Days | Last30Days | ThisMonth | LastMonth
    | Tomorrow | NextWeek | NextMonth | Next3Months | Next6Months | NextYear
    | CustomRange | Unknown

  /** The `switch (option)` of the online-order screen. */
  function OrderOption(option: string): (p: Preset)
    ensures p == CustomRange <==> option == "Custom Range"
    ensures p in {Today, Yesterday, Last7Days, Last30Days, ThisMonth, LastMonth, CustomRange, Unknown}
  {
    match option
    case "Today" => Today
    case "Yesterday" => Yesterday
    case "Last 7 Days" => Last7Days
    case "Last 30 Days" => Last30Days
    case "This Month" => ThisMonth
    case "Last Month" => LastMonth
    case "Custom Range" => CustomRange
    case _ => Unknown
  }

  /** The `switch (option)` of the reservation screen. */
  function ReservationOption(option: string): (p: Preset)
    ensures p == CustomRange <==> option == "Custom Range"
    ensures p in {Today, Tomorrow, NextWeek, ThisMonth, NextMonth, Next3Months, Next6Months, NextYear, CustomRange, Unknown}
  {
    match option
    case "Today" => Today
    case "Tomorrow" => Tomorrow
    case "Next week" => NextWeek
    case "This Month" => ThisMonth
    case "Next Month" => NextMonth
    case "Next 3 month" => Next3Months
    case "Next 6 month" => Next6Months
    case "Next year" => NextYear
    case "Custom Range" => CustomRange
    case _ => Unknown
  }

  /** What a preset does, computed from today's date: the arithmetic of
      both screens' handlers (`new Date(y, m, d)` with JavaScript's
      0-based month index `mi`). */
  function Action(p: Preset, today: Date): (a: FilterAction)
    requires Valid(today)
    ensures a.Fetch? ==> ValidRange(a.range)
    ensures a.OpenCustom? <==> p == CustomRange
    ensures a.NoAction? <==> p == Unknown
  {
    var mi := today.month - 1;
    var y := today.year;
    match p
    case Today => Fetch(Range(today, today))
    case Yesterday => Fetch(Range(AddDays(today, -1), AddDays(today, -1)))
    case Last7Days => Fetch(Range(AddDays(today, -6), today))
    case Last30Days => Fetch(Range(AddDays(today, -29), today))
    case Tomorrow => Fetch(Range(AddDays(today, 1), AddDays(today, 1)))
    case NextWeek => Fetch(Range(today, AddDays(today, 6)))
    case ThisMonth | LastMonth | NextMonth | Next3Months | Next6Months | NextYear =>
      var (yy, i, k) := MonthArgs(p, today);
      Fetch(Months(yy, i, k))
    case CustomRange => OpenCustom
    case Unknown => NoAction
  }

  /** Every preset yields a range whose start is not after its end. */
  lemma ActionOrdered(p: Preset, today: Date)
    requires Valid(today)
    ensures Action(p, today).Fetch? ==> OrderedRange(Action(p, today).range)
  {
    if MonthPreset(p) {
      MonthActionOrdered(p, today);
    } else {
      DayActionOrdered(p, today);
    }
  }

  /** The presets whose range is made of whole months. */
  predicate MonthPreset(p: Preset) {
    p.ThisMonth? || p.LastMonth? || p.NextMonth? || p.Next3Months? || p.Next6Months? || p.NextYear?
  }

  lemma DayActionOrdered(p: Preset, today: Date)
    requires Valid(today)
    requires !MonthPreset(p)
    ensures Action(p, today).Fetch? ==> OrderedRange(Action(p, today).range)
  {
    match p
    case Last7Days => AddDaysNumber(today, -6);
    case Last30Days => AddDaysNumber(today, -29);
    case NextWeek => AddDaysNumber(today, 6);
    case _ =>
  }

  lemma MonthActionOrdered(p: Preset, today: Date)
    requires Valid(today)
    requires MonthPreset(p)
    ensures OrderedRange(Action(p, today).range)
  {
    var (yy, i, k) := MonthArgs(p, today);
    MonthSpanOrdered(yy, i, k);
  }

  /** The month presets' `new Date(y, i, 1)` and `new Date(y, k, 0)`, as
      the year `y` and the month indices `i` and `k`, from today's year and
      0-based month index `mi`. */
  function MonthArgs(p: Preset, today: Date): (a: (int, int, int))
    requires MonthPreset(p)
    ensures a.1 < a.2
  {
    var mi := today.month - 1;
    var y := today.year;
    match p
    case ThisMonth => (y, mi, mi + 1)
    case LastMonth => (y, mi - 1, mi)
    case NextMonth => (y, mi + 1, mi + 2)
    case Next3Months => (y, mi + 1, mi + 3)
    case Next6Months => (y, mi + 1, mi + 6)
    case NextYear => (y + 1, 0, 12)
  }

  // ------------------------------------------------------ order presets

  /** `handleFilterOptions` of the online-order screen. */
  function OrderPreset(option: string, today: Date): (a: FilterAction)
    requires Valid(today)
    ensures a.Fetch? ==> ValidRange(a.range)
    ensures a.OpenCustom? <==> option == "Custom Range"
  {
    Action(OrderOption(option), today)
  }

  /** Every order preset yields a range whose start is not after its end. */
  lemma OrderPresetOrdered(option: string, today: Date)
    requires Valid(today)
    ensures OrderPreset(option, today).Fetch? ==> OrderedRange(OrderPreset(option, today).range)
  {
    ActionOrdered(OrderOption(option), today);
  }

  /** The day-based order presets: Yesterday is the single day before
      today, and Last 7 / Last 30 Days end today and span 7 / 30 days. */
  lemma OrderPresetDaySpans(today: Date)
    requires Valid(today)
    ensures var r := OrderPreset("Yesterday", today).range;
      r.from == r.to && DayNumber(r.to) == DayNumber(today) - 1
    ensures var r := OrderPreset("Last 7 Days", today).range;
      r.to == today && DayNumber(r.to) - DayNumber(r.from) == 6
    ensures var r := OrderPreset("Last 30 Days", today).range;
      r.to == today && DayNumber(r.to) - DayNumber(r.from) == 29
    ensures OrderPreset("Today", today).range == Range(today, today)
  {
    assert OrderOption("Yesterday") == Yesterday;
    assert OrderOption("Last 7 Days") == Last7Days;
    assert OrderOption("Last 30 Days") == Last30Days;
    SingleDaySpan(Yesterday, today, -1);
    BackDaysSpan(Last7Days, today, 6);
    BackDaysSpan(Last30Days, today, 29);
  }

  /** Yesterday and Tomorrow: one day, `n` days from today. */
  lemma SingleDaySpan(p: Preset, today: Date, n: int)
    requires Valid(today)
    requires (p == Yesterday && n == -1) || (p == Tomorrow && n == 1)
    ensures var r := Action(p, today).range;
      r.from == r.to && DayNumber(r.from) == DayNumber(today) + n
  {
    AddDaysNumber(today, n);
  }

  /** Last 7 and Last 30 Days: up to today, starting `n` days before. */
  lemma BackDaysSpan(p: Preset, today: Date, n: int)
    requires Valid(today)
    requires (p == Last7Days && n == 6) || (p == Last30Days && n == 29)
    ensures var r := Action(p, today).range;
      r.to == today && DayNumber(r.to) - DayNumber(r.from) == n
  {
    AddDaysNumber(today, -n);
  }

  /** This Month runs from the 1st to the last day of today's month; Last
      Month covers the whole previous month, which is December of the year
      before when today is in January. */
  lemma OrderPresetMonthSpans(today: Date)
    requires Valid(today)
    ensures OrderPreset("This Month", today).range
      == Range(Date(today.year, today.month, 1), LastOfMonth(today))
    ensures var r := OrderPreset("Last Month", today).range;
      r.from.day == 1 && r.to == LastOfMonth(r.from)
      && r.to == PrevDay(Date(today.year, today.month, 1))
      && (today.month == 1 ==> r.from == Date(today.year - 1, 12, 1))
      && (today.month > 1 ==> r.from == Date(today.year, today.month - 1, 1))
  {
    assert OrderOption("This Month") == ThisMonth;
    assert OrderOption("Last Month") == LastMonth;
    ThisMonthSpan(today);
    LastMonthSpan(today);
  }

  lemma ThisMonthSpan(today: Date)
    requires Valid(today)
    ensures Action(ThisMonth, today).range == Range(Date(today.year, today.month, 1), LastOfMonth(today))
  {
    DayZeroIsLastOfPreviousMonth(today.year, today.month - 1);
    FirstOfOwnMonth(today);
  }

  lemma LastMonthSpan(today: Date)
    requires Valid(today)
    ensures var r := Action(LastMonth, today).range;
      r.from.day == 1 && r.to == LastOfMonth(r.from)
      && r.to == PrevDay(Date(today.year, today.month, 1))
      && (today.month == 1 ==> r.from == Date(today.year - 1, 12, 1))
      && (today.month > 1 ==> r.from == Date(today.year, today.month - 1, 1))
  {
    var y, mi := today.year, today.month - 1;
    assert Action(LastMonth, today).range == Months(y, mi - 1, mi);
    DayOneIsFirst(y, mi - 1);
    DayZeroIsLastOfPreviousMonth(y, mi - 1);
    DayZeroIsPrevDay(y, mi);
    FirstOfOwnMonth(today);
    if today.month == 1 {
      assert (mi - 1) / 12 == -1 && (mi - 1) % 12 == 11;
    }
  }

  // ------------------------------------------------ reservation presets

  /** `handleFilterOption` of the reservation screen. */
  function ReservationPreset(option: string, today: Date): (a: FilterAction)
    requires Valid(today)
    ensures a.Fetch? ==> ValidRange(a.range)
    ensures a.OpenCustom? <==> option == "Custom Range"
  {
    Action(ReservationOption(option), today)
  }

  /** Every reservation preset yields an ordered range. */
  lemma ReservationPresetOrdered(option: string, today: Date)
    requires Valid(today)
    ensures ReservationPreset(option, today).Fetch? ==> OrderedRange(ReservationPreset(option, today).range)
  {
    ActionOrdered(ReservationOption(option), today);
  }

  /** Tomorrow is the single day after today; Next week runs from today
      over seven days. */
  lemma ReservationPresetDaySpans(today: Date)
    requires Valid(today)
    ensures var r := ReservationPreset("Tomorrow", today).range;
      r.from == r.to && DayNumber(r.from) == DayNumber(today) + 1
    ensures var r := ReservationPreset("Next week", today).range;
      r.from == today && DayNumber(r.to) - DayNumber(r.from) == 6
  {
    assert ReservationOption("Tomorrow") == Tomorrow;
    assert ReservationOption("Next week") == NextWeek;
    SingleDaySpan(Tomorrow, today, 1);
    NextWeekSpan(today);
  }

  lemma NextWeekSpan(today: Date)
    requires Valid(today)
    ensures var r := Action(NextWeek, today).range;
      r.from == today && DayNumber(r.to) - DayNumber(r.from) == 6
  {
    AddDaysNumber(today, 6);
  }

  /** The month presets as the code computes them: they start on the 1st
      of next month, and 'Next 3 month' and 'Next 6 month' end on the last
      day of month m+2 and m+5, where m is today's month. */
  lemma ReservationPresetMonthSpans(today: Date)
    requires Valid(today)
    ensures var mi := today.month - 1;
      ReservationPreset("Next Month", today).range
        == Range(FirstOfMonth(today.year, mi + 1), LastOfMonth(FirstOfMonth(today.year, mi + 1)))
    ensures var mi := today.month - 1;
      ReservationPreset("Next 3 month", today).range
        == Range(FirstOfMonth(today.year, mi + 1), LastOfMonth(FirstOfMonth(today.year, mi + 2)))
    ensures var mi := today.month - 1;
      ReservationPreset("Next 6 month", today).range
        == Range(FirstOfMonth(today.year, mi + 1), LastOfMonth(FirstOfMonth(today.year, mi + 5)))
  {
    assert ReservationOption("Next Month") == NextMonth;
    assert ReservationOption("Next 3 month") == Next3Months;
    assert ReservationOption("Next 6 month") == Next6Months;
    var mi := today.month - 1;
    var y := today.year;
    DayZeroIsLastOfPreviousMonth(y, mi + 1);
    DayZeroIsLastOfPreviousMonth(y, mi + 2);
    DayZeroIsLastOfPreviousMonth(y, mi + 5);
  }

  /** Next year is the whole of the next calendar year. */
  lemma ReservationPresetNextYear(today: Date)
    requires Valid(today)
    ensures ReservationPreset("Next year", today).range
      == Range(Date(today.year + 1, 1, 1), Date(today.year + 1, 12, 31))
  {
    assert ReservationOption("Next year") == NextYear;
    DayZeroIsLastOfPreviousMonth(today.year + 1, 11);
  }

  /** Next Month of a December today is January of the next year. */
  lemma NextMonthRollsOverYear(today: Date)
    requires Valid(today) && today.month == 12
    ensures ReservationPreset("Next Month", today).range
      == Range(Date(today.year + 1, 1, 1), Date(today.year + 1, 1, 31))
  {
    ReservationPresetMonthSpans(today);
  }

  /** `new Date(y, i, 1)` to `new Date(y, k, 0)`: from the 1st of month
      index `i` to the last day of month index `k - 1`. */
  function Months(y: int, i: int, k: int): (r: Range)
    ensures ValidRange(r)
  {
    Range(MakeDate(y, i, 1), MakeDate(y, k, 0))
  }

  /** Such a span with `i < k` is an ordered range. */
  lemma MonthSpanOrdered(y: int, i: int, k: int)
    requires i < k
    ensures OrderedRange(Months(y, i, k))
  {
    var j := k - 1;
    DayZeroIsLastOfPreviousMonth(y, j);
    FirstOfMonthMono(y, i, j);
    FirstNotAfterLast(FirstOfMonth(y, j));
  }

  /** Later month indices start later. */
  lemma FirstOfMonthMono(y: int, i: int, j: int)
    requires i <= j
    ensures NotAfter(FirstOfMonth(y, i), FirstOfMonth(y, j))
  {
    var a := FirstOfMonth(y, i);
    var b := FirstOfMonth(y, j);
    assert i == 12 * (i / 12) + i % 12;
    assert j == 12 * (j / 12) + j % 12;
    assert i / 12 <= j / 12;
    assert a == b || LexBefore(a, b);
    BeforeIsCalendarOrder(a, b);
  }

  // ----------------------------------------------- custom range dialogs

  /** The custom range dialog of the online-order screen. Either date may be
      unset (`null`). */
  datatype OrderCustom = OrderCustom(from: Option<Date>, to: Option<Date>)

  predicate OrderCustomValid(s: OrderCustom) {
    (s.from.Some? ==> Valid(s.from.value)) && (s.to.Some? ==> Valid(s.to.value))
  }

  /** Neither date is set, or the set 'to' is not before the set 'from'. */
  predicate OrderCustomOrdered(s: OrderCustom)
    requires OrderCustomValid(s)
  {
    s.from.Some? && s.to.Some? ==> NotAfter(s.from.value, s.to.value)
  }

  /** Picking a 'from' date: it is stored, and a 'to' date before it is
      cleared. */
  function OrderPickFrom(s: OrderCustom, d: Date): (r: OrderCustom)
    requires OrderCustomValid(s) && Valid(d)
    ensures OrderCustomValid(r) && OrderCustomOrdered(r)
    ensures r.from == Some(d)
    ensures r.to == None <==> s.to == None || Before(s.to.value, d)
    ensures r.to.Some? ==> r.to == s.to
  {
    if s.to.Some? && Before(s.to.value, d) then OrderCustom(Some(d), None)
    else OrderCustom(Some(d), s.to)
  }

  /** The dates the pickers offer: never after today, and for 'to' never
      before a set 'from'. */
  predicate OrderPickableTo(s: OrderCustom, d: Date, today: Date)
    requires OrderCustomValid(s) && Valid(d) && Valid(today)
  {
    NotAfter(d, today) && (s.from.Some? ==> NotAfter(s.from.value, d))
  }

  /** Picking a 'to' date stores it. */
  function OrderPickTo(s: OrderCustom, d: Date): (r: OrderCustom)
    requires OrderCustomValid(s) && Valid(d)
    ensures OrderCustomValid(r)
    ensures r.to == Some(d) && r.from == s.from
  {
    OrderCustom(s.from, Some(d))
  }

  /** A 'to' date the picker offers keeps the range ordered. */
  lemma OrderPickToKeepsOrder(s: OrderCustom, d: Date, today: Date)
    requires OrderCustomValid(s) && Valid(d) && Valid(today)
    requires OrderPickableTo(s, d, today)
    ensures OrderCustomOrdered(OrderPickTo(s, d))
  {
  }

  /** SUBMIT: fetches the range when both dates are set, and otherwise only
      closes the dialog (the button is disabled then). */
  function OrderSubmit(s: OrderCustom): (r: Option<Range>)
    requires OrderCustomValid(s)
    ensures r.Some? <==> s.from.Some? && s.to.Some?
    ensures r.Some? ==> r.value.from == s.from.value && r.value.to == s.to.value
  {
    if s.from.Some? && s.to.Some? then Some(Range(s.from.value, s.to.value)) else None
  }

  /** Whatever the user picks through the pickers, a submitted custom range
      is ordered. */
  lemma OrderSubmitOrdered(s: OrderCustom)
    requires OrderCustomValid(s) && OrderCustomOrdered(s)
    ensures OrderSubmit(s).Some? ==> OrderedRange(OrderSubmit(s).value)
  {
  }

  /** The custom range dialog of the reservation screen; both dates start
      as today and are never unset. */
  datatype ResvCustom = ResvCustom(from: Date, to: Date)

  function ResvCustomInit(today: Date): ResvCustom {
    ResvCustom(today, today)
  }

  /** Picking a 'from' date: it is stored, and a 'to' date before it is
      moved up to it. */
  function ResvPickFrom(s: ResvCustom, d: Date): (r: ResvCustom)
    requires Valid(s.to) && Valid(d)
    ensures r.from == d && Valid(r.to)
    ensures NotAfter(r.from, r.to)
    ensures r.to == (if Before(s.to, d) then d else s.to)
  {
    if Before(s.to, d) then ResvCustom(d, d) else ResvCustom(d, s.to)
  }

  function ResvPickTo(s: ResvCustom, d: Date): (r: ResvCustom)
    ensures r.from == s.from && r.to == d
  {
    ResvCustom(s.from, d)
  }

  /** SUBMIT is disabled exactly when 'to' is before 'from'. */
  predicate ResvSubmitDisabled(s: ResvCustom)
    requires Valid(s.from) && Valid(s.to)
  {
    Before(s.to, s.from)
  }

  function ResvSubmit(s: ResvCustom): (r: Option<Range>)
    requires Valid(s.from) && Valid(s.to)
    ensures r.Some? <==> NotAfter(s.from, s.to)
    ensures r.Some? ==> r.value == Range(s.from, s.to)
  {
    if ResvSubmitDisabled(s) then None else Some(Range(s.from, s.to))
  }

  /** The dialog opened before any pick submits today's single-day range. */
  lemma ResvInitialSubmit(today: Date)
    requires Valid(today)
    ensures ResvSubmit(ResvCustomInit(today)) == Some(Range(today, today))
  {
  }

  /** Right after a 'from' pick the dialog can always be submitted. */
  lemma ResvPickFromEnablesSubmit(s: ResvCustom, d: Date)
    requires Valid(s.from) && Valid(s.to) && Valid(d)
    ensures ResvSubmit(ResvPickFrom(s, d)) == Some(Range(d, ResvPickFrom(s, d).to))
  {
  }
}
