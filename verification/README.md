# ChefOnline B2B back-office app: a Dafny model of its screen logic

The ChefOnline B2B app is a React Native back-office for restaurants. It
lists online orders and reservations, edits opening, reservation and
delivery/collection hours, manages tickets, invoices and reviews, and
changes passwords, PINs and branch settings. Nearly all of it is UI and
HTTP plumbing. The decision and transformation logic inside the screen
components is lifted out here as pure functions over immutable data and as
small step functions over the screens' state records. Every server
response is an input value of the `Json` datatype.

The modules follow the source files:

- **Shared layers**:
  - `Wrappers`: `Option`.
  - `JsText`: string trimming, splitting and case-folding as JavaScript does them on ASCII text.
  - `JsNumber`: `Number`, `parseFloat` and `parseInt` on decimal text, and `String` of a number.
  - `Json`: the loosely typed value, with JavaScript's truthiness, `??`, `||`, `String(x)`, property access and the rule for when a string method throws.
  - `CivilDate`: Gregorian civil dates and the normalisation of `new Date(y, m, d)`.
  - `ClockText`: 12-hour clock text.
  - `EmailRule`: the e-mail pattern of the login and add-branch screens.
- **Online orders**:
  - `OrderSummary`: the six summary figures and their fallbacks.
  - `DatePresets`: the filter presets and custom-range dialogs of the order and reservation lists.
  - `OrderDetail`: order-detail normalisation.
- **Reservations**:
  - `ReservationRecord`: status-to-tab mapping, 12-to-24-hour parsing and the sort key.
  - `ReservationList`: the two response shapes and the grouping into tabs.
  - `ReservationSort`: the stable ascending sort.
  - `ReservationDetail`: normalising one reservation for display.
- **Session**: `UserSession`, the Redux user slice and its selectors.
- **Settings screens**:
  - `OpeningHours`: opening hours.
  - `ReservationHours`: reservation hours.
  - `DeliveryCollection`: delivery and collection times.
  - `Tickets`: the ticket list.
  - `TicketAttachments`: ticket attachments.
  - `InvoiceList`: the invoice list.
  - `InvoiceDetail` and `InvoiceUrls`: invoice detail.
  - `Reviews`: reviews.
  - `PinSettings`: the PIN.
  - `ChangePassword`: changing the password.
  - `ChangePincode`: changing the PIN code.
  - `AddBranch`: adding a branch.
  - `LoginFlow`: login.
  - `FlagText`, `ReservationSetting` and `PartnerCenter`: the reservation and partner-centre switches.
  - `Faq`: the FAQ accordion.

Each operation carries a contract. Each has a partner: an inverse, an invariant it keeps, or an independent characterisation. An all-inputs lemma links the operation to its partner.

## Model

| member | source | states |
|---|---|---|
| OrderSummary.Summarize | src/screens/tabs/online-order/OnlineOrderScreen.jsx:84-176 | a response whose status is not the string '1' or whose orders are not an array gives all six figures 0, and so does one whose computation throws, which the catch at lines 164-176 turns into six zeros; otherwise each figure follows its own fallback |
| OrderSummary.OrderList | src/screens/tabs/online-order/OnlineOrderScreen.jsx:84-165 | the order list is the response's orders exactly when the status is '1', orders is an array and nothing throws afterwards; otherwise it is empty, the catch at line 165 emptying it after a throw |
| OrderSummary.FiguresPreferServer | src/screens/tabs/online-order/OnlineOrderScreen.jsx:108-176 | for a listed response that does not throw, each of the six figures (total, cash, card, order count, collection and delivery) shows its non-zero server value as sent and otherwise the figure derived from the orders; one that throws shows six zeros and no order (the catch at lines 164-176) |
| OrderSummary.FindThrowsSpec | src/screens/tabs/online-order/OnlineOrderScreen.jsx:110-116 | a payment find throws exactly when an entry whose method test throws (a null entry or a truthy method that is not text) comes before every entry of the method looked for |
| OrderSummary.NonTextPaymentMethodShowsNothing | src/screens/tabs/online-order/OnlineOrderScreen.jsx:133-176 | an order whose payment method is truthy but not text, such as the number 1, while the server gives no usable cash or card amount, makes the list empty and all six figures 0 |
| OrderSummary.AnyPermutation | src/screens/tabs/online-order/OnlineOrderScreen.jsx:127-152 | whether some order makes a fallback throw does not depend on the order of the orders |
| OrderSummary.ServerPaymentIsFirstEntry | src/screens/tabs/online-order/OnlineOrderScreen.jsx:110-118 | the server's cash or card amount is the parsed amount of the first payment entry of that method, whatever the entries after it hold |
| OrderSummary.FilterTotal | src/screens/tabs/online-order/OnlineOrderScreen.jsx:134-139 | summing the grand totals of the orders a filter keeps equals summing over all orders with the others counted as 0 |
| OrderSummary.TotalPermutation | src/screens/tabs/online-order/OnlineOrderScreen.jsx:128-131 | the derived total is the same for every ordering of the orders |
| OrderSummary.FilterLengthPermutation | src/screens/tabs/online-order/OnlineOrderScreen.jsx:143-151 | a derived count is the same for every ordering of the orders |
| OrderSummary.TypeCountsBounded | src/screens/tabs/online-order/OnlineOrderScreen.jsx:144-152 | the derived collection and delivery counts together never exceed the number of orders |
| OrderSummary.DerivedCountsBounded | src/screens/tabs/online-order/OnlineOrderScreen.jsx:121-152 | when neither count comes from the server, collection plus delivery orders shown is at most the length of the order list |
| OrderSummary.OtherFieldsKept | src/screens/tabs/online-order/OnlineOrderScreen.jsx:84-98 | replacing any field other than status and orders keeps a listed response listed with the same orders, whose figures, unless the new response throws, come from those orders |
| OrderSummary.ServerFiguresKept | src/screens/tabs/online-order/OnlineOrderScreen.jsx:109-124 | each server figure is read from its own field only, so replacing another field leaves it unchanged |
| OrderSummary.TotalIndependent | src/screens/tabs/online-order/OnlineOrderScreen.jsx:109-132 | when neither response throws, changing the server total changes no figure other than the total amount |
| OrderSummary.PaymentIndependent | src/screens/tabs/online-order/OnlineOrderScreen.jsx:110-142 | when neither response throws, changing the server payment list changes no figure other than the cash and card amounts |
| OrderSummary.OrderCountIndependent | src/screens/tabs/online-order/OnlineOrderScreen.jsx:120-143 | when neither response throws, changing the server order count changes no figure other than the number of orders |
| OrderSummary.CollectionIndependent | src/screens/tabs/online-order/OnlineOrderScreen.jsx:121-148 | when neither response throws, changing the server collection count changes no figure other than the collection count |
| OrderSummary.DeliveryIndependent | src/screens/tabs/online-order/OnlineOrderScreen.jsx:123-151 | when neither response throws, changing the server delivery count changes no figure other than the delivery count |
| OrderSummary.FiguresPermutation | src/screens/tabs/online-order/OnlineOrderScreen.jsx:127-152 | every fallback figure is the same for any permutation of the orders |
| OrderSummary.PaymentPermutation | src/screens/tabs/online-order/OnlineOrderScreen.jsx:133-142 | the cash and card fallbacks are the same for any permutation of the orders |
| OrderSummary.SummaryOrderIndependent | src/screens/tabs/online-order/OnlineOrderScreen.jsx:98-176 | reordering the orders of a listed response leaves all six figures unchanged, including whether the computation throws |
| DatePresets.OrderOption | src/screens/tabs/online-order/OnlineOrderScreen.jsx:189-233 | the order screen's option names map onto its seven presets, and only 'Custom Range' opens the dialog |
| DatePresets.ReservationOption | src/screens/tabs/reservation/ReservationScreen.jsx:210-266 | the reservation screen's option names map onto its nine presets, and only 'Custom Range' opens the dialog |
| DatePresets.Action | src/screens/tabs/online-order/OnlineOrderScreen.jsx:189-233 | every preset other than the custom one fetches a range of real calendar dates; the custom preset opens the dialog and an unknown option does nothing |
| DatePresets.ActionOrdered | src/screens/tabs/online-order/OnlineOrderScreen.jsx:189-225 | no preset range starts after it ends |
| DatePresets.MonthArgs | src/screens/tabs/reservation/ReservationScreen.jsx:230-257 | the month-based presets pass a start month index strictly below the end month index |
| DatePresets.OrderPreset | src/screens/tabs/online-order/OnlineOrderScreen.jsx:189-233 | the order filter fetches valid ranges and opens the dialog exactly for 'Custom Range' |
| DatePresets.OrderPresetOrdered | src/screens/tabs/online-order/OnlineOrderScreen.jsx:189-225 | every order preset range has from on or before to |
| DatePresets.OrderPresetDaySpans | src/screens/tabs/online-order/OnlineOrderScreen.jsx:192-213 | Today is [T,T], Yesterday [T-1,T-1], Last 7 Days [T-6,T] and Last 30 Days [T-29,T] |
| DatePresets.SingleDaySpan | src/screens/tabs/online-order/OnlineOrderScreen.jsx:196-201 | Yesterday and Tomorrow are the single day one day before or after today |
| DatePresets.BackDaysSpan | src/screens/tabs/online-order/OnlineOrderScreen.jsx:202-213 | Last 7 and Last 30 Days end today and start 6 or 29 days earlier |
| DatePresets.OrderPresetMonthSpans | src/screens/tabs/online-order/OnlineOrderScreen.jsx:214-225 | This Month runs from the 1st to the last day of today's month; Last Month is the whole previous month, December of the previous year in January |
| DatePresets.ThisMonthSpan | src/screens/tabs/online-order/OnlineOrderScreen.jsx:214-219 | This Month starts on the 1st and ends on the last day of today's month |
| DatePresets.LastMonthSpan | src/screens/tabs/online-order/OnlineOrderScreen.jsx:220-225 | Last Month is the whole of the month before today's, across a year boundary in January |
| DatePresets.ReservationPreset | src/screens/tabs/reservation/ReservationScreen.jsx:210-268 | the reservation filter fetches valid ranges and opens the dialog exactly for 'Custom Range' |
| DatePresets.ReservationPresetOrdered | src/screens/tabs/reservation/ReservationScreen.jsx:213-259 | every reservation preset range has from on or before to |
| DatePresets.ReservationPresetDaySpans | src/screens/tabs/reservation/ReservationScreen.jsx:214-229 | Tomorrow is [T+1,T+1] and Next week is [T,T+6] |
| DatePresets.NextWeekSpan | src/screens/tabs/reservation/ReservationScreen.jsx:224-229 | Next week starts today and ends six days later |
| DatePresets.ReservationPresetMonthSpans | src/screens/tabs/reservation/ReservationScreen.jsx:236-253 | Next Month, 'Next 3 month' and 'Next 6 month' start on the 1st of next month and end on the last day of month m+1, m+2 and m+5 |
| DatePresets.ReservationPresetNextYear | src/screens/tabs/reservation/ReservationScreen.jsx:254-258 | Next year is 1 January to 31 December of the following year |
| DatePresets.NextMonthRollsOverYear | src/screens/tabs/reservation/ReservationScreen.jsx:236-241 | in December, Next Month is January of the next year |
| DatePresets.Months | src/screens/tabs/reservation/ReservationScreen.jsx:231-257 | new Date(y, i, 1) to new Date(y, k, 0) is a pair of real calendar dates |
| DatePresets.MonthSpanOrdered | src/screens/tabs/reservation/ReservationScreen.jsx:231-257 | such a span with a start index below the end index is ordered |
| DatePresets.OrderPickFrom | src/screens/tabs/online-order/OnlineOrderScreen.jsx:490-494 | picking a from date stores it, clears a to date that is before it and otherwise keeps the to date, so the range stays ordered |
| DatePresets.OrderPickTo | src/screens/tabs/online-order/OnlineOrderScreen.jsx:495-497 | picking a to date stores it and keeps the from date |
| DatePresets.OrderPickToKeepsOrder | src/screens/tabs/online-order/OnlineOrderScreen.jsx:495-501 | a to date the picker offers, never before from, keeps the dialog's range ordered |
| DatePresets.OrderSubmit | src/screens/tabs/online-order/OnlineOrderScreen.jsx:471-475 | SUBMIT fetches exactly when both dates are set, and fetches exactly those dates |
| DatePresets.OrderSubmitOrdered | src/screens/tabs/online-order/OnlineOrderScreen.jsx:471-501 | a range submitted from picker-ordered dates has from on or before to |
| DatePresets.ResvPickFrom | src/screens/tabs/reservation/ReservationScreen.jsx:488-491 | picking a from date stores it and moves an earlier to date up to it, so from is never after to |
| DatePresets.ResvPickTo | src/screens/tabs/reservation/ReservationScreen.jsx:491-493 | picking a to date stores it and keeps the from date |
| DatePresets.ResvSubmit | src/screens/tabs/reservation/ReservationScreen.jsx:465-468 | SUBMIT fetches exactly when to is not before from, and fetches the dialog's two dates |
| DatePresets.ResvInitialSubmit | src/screens/tabs/reservation/ReservationScreen.jsx:65-66 | the dialog opened before any pick starts at today for both dates, so SUBMIT fetches today's single-day range (the submit rule at lines 465-468) |
| DatePresets.ResvPickFromEnablesSubmit | src/screens/tabs/reservation/ReservationScreen.jsx:465-491 | right after a from pick the dialog can always be submitted |
| CivilDate.DaysInMonth | src/screens/tabs/reservation/ReservationScreen.jsx:232 | a month has 28 to 31 days, and 29 exactly for February of a Gregorian leap year |
| CivilDate.NextDay | src/screens/tabs/reservation/ReservationScreen.jsx:219-220 | the day after a calendar date is a calendar date one day later |
| CivilDate.PrevDay | src/screens/tabs/online-order/OnlineOrderScreen.jsx:197-198 | the day before a calendar date is a calendar date one day earlier |
| CivilDate.AddDays | src/screens/tabs/reservation/ReservationScreen.jsx:225-226 | setDate(getDate() + n) gives a calendar date n days away |
| CivilDate.AddDaysNumber | src/screens/tabs/reservation/ReservationScreen.jsx:219-227 | moving n days changes the day count since 1970 by exactly n |
| CivilDate.AddDaysNotBefore | src/screens/tabs/reservation/ReservationScreen.jsx:224-227 | moving a non-negative number of days never goes back in time |
| CivilDate.FirstOfMonth | src/screens/tabs/reservation/ReservationScreen.jsx:237 | new Date(y, i, 1) with an overflowing month index i lands on the 1st of month i mod 12 of year y + i div 12 |
| CivilDate.MakeDate | src/screens/tabs/reservation/ReservationScreen.jsx:231-232 | new Date(y, i, d) is always a calendar date, whatever the overflow of i and d |
| CivilDate.LastOfMonth | src/screens/tabs/reservation/ReservationScreen.jsx:232 | the last day of a month is in that month and is its DaysInMonth-th day |
| CivilDate.DayZeroIsLastOfPreviousMonth | src/screens/tabs/reservation/ReservationScreen.jsx:232-238 | new Date(y, i + 1, 0) is the last day of month index i, also from December into the next year |
| CivilDate.DayZeroIsPrevDay | src/screens/tabs/online-order/OnlineOrderScreen.jsx:222-223 | new Date(y, i, 0) is the day before the 1st of month index i |
| CivilDate.DayOneIsFirst | src/screens/tabs/online-order/OnlineOrderScreen.jsx:221 | new Date(y, i, 1) is the 1st of month index i |
| CivilDate.BeforeIsCalendarOrder | src/screens/tabs/reservation/ReservationScreen.jsx:465 | comparing two dates as timestamps is comparing them by year, then month, then day |
| CivilDate.DayNumberInjective | src/screens/tabs/reservation/ReservationScreen.jsx:465 | two dates have the same timestamp exactly when they are the same date |
| CivilDate.MonthsMeet | src/screens/tabs/reservation/ReservationScreen.jsx:236-241 | the 1st of a month is the day after the last day of the month before |
| CivilDate.NewYearsEve | src/screens/tabs/reservation/ReservationScreen.jsx:254-257 | 1 January is the day after 31 December of the year before |
| CivilDate.FirstNotAfterLast | src/screens/tabs/online-order/OnlineOrderScreen.jsx:214-219 | a month's first day is not after its last day |
| ClockText.Fmt | src/screens/tabs/settings/opening-hour/OpeningHourScreen.jsx:86-93 | the formatter writes 'h:mm am' or 'h:mm pm', 7 or 8 characters, with 'am' exactly before noon |
| ClockText.Hour12 | src/screens/tabs/settings/opening-hour/OpeningHourScreen.jsx:90 | h % 12 or 12 is an hour from 1 to 12 congruent to h modulo 12 |
| ClockText.MatchClock | src/screens/tabs/reservation/ReservationScreen.jsx:23 | the pattern yields hour and minute digits of at most two places each |
| ClockText.ReadClock | src/screens/tabs/reservation/ReservationScreen.jsx:23-27 | the text after the minutes matches exactly when it is a case-insensitive AM or PM |
| ClockText.MatchClockShape | src/screens/tabs/reservation/ReservationScreen.jsx:23 | any one- or two-digit hour, two-digit minute, optional spaces and case-insensitive AM/PM is matched and read back piece by piece |
| ClockText.MinuteOfDay | src/screens/tabs/settings/reservation-hours/ReservationHours.jsx:123-127 | a time the 'hh:mm a' reading accepts is a minute of the day below 24 × 60 |
| ClockText.FmtRoundTrip | src/screens/tabs/settings/opening-hour/OpeningHourScreen.jsx:86-93 | reading back the formatter's text gives the 12-hour pieces it was made from and the minute of the day h × 60 + m |
| ClockText.FmtOrder | src/screens/tabs/settings/opening-hour/OpeningHourScreen.jsx:85-93 | two formatted times are 'open before close' exactly when the first time of day is strictly earlier |
| ClockText.Hour12Back | src/screens/tabs/settings/reservation-hours/ReservationHours.jsx:103-110 | the shown hour and the meridiem together give back the 24-hour hour |
| ClockText.Parse12to24 | src/screens/tabs/reservation/ReservationScreen.jsx:21-31 | the parsed hour and minute are below 100 |
| ClockText.To24 | src/screens/tabs/reservation/ReservationScreen.jsx:25-30 | PM before 12 adds 12 and 12 AM is 0; the minute is kept |
| ClockText.Parse12to24Range | src/screens/tabs/reservation/ReservationScreen.jsx:21-31 | a 12-hour time with hour 1..12 and minute 0..59 parses to a 24-hour time, hour 0..23 and minute 0..59 |
| ClockText.Parse12to24OfFmt | src/screens/tabs/reservation/ReservationScreen.jsx:21-31 | parse12to24 reads the formatter's text back as the same 24-hour time |
| ClockText.To24OfHour12 | src/screens/tabs/reservation/ReservationScreen.jsx:28-29 | the 24-hour reading of a 12-hour hour and meridiem is the original hour |
| ClockText.Parse12to24Examples | src/screens/tabs/reservation/ReservationScreen.jsx:20-31 | '1:00 AM', '6:40 PM' and '11:00 PM' parse to 1:00, 18:40 and 23:00 |
| ClockText.Parse12to24Missing | src/screens/tabs/reservation/ReservationScreen.jsx:22 | a falsy time parses to 0:00 |
| ClockText.ExampleTime | src/screens/tabs/reservation/ReservationScreen.jsx:21-31 | any 'h:mm AM' text with a space parses through the meridiem rule |
| EmailRule.EmailIsTrimmed | src/screens/tabs/settings/add-branch/AddBranch.jsx:12-39 | an address the pattern accepts is non-empty and has no whitespace at either end, so trimming it first changes nothing |
| EmailRule.OneAt | src/screens/tabs/settings/add-branch/AddBranch.jsx:12 | an accepted address has exactly one '@' |
| EmailRule.ShortAddress | src/screens/tabs/settings/add-branch/AddBranch.jsx:12 | 'a@b.co' is accepted |
| EmailRule.NoInnerSpace | src/screens/tabs/settings/add-branch/AddBranch.jsx:12 | text with a space anywhere in it is refused |
| JsText.TrimStart | src/screens/tabs/reservation/ReservationScreen.jsx:23 | trimStart drops exactly a leading run of whitespace and keeps the rest |
| JsText.TrimEnd | src/screens/tabs/reservation/ReservationScreen.jsx:23 | trimEnd drops exactly a trailing run of whitespace and keeps the rest |
| JsText.Trim | src/screens/tabs/settings/ticket-manager/TicketManager.jsx:127 | trim's result has no whitespace at either end |
| JsText.TrimEmptyIffAllSpace | src/screens/tabs/settings/ticket-manager/TicketManager.jsx:127 | a text trims to '' exactly when it is all whitespace |
| JsText.TrimStartSpaces | src/screens/tabs/reservation/ReservationScreen.jsx:23 | trimStart of whitespace followed by a non-space start is that start |
| JsText.TrimIdentity | src/screens/tabs/settings/add-branch/AddBranch.jsx:39-60 | trimming text without surrounding whitespace changes nothing |
| JsText.TrimTwice | src/screens/tabs/settings/review-manager/ReviewManager.jsx:102-107 | trimming twice is trimming once |
| JsText.Lower | src/screens/tabs/online-order/OnlineOrderScreen.jsx:112 | toLowerCase keeps the length and lowers each letter in place |
| JsText.ContainsEmpty | src/screens/tabs/settings/invoice-manager/InvoiceManager.jsx:81-84 | every text includes the empty text |
| JsText.KeepDigits | src/screens/tabs/settings/SettingsScreen.jsx:206 | removing every non-digit leaves only digits, no longer than the input, and leaves a digit string unchanged |
| JsText.KeepDigitsAppend | src/screens/tabs/settings/SettingsScreen.jsx:206 | removing the non-digits of a concatenation removes them from each part, so no digit is lost or reordered |
| JsText.Take | src/screens/tabs/settings/change-pincode/ChangePincode.jsx:35 | slice(0, n) is a prefix of length at most n, and the whole text when it is short enough |
| JsText.Split | src/screens/tabs/settings/ticket-manager/TicketDetail.jsx:26 | split on one character gives at least one piece and no piece contains the separator |
| JsText.SplitJoin | src/screens/tabs/settings/ticket-manager/TicketDetail.jsx:26 | joining the pieces of a split with the separator gives back the text |
| JsText.JoinSplit | src/screens/tabs/settings/ticket-manager/TicketDetail.jsx:26 | splitting a join of separator-free pieces gives back the pieces |
| JsText.SplitNone | src/screens/tabs/reservation/ReservationScreen.jsx:37 | a text without the separator splits into itself |
| JsText.SplitFirst | src/screens/tabs/reservation/ReservationScreen.jsx:37 | splitting at the first separator gives the piece before it, then the split of the rest |
| JsText.SplitKeepsOut | src/screens/tabs/settings/ticket-manager/TicketDetail.jsx:25-26 | a character absent from the text is absent from every piece of its split |
| JsText.RemoveChar | src/screens/tabs/settings/ticket-manager/TicketDetail.jsx:25 | removing every '"' leaves none, no longer text, and text without one unchanged |
| JsText.RemoveCharAppend | src/screens/tabs/settings/ticket-manager/TicketDetail.jsx:25 | removing a character distributes over concatenation |
| JsText.NatToString | src/screens/tabs/settings/delivery-and-collection/DeliveryAndCollection.jsx:100 | String(n) is a non-empty digit string worth n, without a leading zero unless n is 0, with one digit exactly below 10 |
| JsText.Pad2 | src/screens/tabs/settings/opening-hour/OpeningHourScreen.jsx:91 | a minute below 100 is written as exactly two digits worth that minute |
| JsNumber.DigitRun | src/screens/tabs/reservation/ReservationScreen.jsx:25-26 | parseInt reads the longest run of leading digits |
| JsNumber.ParseIntDigits | src/screens/tabs/settings/delivery-and-collection/DeliveryAndCollection.jsx:214-219 | parseInt of a digit string is its value, and of the empty string NaN |
| JsNumber.ParseIntOfNatToString | src/screens/tabs/reservation/ReservationScreen.jsx:37 | parseInt(String(n)) is n |
| JsNumber.ParseIntPrefix | src/screens/tabs/reservation/ReservationScreen.jsx:25-26 | parseInt stops at the first non-digit after the digits |
| JsNumber.StringToNumberOfInt | src/screens/tabs/online-order/order-detail.jsx/OrderDetailsScreen.jsx:8-9 | Number(String(i)) is i for every integer |
| JsNumber.SignedDigits | src/screens/tabs/online-order/order-detail.jsx/OrderDetailsScreen.jsx:8-9 | digits with an optional '-' in front read as their signed value |
| JsNumber.NumberToStringIsOne | src/screens/tabs/settings/review-manager/ReviewManager.jsx:132 | the text of a number is '1' exactly for the number 1 |
| Json.Coalesce | src/screens/tabs/reservation/ReservationScreen.jsx:109 | a ?? b is b exactly when a is null or undefined, and a otherwise |
| Json.Or | src/screens/tabs/online-order/OnlineOrderScreen.jsx:109 | the logical or of a and b is a when a is truthy and b otherwise |
| Json.FirstTruthy | src/screens/tabs/online-order/order-detail.jsx/OrderDetailsScreen.jsx:13-19 | a chain of logical ors gives the first truthy value, or the last fallback when none is truthy |
| Json.FirstPresent | src/screens/tabs/settings/invoice-manager/InvoiceDetail.jsx:38-41 | a chain of ?? gives the first value that is not null or undefined, or the last fallback |
| Json.Elements | src/screens/tabs/settings/opening-hour/OpeningHourScreen.jsx:103 | Array.isArray(v) ? v : [] gives the array's items, or nothing |
| Json.Filter | src/screens/tabs/online-order/OnlineOrderScreen.jsx:135 | filter keeps only elements that pass, each from the input, and keeps everything when all pass |
| Json.Find | src/screens/tabs/online-order/OnlineOrderScreen.jsx:111-116 | find's result, when there is one, passes the test |
| Json.FindSpec | src/screens/tabs/online-order/OnlineOrderScreen.jsx:111-116 | find gives nothing exactly when no element passes, and otherwise the first element that passes |
| Json.TruthyParts | src/screens/tabs/online-order/order-detail.jsx/OrderDetailsScreen.jsx:25-27 | filter(Boolean) is empty exactly when no part is truthy and drops nothing when all are |
| Json.OrZero | src/screens/tabs/online-order/OnlineOrderScreen.jsx:109 | x or 0 keeps a non-zero number and turns NaN into 0 |
| Json.MessageOr | src/screens/tabs/settings/change-password/ChangePassword.jsx:68-75 | the shown message is the response's msg when it is truthy, and the screen's own text otherwise |
| Json.StringOfIsOne | src/screens/tabs/settings/reservation-setting/ReservationSetting.jsx:46 | String(v) === '1' holds, apart from arrays, exactly for the string '1' and the number 1 |
| Json.ParseIntOfIntegralNumber | src/screens/tabs/settings/delivery-and-collection/DeliveryAndCollection.jsx:100 | parseInt of a natural number is that number |
| OrderDetail.ToNum | src/screens/tabs/online-order/order-detail.jsx/OrderDetailsScreen.jsx:8-9 | toNum is Number(v), except that undefined, null, '' and text that is not a number give the fallback |
| OrderDetail.NormalizeItem | src/screens/tabs/online-order/order-detail.jsx/OrderDetailsScreen.jsx:14-19 | normalising a null or undefined line item throws; for any other item the quantity defaults to 1 and the price to 0 when their fields are all missing, a truthy name is kept, and otherwise the name is a truthy alternative or 'Item' |
| OrderDetail.NormalizeItems | src/screens/tabs/online-order/order-detail.jsx/OrderDetailsScreen.jsx:13-19 | normalising the items throws exactly when one of them is null or undefined; otherwise it keeps their number and order, item by item |
| OrderDetail.RawItems | src/screens/tabs/online-order/order-detail.jsx/OrderDetailsScreen.jsx:30-34 | the line items are the first array among items, order_items and details.items, or none |
| OrderDetail.Address | src/screens/tabs/online-order/order-detail.jsx/OrderDetailsScreen.jsx:25-38 | the address is the ', '-join of the truthy parts among address, address1, address2, city, town and postcode, or '—' when none is truthy |
| OrderDetail.NormalizeOrder | src/screens/tabs/online-order/order-detail.jsx/OrderDetailsScreen.jsx:21-50 | a falsy order normalises to nothing; a truthy one throws exactly when a line item is null or undefined; otherwise items and address are as above, and subtotal, discount and total are 0 when both of their source fields are missing |
| OrderDetail.WithTotals | src/screens/tabs/online-order/order-detail.jsx/OrderDetailsScreen.jsx:86-98 | an order with a positive figure or without items is kept; otherwise the subtotal becomes the line sum and the total the line sum less the discount |
| OrderDetail.ShownOrder | src/screens/tabs/online-order/order-detail.jsx/OrderDetailsScreen.jsx:81-99 | the screen fails exactly when normalising the route order throws; a truthy route order is otherwise shown normalised with the totals fallback, and a missing one shows the normalised built-in order |
| OrderDetail.PositiveTotalsKept | src/screens/tabs/online-order/order-detail.jsx/OrderDetailsScreen.jsx:86-98 | an order that normalises, with a positive subtotal, total or discount, is shown exactly as normalised |
| OrderDetail.FallbackTotalsConsistent | src/screens/tabs/online-order/order-detail.jsx/OrderDetailsScreen.jsx:86-96 | for an order that normalises with items and no positive figure, the subtotal shown is the sum of price × quantity over the items and the total is the subtotal less the discount |
| OrderDetail.NullItemFailsScreen | src/screens/tabs/online-order/order-detail.jsx/OrderDetailsScreen.jsx:13-19 | a truthy route order with a null or undefined line item makes the screen fail (the items are normalised inside the memo at lines 81-83) |
| OrderDetail.PriceQtyItem | src/screens/tabs/online-order/order-detail.jsx/OrderDetailsScreen.jsx:14-19 | an entry with only price and qty keeps both and is named 'Item' |
| OrderDetail.ItemsOnlyNormalized | src/screens/tabs/online-order/order-detail.jsx/OrderDetailsScreen.jsx:13-48 | an order carrying only two items throws exactly when one of them is null or undefined, and otherwise normalises to zero figures and those two items |
| OrderDetail.FallbackTotalsExample | src/screens/tabs/online-order/order-detail.jsx/OrderDetailsScreen.jsx:86-96 | two items p1 × q1 and p2 × q2 with no figures show p1 × q1 + p2 × q2 as both subtotal and total, so 10 × 2 and 5 × 1 give 25 |
| OrderDetail.MissingOrderShowsFallback | src/screens/tabs/online-order/order-detail.jsx/OrderDetailsScreen.jsx:53-84 | with no route order the screen shows the built-in order: Julie Bowles, 7 items, subtotal 87 and total 78.3 |
| OrderDetail.FallbackNameAndItems | src/screens/tabs/online-order/order-detail.jsx/OrderDetailsScreen.jsx:37-74 | the built-in order normalises to the name Julie Bowles and 7 items |
| OrderDetail.NameField | src/screens/tabs/online-order/order-detail.jsx/OrderDetailsScreen.jsx:37 | with no customer_name, a truthy name is the order's name |
| OrderDetail.FallbackTotals | src/screens/tabs/online-order/order-detail.jsx/OrderDetailsScreen.jsx:45-64 | the built-in order keeps its total 78.3 and subtotal 87 |
| ReservationRecord.StatusToTab | src/screens/tabs/reservation/ReservationScreen.jsx:15-19 | '1' and 'accepted' map to CONFIRMED and '-1' and 'rejected' to REJECTED, case-sensitively; everything else, '' included, maps to UNCONFIRMED |
| ReservationRecord.NameParts | src/screens/tabs/reservation/ReservationScreen.jsx:98 | at most three name parts, and none when title, first and last name are all falsy |
| ReservationRecord.JoinedName | src/screens/tabs/reservation/ReservationScreen.jsx:98 | the joined name has no whitespace at either end |
| ReservationRecord.DisplayName | src/screens/tabs/reservation/ReservationScreen.jsx:98-102 | the list name is the joined name when it is non-empty, and '—' whenever the joined name is empty, in particular when there are no name parts |
| ReservationRecord.IsoTime | src/screens/tabs/reservation/ReservationScreen.jsx:39-40 | the built date-time text is a valid time exactly when the year has four digits, the date is a calendar date and the time is at most 24:00 |
| ReservationRecord.Email | src/screens/tabs/reservation/ReservationScreen.jsx:104 | trimming the e-mail throws exactly when it is truthy but not text; otherwise the e-mail is the trimmed text, or '' when it is falsy |
| ReservationRecord.Status | src/screens/tabs/reservation/ReservationScreen.jsx:109 | the record's own status is used unless it is null or undefined, and then the bucket's status code |
| ReservationRecord.Normalize | src/screens/tabs/reservation/ReservationScreen.jsx:96-113 | normalising an element throws exactly when it is null or undefined, its date is truthy but not text (the split at line 37) or its e-mail is; otherwise the record has a non-empty name, the status rule above, the trimmed e-mail, the element's date and time, and the sort key of that date and time |
| ReservationRecord.MinuteIndexOrder | src/screens/tabs/reservation/ReservationScreen.jsx:39-40 | a later minute on the same day, or any minute on a later day, has a larger time value |
| ReservationRecord.IsoTimeOrder | src/screens/tabs/reservation/ReservationScreen.jsx:35-42 | valid date-times before 24:00 order by date, then hour, then minute |
| ReservationRecord.IsoTimeMidnight | src/screens/tabs/reservation/ReservationScreen.jsx:39-40 | 24:00 of a day is midnight of the next day |
| ReservationRecord.EmptyDateFirst | src/screens/tabs/reservation/ReservationScreen.jsx:35-42 | an empty or null date sorts as the epoch, no later than any date-time from 1970 on |
| ReservationRecord.MissingDateKey | src/screens/tabs/reservation/ReservationScreen.jsx:36 | a falsy date gives the epoch whatever the time |
| ReservationRecord.IsoTimeAfterEpoch | src/screens/tabs/reservation/ReservationScreen.jsx:39-40 | a valid date-time from 1970 on has a non-negative time value |
| ReservationRecord.ExampleTimesOrder | src/screens/tabs/reservation/ReservationScreen.jsx:20-42 | on one date, 1:00 AM, 6:40 PM and 11:00 PM sort in that order |
| ReservationRecord.SortKeyWithTime | src/screens/tabs/reservation/ReservationScreen.jsx:35-42 | with a date present, the key is the date-time of its day, month and year fields and the time parse12to24 reads, and NaN when the fields do not parse |
| ReservationRecord.DateFieldsOfDmy | src/screens/tabs/reservation/ReservationScreen.jsx:37 | 'DD-MM-YYYY' text reads back as its day, month and year |
| ReservationRecord.SortKeyOfDmy | src/screens/tabs/reservation/ReservationScreen.jsx:35-42 | the key of a 'DD-MM-YYYY' date with a time is the date-time of that date and time |
| ReservationRecord.DmyKeysOrder | src/screens/tabs/reservation/ReservationScreen.jsx:35-42 | for well-formed dates and 12-hour times, one key is smaller than another exactly when its (year, month, day, hour, minute) is lexicographically smaller |
| ReservationList.BucketItems | src/screens/tabs/reservation/ReservationScreen.jsx:97 | a sub-bucket's records are its list when that is an array, else the sub-bucket itself when it is an array, else none |
| ReservationList.NormalizeAll | src/screens/tabs/reservation/ReservationScreen.jsx:97-113 | normalising a list throws exactly when one of its elements does; otherwise each record is normalised in place with the same missing-status code, none added or dropped |
| ReservationList.LegacyRecords | src/screens/tabs/reservation/ReservationScreen.jsx:147-162 | the legacy loop throws exactly when one element of reservation_list does; otherwise it yields one record per element, and none when reservation_list is not an array |
| ReservationList.Push | src/screens/tabs/reservation/ReservationScreen.jsx:164-165 | pushing a record appends it to the list of its own status's tab and leaves the other two lists alone |
| ReservationList.OnTab | src/screens/tabs/reservation/ReservationScreen.jsx:148-166 | the records of one tab are a selection of the records |
| ReservationList.GroupAndSort | src/screens/tabs/reservation/ReservationScreen.jsx:130-188 | when grouping throws, the catch at lines 185-188 stores three empty tabs; otherwise each stored tab list is a sorted permutation of its grouped list |
| ReservationList.SortEach | src/screens/tabs/reservation/ReservationScreen.jsx:170 | each tab list is sorted on its own |
| ReservationList.PushAllIsOnTab | src/screens/tabs/reservation/ReservationScreen.jsx:148-166 | the legacy loop files every record under exactly its own tab, keeping list order |
| ReservationList.OnTabSizes | src/screens/tabs/reservation/ReservationScreen.jsx:148-166 | every record lands on exactly one tab, so the three sizes add up to the number of records |
| ReservationList.LegacyPartition | src/screens/tabs/reservation/ReservationScreen.jsx:145-170 | in the legacy shape without a throwing element the three tab counts add up to the length of reservation_list and each tab holds exactly its records; a throwing element or a non-array list gives three empty tabs |
| ReservationList.MergeAllConcatenates | src/screens/tabs/reservation/ReservationScreen.jsx:136-140 | a status bucket's records are today's, then tomorrow's, then the upcoming ones, and merging throws exactly when one of the three sub-buckets does |
| ReservationList.MergeAllStatus | src/screens/tabs/reservation/ReservationScreen.jsx:109-144 | in the structured shape a record keeps its own status and gets the bucket's code only when its status is null or undefined |
| ReservationList.StructuredTabs | src/screens/tabs/reservation/ReservationScreen.jsx:132-144 | in the structured shape grouping succeeds exactly when no element throws, and then accepted records go to CONFIRMED with '1', pending to UNCONFIRMED with '3' and rejected to REJECTED with '-1' |
| ReservationList.GroupAndSortStable | src/screens/tabs/reservation/ReservationScreen.jsx:170 | within each sorted tab, records with the same key keep the order they had in the response |
| ReservationList.AnyThrowsAppend | src/screens/tabs/reservation/ReservationScreen.jsx:136-140 | an element of concatenated sub-buckets throws exactly when one of either part does |
| ReservationList.NormalizeAllAppend | src/screens/tabs/reservation/ReservationScreen.jsx:136-140 | normalising concatenated sub-buckets succeeds exactly when each part does, and then gives the parts' records one after the other |
| ReservationList.GroupFailsIffSomeThrows | src/screens/tabs/reservation/ReservationScreen.jsx:130-188 | grouping fails, and the catch runs, exactly when some element offered by the response throws on normalisation |
| ReservationList.ThrowingRecordEmptiesTabs | src/screens/tabs/reservation/ReservationScreen.jsx:185-188 | one element that throws, in any bucket of either shape, leaves all three tabs empty with count 0 |
| ReservationList.NonTextEmailEmptiesTabs | src/screens/tabs/reservation/ReservationScreen.jsx:151-188 | a legacy element whose e-mail is truthy but not text, such as a number, leaves all three tabs empty |
| ReservationSort.SortedAscending | src/screens/tabs/reservation/ReservationScreen.jsx:170 | with every key a number, the comparator's order is ascending order of the keys |
| ReservationSort.WithKey | src/screens/tabs/reservation/ReservationScreen.jsx:170 | the records sharing one key, each with that key |
| ReservationSort.Insert | src/screens/tabs/reservation/ReservationScreen.jsx:170 | inserting one record adds exactly that record |
| ReservationSort.SortByKey | src/screens/tabs/reservation/ReservationScreen.jsx:170 | the sort keeps the length and the records, as a permutation |
| ReservationSort.InsertSorted | src/screens/tabs/reservation/ReservationScreen.jsx:170 | inserting into a sorted list keeps it sorted |
| ReservationSort.SortByKeySorted | src/screens/tabs/reservation/ReservationScreen.jsx:170 | the sort's output is ordered as the comparator a.sortKey - b.sortKey demands |
| ReservationSort.SortByKeyStable | src/screens/tabs/reservation/ReservationScreen.jsx:170 | records with equal keys keep their relative order |
| ReservationSort.InsertWithKey | src/screens/tabs/reservation/ReservationScreen.jsx:170 | inserting into a sorted list puts the record after every record with the same key |
| ReservationDetail.ToNum | src/screens/tabs/reservation/reservation-detail/ReservationDetailScreen.jsx:9 | this screen's toNum is Number(v) for a truthy v with a non-zero number, and the fallback otherwise |
| ReservationDetail.NormalizeDetail | src/screens/tabs/reservation/reservation-detail/ReservationDetailScreen.jsx:11-34 | a falsy reservation gives the no-data screen; a truthy one whose e-mail is truthy but not text makes the trim at line 27 throw, so the screen fails; otherwise name, date and time are always truthy and the e-mail is the trimmed text |
| ReservationDetail.FullName | src/screens/tabs/reservation/reservation-detail/ReservationDetailScreen.jsx:13-14 | the shown name is never empty or falsy |
| ReservationDetail.ActionsOnlyWhenUnconfirmed | src/screens/tabs/reservation/reservation-detail/ReservationDetailScreen.jsx:118 | Accept and Reject are shown exactly for the status 'UNCONFIRMED', or when no status is passed (the status defaults at line 41) |
| ReservationDetail.DetailNameMatchesList | src/screens/tabs/reservation/reservation-detail/ReservationDetailScreen.jsx:13-14 | without a name field the detail, when shown, has the same composed name as the reservation list |
| ReservationDetail.DetailEmailMatchesList | src/screens/tabs/reservation/reservation-detail/ReservationDetailScreen.jsx:27 | the detail and the list trim the e-mail the same way: a record the list can normalise is shown with the same e-mail, and an e-mail that makes the detail fail makes the list throw too |
| ReservationDetail.GuestsFallback | src/screens/tabs/reservation/reservation-detail/ReservationDetailScreen.jsx:9-29 | when shown, guests is the number of the first present of guests, no_of_guest and person, and 0 when that is absent or not a number |
| ReservationDetail.ToNumOfZero | src/screens/tabs/reservation/reservation-detail/ReservationDetailScreen.jsx:9 | a 0 guest count, number or text, becomes the fallback |
| ReservationDetail.CreatedAtFallback | src/screens/tabs/reservation/reservation-detail/ReservationDetailScreen.jsx:21-32 | the creation time is the first truthy of the five creation fields, else '—' |
| UserSession.LoginStep | src/store/slices/userSlice.js:15-29 | login logs in with the payload as user info and keeps the PIN; exactly one assigned restaurant becomes active; with several or none, an active restaurant, or a payload without rest_id, leaves the active restaurant alone |
| UserSession.HydrateStep | src/store/slices/userSlice.js:44-52 | hydration sets user info (and logs in) only for truthy stored user info, the active restaurant only for a truthy stored one, and the PIN whenever it is not undefined; every other field is kept |
| UserSession.SelectRestId | src/store/slices/userSlice.js:66-67 | the restaurant id is the active restaurant's id when truthy, else the user's rest_id when truthy, else null, and never another falsy value |
| UserSession.SelectAssignRestaurants | src/store/slices/userSlice.js:64 | the assigned restaurants are the user's list when it is truthy, and an empty list otherwise |
| UserSession.LogoutResets | src/store/slices/userSlice.js:3-36 | logout restores the initial state whatever came before, doing it twice is doing it once, and the selectors then give null and [] |
| UserSession.SettersTouchOneField | src/store/slices/userSlice.js:37-42 | setPinCode and setActiveRestaurant store their payload, or null for a falsy one, and change nothing else |
| UserSession.LoginSelectsRestId | src/store/slices/userSlice.js:24-67 | logging in with a truthy rest_id and no restaurant active selects that rest_id |
| UserSession.OnlyLogoutLogsOut | src/store/slices/userSlice.js:15-52 | no action other than logout logs a logged-in user out |
| UserSession.LoggedOutOnlyByLogout | src/store/slices/userSlice.js:15-52 | a logged-in store that ends logged out after any sequence of actions has seen a logout |
| UserSession.RunAfterLogout | src/store/slices/userSlice.js:31-36 | after the last logout the store depends only on the actions that follow it |
| OpeningHours.DaysOf | src/screens/tabs/settings/opening-hour/OpeningHourScreen.jsx:103 | the days shown are the response when it is an array, else its openingHours when that is an array, else none (the render maps only an array, at line 251) |
| OpeningHours.AddButtons | src/screens/tabs/settings/opening-hour/OpeningHourScreen.jsx:295-317 | a day with no shift offers one ADD SHIFT with count 0, a day with one shift offers one with count 1, and a day with two or more offers none |
| OpeningHours.AskAdd | src/screens/tabs/settings/opening-hour/OpeningHourScreen.jsx:185-191 | opening the add dialog sets the day and the next shift number to the count + 1, clears both times and changes nothing else |
| OpeningHours.AskEdit | src/screens/tabs/settings/opening-hour/OpeningHourScreen.jsx:146-152 | opening the edit dialog preloads the shift's id and its own opening and closing times |
| OpeningHours.DoAdd | src/screens/tabs/settings/opening-hour/OpeningHourScreen.jsx:193-202 | adding needs a day and a shift number (else nothing happens), then both times, then opening strictly before closing; only then is the shift sent with the dialog's values |
| OpeningHours.DoEdit | src/screens/tabs/settings/opening-hour/OpeningHourScreen.jsx:154-159 | editing does nothing without a shift and goes ahead exactly when the opening is strictly before the closing |
| OpeningHours.AddNumbering | src/screens/tabs/settings/opening-hour/OpeningHourScreen.jsx:295-317 | the ADD SHIFT of a day with n < 2 shifts numbers the new shift n + 1 (the number is set by askAdd at lines 185-191) |
| OpeningHours.AddNeedsBothTimes | src/screens/tabs/settings/opening-hour/OpeningHourScreen.jsx:185-198 | confirming right after opening the add dialog reports the missing times, or does nothing without a day |
| OpeningHours.AddAfterPicking | src/screens/tabs/settings/opening-hour/OpeningHourScreen.jsx:193-202 | after picking both times, confirming adds the shift exactly when the picked opening is strictly earlier than the closing (times formatted as at lines 86-93) |
| OpeningHours.PickedAddTimes | src/screens/tabs/settings/opening-hour/OpeningHourScreen.jsx:86-93 | the pickers store the formatted times in the add dialog's fields |
| OpeningHours.FmtCompare | src/screens/tabs/settings/opening-hour/OpeningHourScreen.jsx:85-93 | two formatted times are in order exactly when the times of day are |
| OpeningHours.EditOfStoredShift | src/screens/tabs/settings/opening-hour/OpeningHourScreen.jsx:146-159 | the edit dialog opened on a stored shift saves exactly when its stored times parse and are in order |
| ReservationHours.DayList | src/screens/tabs/settings/reservation-hours/ReservationHours.jsx:80-84 | the day list is the response when it is an array, else its openingHours array, else none |
| ReservationHours.WithShiftArray | src/screens/tabs/settings/reservation-hours/ReservationHours.jsx:85 | a stored day keeps every field of the loaded day except shift, which becomes [] when it is not an array (a null day throws, see WithShiftArrays) |
| ReservationHours.Days | src/screens/tabs/settings/reservation-hours/ReservationHours.jsx:80-85 | storing the days throws exactly when a loaded day is null or undefined; otherwise the stored days are the loaded days one for one, each with its shift list made an array |
| ReservationHours.WithShiftArrays | src/screens/tabs/settings/reservation-hours/ReservationHours.jsx:85 | mapping the days throws exactly when one of them is null or undefined; otherwise it keeps their number and makes each one's shift list an array |
| ReservationHours.Load | src/screens/tabs/settings/reservation-hours/ReservationHours.jsx:76-91 | a load alerts exactly when the request or the day mapping throws, and then keeps the previous days; otherwise it stores the mapped days |
| ReservationHours.NullDayKeepsDays | src/screens/tabs/settings/reservation-hours/ReservationHours.jsx:80-91 | a response holding a null day makes the load alert and keep the days already shown |
| ReservationHours.HasAnyShiftExists | src/screens/tabs/settings/reservation-hours/ReservationHours.jsx:135-138 | hasAnyShift holds exactly when some day has a non-empty shift list |
| ReservationHours.LoadedShifts | src/screens/tabs/settings/reservation-hours/ReservationHours.jsx:135-138 | a load that throws keeps the previous days and their banner; otherwise there is a shift exactly when some loaded day carried a non-empty shift array, and the empty banner shows exactly when none did (days are loaded at lines 80-91) |
| ReservationHours.OpenEdit | src/screens/tabs/settings/reservation-hours/ReservationHours.jsx:145-150 | opening the edit dialog preloads the shift's id and its opening and closing times and changes nothing else |
| ReservationHours.OpenAdd | src/screens/tabs/settings/reservation-hours/ReservationHours.jsx:152-158 | opening the add dialog sets the day and shift number, clears both add times and changes nothing else |
| ReservationHours.Buttons | src/screens/tabs/settings/reservation-hours/ReservationHours.jsx:303-341 | a day with no shifts offers only ADD SHIFT; a day with shifts offers CLOSE, EDIT and ADD SHIFT |
| ReservationHours.ConfirmClose | src/screens/tabs/settings/reservation-hours/ReservationHours.jsx:160-164 | closing sends the selected shift's id, and does nothing without one |
| ReservationHours.SaveEdit | src/screens/tabs/settings/reservation-hours/ReservationHours.jsx:183-192 | saving sends exactly when a shift is selected and editValid holds, and otherwise reports invalid times |
| ReservationHours.ConfirmAdd | src/screens/tabs/settings/reservation-hours/ReservationHours.jsx:211-226 | adding sends the day, times and shift number exactly when a day is selected and addValid holds, and otherwise reports invalid times |
| ReservationHours.ValidIffOrdered | src/screens/tabs/settings/reservation-hours/ReservationHours.jsx:123-133 | editValid and addValid hold exactly when both texts read as times of day and the opening is strictly earlier |
| ReservationHours.LastShiftTargeted | src/screens/tabs/settings/reservation-hours/ReservationHours.jsx:316-330 | CLOSE and EDIT on a day with shifts both select its last shift, and EDIT loads that shift's times |
| ReservationHours.AddNumbering | src/screens/tabs/settings/reservation-hours/ReservationHours.jsx:304-336 | ADD SHIFT numbers the new shift one past the day's shift count, so 1 on an empty day, for that day's number, with both times cleared |
| ReservationHours.DisabledButtonsSendNothing | src/screens/tabs/settings/reservation-hours/ReservationHours.jsx:408-445 | a disabled SAVE or CONFIRM guards a handler that would only report invalid times |
| ReservationHours.AddRightAfterOpening | src/screens/tabs/settings/reservation-hours/ReservationHours.jsx:211-215 | confirming right after ADD SHIFT reports invalid times, since both add times were cleared (the add dialog clears both times at lines 152-158) |
| ReservationHours.AddAfterPicking | src/screens/tabs/settings/reservation-hours/ReservationHours.jsx:211-226 | after picking both add times, confirming sends exactly when the opening is strictly earlier, with the number chosen when the dialog opened (times formatted as at lines 103-110) |
| ReservationHours.ConfirmAddTimes | src/screens/tabs/settings/reservation-hours/ReservationHours.jsx:211-226 | with given add times, confirming sends exactly when a day is selected and the times are in order, with the selected shift number |
| ReservationHours.EditOfLastShift | src/screens/tabs/settings/reservation-hours/ReservationHours.jsx:183-192 | the edit dialog opened on a day's last shift saves exactly when that shift has an id and its stored times are valid and in order (the edit target is chosen at lines 327-330) |
| DeliveryCollection.Days | src/screens/tabs/settings/delivery-and-collection/DeliveryAndCollection.jsx:84 | the loaded days are the response's opening_shift array, and none when that field is not an array |
| DeliveryCollection.FindForShift | src/screens/tabs/settings/delivery-and-collection/DeliveryAndCollection.jsx:98-101 | a day whose shift field is not an array has no entry; any entry found is for the requested shift number and policy name |
| DeliveryCollection.FindForShiftFirst | src/screens/tabs/settings/delivery-and-collection/DeliveryAndCollection.jsx:98-101 | the lookup throws exactly when a null or undefined entry comes before every matching one; nothing is found exactly when no entry matches or is null; an entry found is the first one in the day's list for that shift and policy |
| DeliveryCollection.EntryMatches | src/screens/tabs/settings/delivery-and-collection/DeliveryAndCollection.jsx:100 | an entry whose shift is the number or its decimal text and whose policy name is the policy's matches, since both sides are compared as strings |
| DeliveryCollection.StringOfNat | src/screens/tabs/settings/delivery-and-collection/DeliveryAndCollection.jsx:100 | the string form of a whole number is its decimal digits |
| DeliveryCollection.DayRows | src/screens/tabs/settings/delivery-and-collection/DeliveryAndCollection.jsx:295-313 | drawing a day throws exactly when the day is null or undefined or one of its four cell lookups throws; otherwise the day shows exactly two shift rows, numbered 1 and 2 in that order |
| DeliveryCollection.RowCell | src/screens/tabs/settings/delivery-and-collection/DeliveryAndCollection.jsx:131-133 | when a day can be drawn, row k shows, for each policy, the cell looked up for shift k + 1 |
| DeliveryCollection.NullFirstEntryBreaksDay | src/screens/tabs/settings/delivery-and-collection/DeliveryAndCollection.jsx:98-101 | a day whose shift list starts with a null entry cannot be drawn (the day is drawn at lines 295-313) |
| DeliveryCollection.AddTargetOfRow | src/screens/tabs/settings/delivery-and-collection/DeliveryAndCollection.jsx:123-168 | when a drawable day holds no entry for a row and policy, the cell is an add action recording the day number, the shift number, the policy's id field of the day and the policy name |
| DeliveryCollection.SanitizeMinutes | src/screens/tabs/settings/delivery-and-collection/DeliveryAndCollection.jsx:327-367 | the minutes input holds only digits and at most three of them, and text that already satisfies both is kept as typed |
| DeliveryCollection.SanitizeIdempotent | src/screens/tabs/settings/delivery-and-collection/DeliveryAndCollection.jsx:327 | cleaning the input twice gives the same text as cleaning it once |
| DeliveryCollection.TypeMinutes | src/screens/tabs/settings/delivery-and-collection/DeliveryAndCollection.jsx:327 | after a keystroke the stored minutes are digits only and at most three long |
| DeliveryCollection.PositiveMinutes | src/screens/tabs/settings/delivery-and-collection/DeliveryAndCollection.jsx:215-245 | the typed minutes are accepted exactly when parseInt yields a number above zero, and the accepted value is positive |
| DeliveryCollection.PositiveDigits | src/screens/tabs/settings/delivery-and-collection/DeliveryAndCollection.jsx:215-216 | a digit string is accepted exactly when it is non-empty and not all zeros, and its value is the number it spells |
| DeliveryCollection.SanitizedMinutesAccepted | src/screens/tabs/settings/delivery-and-collection/DeliveryAndCollection.jsx:215-216 | for any text the input can hold, the save handlers accept it exactly when it is non-empty with a non-zero value, and send that value |
| DeliveryCollection.EmptyMinutesRejected | src/screens/tabs/settings/delivery-and-collection/DeliveryAndCollection.jsx:216-218 | empty minutes are never accepted |
| DeliveryCollection.PressExisting | src/screens/tabs/settings/delivery-and-collection/DeliveryAndCollection.jsx:103-106 | pressing an entry selects it and its day and fills the input with its minutes, or empty text when they are missing, leaving the dialogs and the add target alone |
| DeliveryCollection.PressAdd | src/screens/tabs/settings/delivery-and-collection/DeliveryAndCollection.jsx:123-129 | pressing an add action records its target, clears the input and opens the add dialog, leaving the selected entry and the edit dialog alone |
| DeliveryCollection.SaveEdit | src/screens/tabs/settings/delivery-and-collection/DeliveryAndCollection.jsx:214-222 | saving an edit reports empty-or-zero exactly when the minutes are not a positive number; otherwise it sends the selected entry's id with the parsed minutes |
| DeliveryCollection.SaveAdd | src/screens/tabs/settings/delivery-and-collection/DeliveryAndCollection.jsx:243-261 | saving an add reports empty-or-zero exactly when the minutes are not positive, reports permission denied exactly when they are positive but the policy id is missing, and otherwise sends the rest id with the target's day, policy id, shift number and the minutes |
| DeliveryCollection.SaveAddSends | src/screens/tabs/settings/delivery-and-collection/DeliveryAndCollection.jsx:249-261 | with positive minutes and a target, the add request is sent exactly when the policy id is present (truthy or 0) |
| DeliveryCollection.AddWithoutMinutes | src/screens/tabs/settings/delivery-and-collection/DeliveryAndCollection.jsx:243-248 | opening the add dialog and saving without typing is rejected for empty minutes before the policy id is checked |
| DeliveryCollection.AddFromCell | src/screens/tabs/settings/delivery-and-collection/DeliveryAndCollection.jsx:243-261 | adding from a row's cell of a drawable day with typed positive minutes sends that day's number, the policy id field and the row's shift number exactly when the policy id is truthy or 0 (the add target is recorded at lines 123-129) |
| DeliveryCollection.AfterClose | src/screens/tabs/settings/delivery-and-collection/DeliveryAndCollection.jsx:205-210 | after a close both dialogs are shut and the selected entry and the minutes input are cleared, whatever the answer; the day and the add target stay |
| DeliveryCollection.CloseFromCell | src/screens/tabs/settings/delivery-and-collection/DeliveryAndCollection.jsx:177-192 | closing from a row's cell of a drawable day that shows an entry sends the id of the first entry of the day's list for that shift and policy (the entry reaches the close through its cell at lines 142-145 and 159-162) |
| DeliveryCollection.ClosedScreenSendsNothing | src/screens/tabs/settings/delivery-and-collection/DeliveryAndCollection.jsx:205-247 | after a close, saving either dialog reports empty minutes rather than sending a request |
| Tickets.ChooseSort | src/screens/tabs/settings/ticket-manager/TicketManager.jsx:271-273 | choosing ALL stores the empty sort value and is the only choice that leaves the list unfiltered; PENDING and RESOLVED filter it |
| Tickets.ComplainStatus | src/screens/tabs/settings/ticket-manager/TicketManager.jsx:43 | the status sent is 1 exactly for PENDING and 2 for every other sort value |
| Tickets.QueryFor | src/screens/tabs/settings/ticket-manager/TicketManager.jsx:42-68 | a filtered sort value asks the filtered list endpoint, with status 1 exactly for PENDING; an unfiltered one asks the plain list with the pincode; both send the user id and the page offset as the limit |
| Tickets.Received | src/screens/tabs/settings/ticket-manager/TicketManager.jsx:70-73 | an appending fetch adds the incoming page after the current tickets, a fresh one replaces them; more is expected exactly when the page holds at least ten tickets; the offset becomes the page's offset and loading ends |
| Tickets.Failed | src/screens/tabs/settings/ticket-manager/TicketManager.jsx:74-76 | a fetch whose request throws only turns loading off |
| Tickets.Fetch | src/screens/tabs/settings/ticket-manager/TicketManager.jsx:61-76 | without a user id nothing changes; a failed request keeps the tickets, the offset and the more flag |
| Tickets.EndReached | src/screens/tabs/settings/ticket-manager/TicketManager.jsx:89-91 | another page is asked for exactly when no fetch runs and more is expected, and its offset is ten past the current one |
| Tickets.Reset | src/screens/tabs/settings/ticket-manager/TicketManager.jsx:82-86 | focusing or changing the sort empties the list, sets the offset to 0 and expects more |
| Tickets.LoadMoreRefused | src/screens/tabs/settings/ticket-manager/TicketManager.jsx:89-91 | while loading or after a short page, reaching the end changes nothing |
| Tickets.ScrollLoadsEveryPage | src/screens/tabs/settings/ticket-manager/TicketManager.jsx:70-91 | after a reset and a run of pages, each full but the last, the list holds every page in order, the offset is ten times the pages loaded after the first, and more is expected exactly when the last page was full |
| Tickets.StatusLabel | src/screens/tabs/settings/ticket-manager/TicketManager.jsx:160-166 | a ticket shows PENDING exactly for the string '1', RESOLVED exactly for the string '2', and CLOSED for everything else, numbers included |
| Tickets.Submit | src/screens/tabs/settings/ticket-manager/TicketManager.jsx:126-130 | a ticket is submitted exactly when its message is not blank, with the message as typed and the attached files |
| Tickets.BlankMessageNotSubmitted | src/screens/tabs/settings/ticket-manager/TicketManager.jsx:127 | a message is refused exactly when it trims to the empty text, so one of spaces and newlines only is never submitted |
| TicketAttachments.StripBrackets | src/screens/tabs/settings/ticket-manager/TicketDetail.jsx:24 | the result is the text without one leading '[' and without one trailing ']', and only those are removed |
| TicketAttachments.TrimmedNonEmpty | src/screens/tabs/settings/ticket-manager/TicketDetail.jsx:27-28 | trimming and dropping empty pieces never adds pieces |
| TicketAttachments.Lenient | src/screens/tabs/settings/ticket-manager/TicketDetail.jsx:22-28 | every name the lenient reading gives is non-empty, has no surrounding spaces and holds no comma or quote |
| TicketAttachments.TrimmedNonEmptyOmits | src/screens/tabs/settings/ticket-manager/TicketDetail.jsx:26-28 | trimming pieces without commas or quotes keeps them free of both |
| TicketAttachments.TrimmedNonEmptyKept | src/screens/tabs/settings/ticket-manager/TicketDetail.jsx:27-28 | every piece kept is non-empty and trimmed |
| TicketAttachments.TrimWithin | src/screens/tabs/settings/ticket-manager/TicketDetail.jsx:27 | trimming adds no character the text did not hold |
| TicketAttachments.TruthyOnly | src/screens/tabs/settings/ticket-manager/TicketDetail.jsx:20 | only truthy entries are kept, and a list of truthy entries is kept whole |
| TicketAttachments.Files | src/screens/tabs/settings/ticket-manager/TicketDetail.jsx:15-29 | a ticket without a truthy file field has no attachments, and every attachment listed is truthy |
| TicketAttachments.ArrayFileKeepsTruthy | src/screens/tabs/settings/ticket-manager/TicketDetail.jsx:19-20 | a file field that is already an array gives its truthy entries in order |
| TicketAttachments.ParsedNonArrayGivesNone | src/screens/tabs/settings/ticket-manager/TicketDetail.jsx:19-20 | text that parses as JSON but not as an array gives no attachment |
| TicketAttachments.AsStrings | src/screens/tabs/settings/ticket-manager/TicketDetail.jsx:23-28 | the lenient names become string values one for one |
| TicketAttachments.Quoted | src/screens/tabs/settings/ticket-manager/TicketDetail.jsx:25 | each name is wrapped in double quotes, one for one |
| TicketAttachments.Unquote | src/screens/tabs/settings/ticket-manager/TicketDetail.jsx:25 | removing quotes from a quoted name without quotes gives the name |
| TicketAttachments.RemoveQuotes | src/screens/tabs/settings/ticket-manager/TicketDetail.jsx:25 | removing quotes from a comma-joined list of quoted names gives the comma-joined names |
| TicketAttachments.TrimmedNonEmptyPlain | src/screens/tabs/settings/ticket-manager/TicketDetail.jsx:27-28 | plain names pass trimming and filtering unchanged |
| TicketAttachments.KeepsPlainHead | src/screens/tabs/settings/ticket-manager/TicketDetail.jsx:27-28 | a plain first name is kept in front of the rest |
| TicketAttachments.LenientReadsArrayText | src/screens/tabs/settings/ticket-manager/TicketDetail.jsx:22-28 | the lenient reading of the JSON text of an array of plain names gives back exactly those names |
| TicketAttachments.FileUrl | src/screens/tabs/settings/ticket-manager/TicketDetail.jsx:32-35 | an attachment opens the upload base address followed by the attachment's name |
| InvoiceList.RestId | src/screens/tabs/settings/invoice-manager/InvoiceManager.jsx:20 | the invoices listed are the active branch's when it is set, else the fallback restaurant's |
| InvoiceList.FilterByWeek | src/screens/tabs/settings/invoice-manager/InvoiceManager.jsx:75-87 | a search keeps the loaded invoices and records the text; an empty text shows every loaded invoice; a non-empty one throws and leaves the shown rows when a loaded invoice is null or undefined, and otherwise shows an invoice exactly when it is loaded and its week number contains the trimmed text or its invoice number contains it ignoring case |
| InvoiceList.FilterMembers | src/screens/tabs/settings/invoice-manager/InvoiceManager.jsx:79-86 | a filter keeps exactly the elements that satisfy its predicate |
| InvoiceList.FilterKeepsOrder | src/screens/tabs/settings/invoice-manager/InvoiceManager.jsx:79-86 | a filter keeps its elements in their original order |
| InvoiceList.SearchKeepsOrder | src/screens/tabs/settings/invoice-manager/InvoiceManager.jsx:78-86 | when the search does not throw, the rows shown after it appear in the order they were loaded |
| InvoiceList.BlankQueryKeepsAll | src/screens/tabs/settings/invoice-manager/InvoiceManager.jsx:77-86 | a query of blanks that does not throw shows every loaded invoice, since it trims to the empty text |
| InvoiceList.Fetched | src/screens/tabs/settings/invoice-manager/InvoiceManager.jsx:42-65 | without a restaurant the lists are emptied; otherwise every loaded invoice is the response's array, or none when it is not an array; a blank search shows them all, and a non-blank one keeps the old rows when it throws on a null invoice and otherwise filters; the search text is kept |
| InvoiceList.ReloadAgreesWithSearch | src/screens/tabs/settings/invoice-manager/InvoiceManager.jsx:55-86 | a reload shows the same rows as typing the current search into the box over the newly loaded invoices, except for a search of blanks over invoices holding a null one, where the reload shows them all and typing throws and keeps the old rows |
| InvoiceList.OpenParams | src/screens/tabs/settings/invoice-manager/InvoiceManager.jsx:89-95 | opening an invoice passes exactly a details address and a download address built from its number, and its week number |
| InvoiceList.RowParams | src/screens/tabs/settings/invoice-manager/InvoiceManager.jsx:90-94 | the parameters object has exactly the keys downloadUrl, url and weekNo |
| InvoiceUrls.Encode | src/utils/apiService.js:226-232 | the encoded text holds only unreserved characters, percent signs and upper-case hex digits, and text of unreserved characters passes unchanged |
| InvoiceUrls.Utf8 | src/utils/apiService.js:227 | a character encodes to one to four bytes, each below 256 |
| InvoiceUrls.Escapes | src/utils/apiService.js:227 | each byte becomes three characters, a percent sign and two upper-case hex digits |
| InvoiceUrls.EncodeDigits | src/utils/apiService.js:227-232 | an invoice number written in digits passes through the encoding unchanged |
| InvoiceUrls.DetailsPageUrl | src/utils/apiService.js:231-232 | the details address starts with the back-office invoice details prefix |
| InvoiceUrls.DownloadUrl | src/utils/apiService.js:225-228 | the download address is the base address followed by the invoice download path |
| InvoiceDetail.InvoiceObj | src/screens/tabs/settings/invoice-manager/InvoiceDetail.jsx:19-20 | the invoice object is the invoice parameter when present, else the item parameter, else the parameters themselves |
| InvoiceDetail.Run | src/screens/tabs/settings/invoice-manager/InvoiceDetail.jsx:28-33 | the run counted at the start of the text is as long as possible and holds only accepted characters |
| InvoiceDetail.Group | src/screens/tabs/settings/invoice-manager/InvoiceDetail.jsx:28-33 | a captured group is non-empty and made of accepted characters |
| InvoiceDetail.CaptureFrom | src/screens/tabs/settings/invoice-manager/InvoiceDetail.jsx:28-33 | a capture found is never empty |
| InvoiceDetail.CaptureFromFinds | src/screens/tabs/settings/invoice-manager/InvoiceDetail.jsx:28-33 | the search finds nothing exactly when the pattern matches at no position, and otherwise returns the group of the leftmost match |
| InvoiceDetail.SkipTo | src/screens/tabs/settings/invoice-manager/InvoiceDetail.jsx:28-33 | the search passes over positions where the pattern does not match |
| InvoiceDetail.InvoiceNumber | src/screens/tabs/settings/invoice-manager/InvoiceDetail.jsx:23-36 | a truthy InvoiceNo or invoice field gives the number; an empty number means neither field is truthy and neither the details/ digits of the url nor the invoice_id= text of the download address matched |
| InvoiceDetail.DetailsLink | src/screens/tabs/settings/invoice-manager/InvoiceDetail.jsx:44-49 | the page loaded is the given non-empty url, else the details page of the number, and there is none exactly when neither exists |
| InvoiceDetail.DownloadLink | src/screens/tabs/settings/invoice-manager/InvoiceDetail.jsx:51-56 | the file downloaded is the given non-empty download address, else the number's download address, and there is none exactly when neither exists |
| InvoiceDetail.Open | src/screens/tabs/settings/invoice-manager/InvoiceDetail.jsx:20-41 | the screen shows the number resolved from the invoice object, and the first present of week_no, week and weekNo as its week |
| InvoiceDetail.Title | src/screens/tabs/settings/invoice-manager/InvoiceDetail.jsx:156 | the title is 'Invoice #' followed by the number, or by '-' when there is none |
| InvoiceDetail.RunAll | src/screens/tabs/settings/invoice-manager/InvoiceDetail.jsx:28 | a text made only of accepted characters is one run |
| InvoiceDetail.DetailsNumberRoundTrip | src/screens/tabs/settings/invoice-manager/InvoiceDetail.jsx:27-28 | the digits of a details address built from a number in digits are read back as that number |
| InvoiceDetail.NoEarlierDetails | src/screens/tabs/settings/invoice-manager/InvoiceDetail.jsx:28 | no details/ match starts inside the details prefix before its own details/ |
| InvoiceDetail.PrefixHasNoD | src/screens/tabs/settings/invoice-manager/InvoiceDetail.jsx:28 | the host part of the details prefix holds no letter d |
| InvoiceDetail.DetailsGroup | src/screens/tabs/settings/invoice-manager/InvoiceDetail.jsx:28 | the match at the details prefix's details/ captures exactly the number's digits |
| InvoiceDetail.DigitNumberText | src/screens/tabs/settings/invoice-manager/InvoiceDetail.jsx:25 | an invoice number written in digits, as text or as a number, has non-empty digit text |
| InvoiceDetail.RowWeek | src/screens/tabs/settings/invoice-manager/InvoiceDetail.jsx:38-41 | the week shown for a list row is the row's week_no, or empty text |
| InvoiceDetail.RowShape | src/screens/tabs/settings/invoice-manager/InvoiceDetail.jsx:19-53 | a list row's parameters are used as the invoice object itself and carry both addresses as non-empty strings |
| InvoiceDetail.RowKeys | src/screens/tabs/settings/invoice-manager/InvoiceDetail.jsx:20-39 | a list row's parameters have no invoice, item, week_no, week or InvoiceNo key |
| InvoiceDetail.NotAParamKey | src/screens/tabs/settings/invoice-manager/InvoiceDetail.jsx:20-39 | keys of other lengths are not among the three parameters |
| InvoiceDetail.ParamsNumber | src/screens/tabs/settings/invoice-manager/InvoiceDetail.jsx:27-29 | the number read from a list row's parameters is the row's number in digits |
| InvoiceDetail.RowNumber | src/screens/tabs/settings/invoice-manager/InvoiceDetail.jsx:24-29 | parameters without a number of their own are read by the digits of their details address |
| InvoiceDetail.ListRowOpensItsInvoice | src/screens/tabs/settings/invoice-manager/InvoiceManager.jsx:89-95 | opening a list row whose number is in digits shows that invoice: its number, its week, its details page, no error message, and the download action |
| InvoiceDetail.ObjectNumberWins | src/screens/tabs/settings/invoice-manager/InvoiceDetail.jsx:24-25 | an object with a truthy InvoiceNo is shown under that number whatever addresses come with it |
| InvoiceDetail.NothingToShow | src/screens/tabs/settings/invoice-manager/InvoiceDetail.jsx:156-197 | without addresses or a number the error message replaces the page, there is no download action and the title is 'Invoice #-' |
| Reviews.Rating | src/screens/tabs/settings/review-manager/ReviewManager.jsx:20 | the rating drawn lies between 0 and 5, is the review's number when that already lies in range, and is 0 when the value is not a number |
| Reviews.Stars | src/screens/tabs/settings/review-manager/ReviewManager.jsx:19-31 | five stars are drawn and star i is filled exactly when i is at most the rating |
| Reviews.FilledStarsAreTheRating | src/screens/tabs/settings/review-manager/ReviewManager.jsx:19-31 | the filled stars are the first ones, as many as the whole part of the rating |
| Reviews.CountLeading | src/screens/tabs/settings/review-manager/ReviewManager.jsx:23-28 | a row of stars filled exactly before position f counts f filled stars |
| Reviews.ToggleCaption | src/screens/tabs/settings/review-manager/ReviewManager.jsx:200-202 | the status button reads UNPUBLISH exactly for a published review and PUBLISH otherwise |
| Reviews.PublishedValues | src/screens/tabs/settings/review-manager/ReviewManager.jsx:132 | a status counts as published, apart from arrays, exactly for the text '1' and the number 1 |
| Reviews.ConfirmToggle | src/screens/tabs/settings/review-manager/ReviewManager.jsx:130-135 | no request is made without a review id; otherwise the request names the review and asks for '0' exactly when it is published and '1' exactly when it is not |
| Reviews.ToggleTwiceRestores | src/screens/tabs/settings/review-manager/ReviewManager.jsx:130-135 | once the server has applied a toggle, the next toggle asks for the status the review started with, and the caption shows the opposite of the request just made |
| Reviews.SubmitReply | src/screens/tabs/settings/review-manager/ReviewManager.jsx:101-109 | a reply is sent exactly when there is a review id and the text is not blank, naming the review, marked as written by the restaurant, with the trimmed non-empty text |
| Reviews.Attribution | src/screens/tabs/settings/review-manager/ReviewManager.jsx:183-186 | reading a null or undefined reply throws; any other reply is shown as the restaurant's own exactly when its reply_by reads '1' |
| Reviews.ReplyAuthors | src/screens/tabs/settings/review-manager/ReviewManager.jsx:181-190 | a review without a non-empty reply array shows no replies; otherwise drawing them throws exactly when one reply is null or undefined, and else gives one author per reply, in order, each its attribution |
| Reviews.OwnReplyShownAsYou | src/screens/tabs/settings/review-manager/ReviewManager.jsx:186 | a reply the restaurant sent comes back shown as its own (reply_by 1 is sent at line 108) |
| Reviews.ReviewList | src/screens/tabs/settings/review-manager/ReviewManager.jsx:62-82 | reviews are shown only for a restaurant whose request answered Success, and then they are the response's data array, or none when it is not an array |
| PinSettings.PinInput | src/screens/tabs/settings/SettingsScreen.jsx:203-206 | a PIN field holds only digits and at most six of them, and digits within that length are kept as typed |
| PinSettings.PinInputSettles | src/screens/tabs/settings/SettingsScreen.jsx:28 | cleaning a PIN input twice is cleaning it once, and the cleaned input is a valid PIN exactly when it holds at least four digits |
| PinSettings.IsValidPinOfText | src/screens/tabs/settings/SettingsScreen.jsx:28 | for a text the PIN rule is four to six digits and nothing else |
| PinSettings.Type | src/screens/tabs/settings/SettingsScreen.jsx:205-208 | typing into one PIN field changes only that field, to the cleaned text, and clears the error; the stored PIN and the pin-set flag stay |
| PinSettings.StatusLoaded | src/screens/tabs/settings/SettingsScreen.jsx:70-84 | without a user id the state is unchanged; otherwise the PIN counts as set exactly when the status check answered Success |
| PinSettings.CheckSetNewPin | src/screens/tabs/settings/SettingsScreen.jsx:86-95 | setting a new PIN fails the format check exactly when either PIN breaks the 4-to-6-digit rule, reports a mismatch exactly when both pass but differ, and otherwise sends the new PIN |
| PinSettings.SetNewPin | src/screens/tabs/settings/SettingsScreen.jsx:86-114 | a format failure and a mismatch only set their messages; the stored PIN changes only to a valid new PIN, which is then marked as set |
| PinSettings.EnabledSetPassesFormat | src/screens/tabs/settings/SettingsScreen.jsx:286-289 | an enabled SET NEW PIN button never fails the format check |
| PinSettings.SuccessfulSet | src/screens/tabs/settings/SettingsScreen.jsx:97-105 | a PIN the server accepts is stored and marked as set, both inputs and the error are cleared, and the stored PIN would be accepted by SUBMIT |
| PinSettings.SubmitPin | src/screens/tabs/settings/SettingsScreen.jsx:116-135 | a PIN of the wrong form is refused with the format message and nothing else changes; the partner centre opens exactly for a valid PIN that the server did not answer Failed, with that PIN stored and the input cleared; otherwise the stored PIN and the input stay |
| PinSettings.TypedPinAccepted | src/screens/tabs/settings/SettingsScreen.jsx:116-128 | a typed PIN of at least four digits that the server does not reject opens the partner centre with that PIN |
| ChangePassword.Validate | src/screens/tabs/settings/change-password/ChangePassword.jsx:38-49 | the form passes exactly when no field is blank, the new password has 6 to 16 characters, the two new passwords match and there is a user e-mail; otherwise the first failing check is reported, in that order |
| ChangePassword.Submit | src/screens/tabs/settings/change-password/ChangePassword.jsx:51-82 | the request goes out exactly when validation passes, carrying the e-mail, the current and the new password; it succeeds exactly when it was sent and not answered Failed, and then clears the form and the error; otherwise the form is kept, and a validation failure shows its message |
| ChangePassword.SubmitRefused | src/screens/tabs/settings/change-password/ChangePassword.jsx:43-56 | the request goes out exactly when validation passes, and a missing e-mail shows 'Missing user email.' |
| ChangePassword.EnabledButtonSends | src/screens/tabs/settings/change-password/ChangePassword.jsx:41-49 | pressing the enabled button sends the request exactly when there is a user e-mail, and otherwise shows 'Missing user email.' |
| ChangePassword.TypedTwicePasses | src/screens/tabs/settings/change-password/ChangePassword.jsx:38-49 | a non-blank current password and a non-blank new password of 6 to 16 characters typed twice pass validation when there is an e-mail |
| ChangePincode.SanitizePin | src/screens/tabs/settings/change-pincode/ChangePincode.jsx:35 | the sanitised PIN holds only digits and at most four of them, and up to four digits pass unchanged |
| ChangePincode.SanitizeIdempotent | src/screens/tabs/settings/change-pincode/ChangePincode.jsx:35 | sanitising twice is sanitising once |
| ChangePincode.Typed | src/screens/tabs/settings/change-pincode/ChangePincode.jsx:90-93 | a typed pincode field holds only digits and at most four of them |
| ChangePincode.TrimDigits | src/screens/tabs/settings/change-pincode/ChangePincode.jsx:38 | digits carry no whitespace, so trimming leaves them alone |
| ChangePincode.TypedFormValid | src/screens/tabs/settings/change-pincode/ChangePincode.jsx:37-40 | a typed form is valid exactly when each field holds four digits and the new pincode is typed the same twice |
| ChangePincode.Validate | src/screens/tabs/settings/change-pincode/ChangePincode.jsx:37-47 | the form passes exactly when there is a user id, every field trims to four characters and the new pincodes match; otherwise the first failing check is reported, in that order |
| ChangePincode.Submit | src/screens/tabs/settings/change-pincode/ChangePincode.jsx:49-79 | the request goes out exactly when validation passes, carrying the user id, the old and the new pincode; it succeeds exactly when it was sent and not answered Failed, and then clears the form and the error; otherwise the form is kept, and a validation failure shows its message |
| ChangePincode.EnabledButtonSends | src/screens/tabs/settings/change-pincode/ChangePincode.jsx:40-47 | with a user, the enabled button always sends the request |
| AddBranch.CheckForm | src/screens/tabs/settings/add-branch/AddBranch.jsx:39-62 | both fields are required first, then the trimmed e-mail must be an address, then a restaurant id must be known; a form passing all three sends the restaurant id, the trimmed e-mail and the password as typed |
| AddBranch.Answered | src/screens/tabs/settings/add-branch/AddBranch.jsx:66-81 | any answer whose status is not Failure clears both fields; a Failure answer or a request that threw keeps them |
| AddBranch.EnabledButtonPassesFirstCheck | src/screens/tabs/settings/add-branch/AddBranch.jsx:42-85 | an enabled button never meets the both-required check, and the username it sends is an address without surrounding whitespace |
| AddBranch.TrailingBlankAccepted | src/screens/tabs/settings/add-branch/AddBranch.jsx:39-60 | an address typed with a trailing blank passes, because the check and the request use the trimmed text |
| AddBranch.TrimTrailingBlank | src/screens/tabs/settings/add-branch/AddBranch.jsx:39 | trimming an address followed by one blank gives the address |
| AddBranch.TrimmedEnds | src/screens/tabs/settings/add-branch/AddBranch.jsx:39 | a trimmed non-empty text has no whitespace at either end |
| LoginFlow.CheckLogin | src/screens/auth/LoginScreen.jsx:113-130 | the login is refused as an invalid e-mail exactly when the username is not an address, as missing fields exactly when it is one but the password is empty, and attempted otherwise |
| LoginFlow.EmptyUsernameIsInvalidEmail | src/screens/auth/LoginScreen.jsx:114-130 | an empty username is reported as an invalid e-mail, never as a missing field |
| LoginFlow.GoAfterLogin | src/screens/auth/LoginScreen.jsx:86-111 | several assigned restaurants lead to the restaurant list, exactly one becomes the active restaurant and leads to the app, and none or a value without a length shows no route |
| LoginFlow.Answered | src/screens/auth/LoginScreen.jsx:136-160 | the login succeeds exactly for an answer whose status is the number 1; the store then gets login(details), followed by setActiveRestaurant exactly when the route selects one restaurant; the credentials are remembered exactly when asked; an answer without user details stops after the login; a request that threw is a network error |
| LoginFlow.TextStatusRejected | src/screens/auth/LoginScreen.jsx:139 | a status that is the text '1' is not a successful login |
| LoginFlow.SingleRestaurantBecomesActive | src/screens/auth/LoginScreen.jsx:139-152 | after a successful login of a user with exactly one truthy restaurant, the store is logged in with that restaurant active, the same one the login reducer picked (routing at lines 96-101) |
| LoginFlow.SeveralRestaurantsChoose | src/screens/auth/LoginScreen.jsx:139-152 | a user with several restaurants is sent to the restaurant list and the store gets only the login (routing at lines 90-93) |
| FlagText.Encode | src/screens/tabs/settings/reservation-setting/ReservationSetting.jsx:87-114 | a switch sends '1' exactly when it is turned on and '0' exactly when it is turned off |
| FlagText.DecodeEncode | src/screens/tabs/settings/reservation-setting/ReservationSetting.jsx:45-87 | reading back the text a switch sends gives the value it was set to |
| FlagText.IsOneValues | src/screens/tabs/settings/reservation-setting/ReservationSetting.jsx:45-46 | apart from arrays, exactly the text '1' and the number 1 read as on |
| ReservationSetting.Set | src/screens/tabs/settings/reservation-setting/ReservationSetting.jsx:84-112 | changing one switch's flag and saving bit leaves the other switch and the initial loading alone |
| ReservationSetting.Loaded | src/screens/tabs/settings/reservation-setting/ReservationSetting.jsx:35-58 | without a restaurant nothing happens; otherwise the initial loading ends and the saving bits stay; a Success answer sets each flag to whether its field reads '1', and any other answer or a thrown request keeps both flags |
| ReservationSetting.Sent | src/screens/tabs/settings/reservation-setting/ReservationSetting.jsx:87-114 | the request carries '1' exactly when the switch is turned on, under the accept or auto key of the switch |
| ReservationSetting.Started | src/screens/tabs/settings/reservation-setting/ReservationSetting.jsx:80-112 | without a restaurant a flip does nothing; otherwise the flag shows the new value at once and its save is in flight |
| ReservationSetting.Finished | src/screens/tabs/settings/reservation-setting/ReservationSetting.jsx:92-128 | a Success answer keeps the flag and ends the save; any other answer or a thrown request puts the previous value back and ends the save |
| ReservationSetting.Toggle | src/screens/tabs/settings/reservation-setting/ReservationSetting.jsx:80-132 | a whole flip ends with the flag at the new value exactly when the save succeeded, else at its old value, with its save ended and the other switch untouched |
| ReservationSetting.RefusedToggleRestores | src/screens/tabs/settings/reservation-setting/ReservationSetting.jsx:92-126 | a save that is refused or throws leaves the screen as it was before the flip |
| ReservationSetting.SavingDisables | src/screens/tabs/settings/reservation-setting/ReservationSetting.jsx:134 | while a save is in flight both switches are disabled |
| ReservationSetting.NoRestaurantStaysDisabled | src/screens/tabs/settings/reservation-setting/ReservationSetting.jsx:134 | without a restaurant the initial load never ends, so the switches stay disabled whatever is flipped (the initial loading starts true at line 20 and the load returns early at line 36) |
| ReservationSetting.OverlappingSavesCommute | src/screens/tabs/settings/reservation-setting/ReservationSetting.jsx:80-132 | when both saves overlap, the final screen does not depend on which answer arrives first, and each flag ends as its own answer decides |
| ReservationSetting.LoadedFlagValues | src/screens/tabs/settings/reservation-setting/ReservationSetting.jsx:44-47 | a loaded accept flag is on, apart from arrays, exactly when the server sends the text '1' or the number 1 |
| PartnerCenter.Loaded | src/screens/tabs/settings/partner-center-settings/PartnerCenterSettings.jsx:70-88 | without a restaurant nothing is asked; an answer sets the status to closed exactly when its status reads '1' and ends loading; a thrown request only ends loading |
| PartnerCenter.ApplyRequest | src/screens/tabs/settings/partner-center-settings/PartnerCenterSettings.jsx:95-104 | a change is sent exactly when there is both a restaurant and a user, naming both, with a status text that reads as closed exactly when closing was asked for |
| PartnerCenter.Applied | src/screens/tabs/settings/partner-center-settings/PartnerCenterSettings.jsx:95-115 | without a request nothing changes; any answer sets the requested status and ends loading; a thrown request only ends loading |
| PartnerCenter.Gestured | src/screens/tabs/settings/partner-center-settings/PartnerCenterSettings.jsx:121-147 | CANCEL changes nothing; CONFIRM applies the state the gesture asked for |
| PartnerCenter.ConfirmedRowPressFlips | src/screens/tabs/settings/partner-center-settings/PartnerCenterSettings.jsx:135-139 | a confirmed press on the row flips the status once the request is answered |
| PartnerCenter.ConfirmedSwitchSets | src/screens/tabs/settings/partner-center-settings/PartnerCenterSettings.jsx:141-147 | a confirmed switch change sets the status the switch reported |
| PartnerCenter.ReloadShowsApplied | src/screens/tabs/settings/partner-center-settings/PartnerCenterSettings.jsx:79-109 | when the server reports back the status it was sent, reloading shows the status that was applied |
| Faq.Loaded | src/screens/tabs/home/faq/FaqScreen.jsx:39-52 | an answer with a non-zero length is stored and opens its first item; an empty answer, one without a length, or a thrown request changes nothing |
| Faq.Toggle | src/screens/tabs/home/faq/FaqScreen.jsx:54-57 | tapping the open item closes every item, tapping any other item opens it, and the list is unchanged |
| Faq.AtMostOneOpen | src/screens/tabs/home/faq/FaqScreen.jsx:76 | at most one item is open |
| Faq.ToggleTwice | src/screens/tabs/home/faq/FaqScreen.jsx:54-57 | tapping the same item twice restores the accordion when nothing or that item was open |
| Faq.ToggleTwiceFromOther | src/screens/tabs/home/faq/FaqScreen.jsx:54-57 | tapping an item twice while another was open leaves every item closed |
| Faq.TapsKeepOpenShown | src/screens/tabs/home/faq/FaqScreen.jsx:54-76 | after any taps on listed items the open item, if any, is still an item of the list, and the list is unchanged |
| Faq.LoadOpensShown | src/screens/tabs/home/faq/FaqScreen.jsx:43-45 | a load never opens an item outside the list |
| Faq.OneBodyShown | src/screens/tabs/home/faq/FaqScreen.jsx:76-87 | at most one answer body is shown at a time |

## Left out

- Network and HTTP: every request is a returned value and every answer an input `Json`; `None` stands for a request that threw. `src/utils/api.js` is not part of this model.
- The API base address of the invoice download URL (`api.defaults.baseURL`) is a parameter, since it lives in the HTTP client's configuration.
- Alerts, toasts, navigation calls, AsyncStorage, Linking, WebView, the image picker and the clipboard: these are device effects. They appear only as the outcome a step returns, such as the route chosen, the request sent or the message shown.
- The PDF download routine of the invoice detail screen (file system, storage access, sharing) is device I/O.
- The ticket screen's `addImage` is left out. It is image-picker I/O, and the model takes the attached files as an input list.
- Concurrency and the React lifecycle: each fetch, effect and answer is one atomic step, and races between overlapping fetches are not modelled. The one overlap the code invites, the two reservation-setting saves, is covered by its own lemma.
- `toUnixLondon` (moment-timezone, Europe/London) in the opening-hours and reservation-hours screens is timezone handling. Picker values are clock times.
- `moment(..., 'hh:mm a')` validity and ordering become `ClockText.MinuteOfDay`: the strict 12-hour reading of text in the screens' own format.
- JS `Date` platform behaviour (local-time parsing, the wall clock): "today" is a civil date passed in, and the time of day of picker values is ignored.
- `formatDateDMY` comes from `utils/dateUtils`, which is not part of this model.
- Floating point: money is a Dafny `real`. `Number`, `parseFloat` and `parseInt` read decimal literals only, with no exponent, `Infinity` or hexadecimal form. `toFixed` display formatting is not modelled.
- `String` of a non-integer number is its exact decimal expansion cut at 20 fraction digits, not JavaScript's shortest round-trip form and not its exponent notation. Integers are exact, and every proof about printed numbers uses integers.
- `JSON.parse` in the ticket detail screen is a parameter, with `None` for text that is not JSON.
- The six-digit code from `Math.random` in the notification-code screen is randomness.
- String lengths count code points, not UTF-16 code units. The two differ only for characters outside the Basic Multilingual Plane, in the password length rule and the text boxes' `maxLength`.
- `\w` and `\d` are ASCII, as JavaScript has them without the `u` flag. `toLowerCase` is modelled on ASCII letters only.
- A text box's `maxLength` cuts the typed text before the screen's change handler cleans it. Which of the two runs first in the native input is platform behaviour.
- `length` of a value other than a string or an array (for example an object with a `length` field) counts as absent.
- Faq.Loaded: a string answer with a non-zero length is stored as the list, as the code does; the screen's later `map` over it would throw, and that is not modelled.
- `Json.Get` reads a field of `null` or `undefined` as `undefined`, as `?.` does. The plain `.` reads and string methods that a null or undefined value reaches in the modelled operations are modelled by their throws: `OrderSummary.Throws` for the order list, `ReservationRecord.Throws` for the reservation list, `ReservationDetail.NormalizeDetail` for the reservation detail, `OrderDetail.NormalizeOrder` for an order's line items, `ReservationHours.Load` for the reservation-hours days, `DeliveryCollection.DayRows` for the delivery and collection days and their shift entries, `InvoiceList.SearchThrows` for the invoice search and `Reviews.ReplyAuthors` for a review's replies. Drawing the rows of the order, invoice, review and ticket lists and the opening-hours day cards reads each row or day with plain `.` too; a null one would throw while the list is drawn, and that drawing is not modelled (`OpeningHours.ShiftsOf` reads a day's shift list as `?.`).
- Tickets.Received: a truthy `complains` that is not an array (a text, a number or an object) counts as no tickets. The code would store a text as the list, spread it into characters when appending, throw when appending a number or an object, and take `hasMore` from any `length` field. The model keeps the ticket list a list of tickets.
- ReservationSort: the sortedness and stability lemmas assume every sort key is a number. A NaN key from a malformed date makes JavaScript's sort order implementation-defined.
- ReservationDetail.FullName: the contract only states that the name shown is truthy. Its content is stated by `ReservationDetail.DetailNameMatchesList` against the list screen's display name.
- OrderDetail.FallbackTotalsExample: the example is stated for any two price × quantity lines. The 10 × 2 + 5 × 1 = 25 instance follows by substitution.
- Pure UI, static and configuration files are not part of this model: the navigation stacks, `AppHeader`, `App.jsx`, styling, `store.js`, `appConfigSlice.js`, and these screens:
  - the EPOS dashboard, which shows static zeros;
  - marketing and support, which build mailto and tel strings;
  - home, which does display-only number coercion;
  - the restaurant list, which is storage-driven and repeats the login routing rule;
  - forgot password, which makes no real call;
  - profile.
