/** The opening-hours screen: the days it lists, which shift rows offer
    ADD SHIFT, and the add and edit dialogs with their validation gates. */
module OpeningHours {
  import opened Wrappers
  import opened Json
  import opened ClockText

  /** The days shown for a load response: the response itself when it is
      an array, else its `openingHours` when that is an array, else none. */
  function DaysOf(data: Json): (days: seq<Json>)
    ensures data.JArr? ==> days == data.items
    ensures !data.JArr? ==> days == Elements(Get(data, "openingHours"))
  {
    if data.JArr? then data.items else Elements(Or(Get(data, "openingHours"), JArr([])))
  }

  /** A day's shift list; anything but an array counts as no shifts. */
  function ShiftsOf(day: Json): seq<Json> {
    Elements(Get(day, "shift"))
  }

  /** The `currentCount` passed by each ADD SHIFT button of a day with `n`
      shifts: one button with 0 when there are none, one button (on the
      first row) with 1 when there is one, no button otherwise. */
  function AddButtons(n: nat): (counts: seq<nat>)
    ensures |counts| <= 1
    ensures counts != [] <==> n < 2
    ensures forall i | 0 <= i < |counts| :: counts[i] == n
  {
    if n == 0 then [0]
    else if n == 1 then [1]
    else []
  }

  /** The row of a day with `n` shifts that carries an ADD SHIFT button. */
  predicate RowHasAdd(n: nat, i: nat) {
    n == 1 && i == 0
  }

  /** The time text a moment-style 'hh:mm a' parse reads from a field. */
  function TimeOf(v: Json): Option<nat> {
    if v.JStr? then MinuteOfDay(v.s) else None
  }

  /** `isOpenBeforeClose(o, c)`: both parse and the opening is strictly
      earlier. */
  predicate OpenBeforeClose(o: Json, c: Json) {
    o.JStr? && c.JStr? && OpensBeforeCloses(o.s, c.s)
  }

  datatype Dialogs = Dialogs(
    activeDayNo: Json,
    activeShiftId: Json,
    nextShiftNo: Json,
    editOpen: Json,
    editClose: Json,
    addOpen: Json,
    addClose: Json)

  const InitialDialogs := Dialogs(JNull, JNull, JNull, JStr("12:00 pm"), JStr("11:30 pm"), JStr(""), JStr(""))

  /** `askAdd(dayNo, currentCount)`. */
  function AskAdd(d: Dialogs, dayNo: Json, currentCount: nat): (r: Dialogs)
    ensures r.nextShiftNo == JNum((currentCount + 1) as real) && r.activeDayNo == dayNo
    ensures r.addOpen == JStr("") && r.addClose == JStr("")
    ensures r.(activeDayNo := d.activeDayNo, nextShiftNo := d.nextShiftNo, addOpen := d.addOpen, addClose := d.addClose) == d
  {
    d.(activeDayNo := dayNo, nextShiftNo := JNum((currentCount + 1) as real), addOpen := JStr(""), addClose := JStr(""))
  }

  /** `askEdit(dayNo, shift)`: the dialog opens on the shift's own times. */
  function AskEdit(d: Dialogs, dayNo: Json, shift: Json): (r: Dialogs)
    ensures r.editOpen == Get(shift, "opening_time") && r.editClose == Get(shift, "closing_time")
    ensures r.activeShiftId == Get(shift, "id") && r.activeDayNo == dayNo
  {
    d.(activeDayNo := dayNo, activeShiftId := Get(shift, "id"),
       editOpen := Get(shift, "opening_time"), editClose := Get(shift, "closing_time"))
  }

  datatype PickerMode = EditOpen | EditClose | AddOpen | AddClose

  /** `onPick`: the picked time, formatted, goes to the field the picker was
      opened for. */
  function Pick(d: Dialogs, mode: PickerMode, h: nat, m: nat): (r: Dialogs)
    requires h < 24 && m < 60
  {
    var t := JStr(Fmt(h, m));
    match mode
    case EditOpen => d.(editOpen := t)
    case EditClose => d.(editClose := t)
    case AddOpen => d.(addOpen := t)
    case AddClose => d.(addClose := t)
  }

  /** What pressing a dialog's confirm button does. */
  datatype Outcome =
    | Nothing
    | Alert(message: string)
    | AddShift(weekday: Json, shift: Json, opening: Json, closing: Json)
    | EditShift(id: Json, opening: Json, closing: Json)

  const SelectBoth := "Please select both opening and closing times."
  const OpenAfterClose := "Opening time cannot be greater than closing time."

  /** `doAdd`: no day or shift number does nothing; a missing time, then an
      opening not before the closing, is reported; only then is the shift
      added. */
  function DoAdd(d: Dialogs): (o: Outcome)
    ensures o.AddShift? <==> Truthy(d.activeDayNo) && Truthy(d.nextShiftNo) && Truthy(d.addOpen) && Truthy(d.addClose)
                             && OpenBeforeClose(d.addOpen, d.addClose)
    ensures o.AddShift? ==> o == AddShift(d.activeDayNo, d.nextShiftNo, d.addOpen, d.addClose)
    ensures o == Nothing <==> !Truthy(d.activeDayNo) || !Truthy(d.nextShiftNo)
  {
    if !Truthy(d.activeDayNo) || !Truthy(d.nextShiftNo) then Nothing
    else if !Truthy(d.addOpen) || !Truthy(d.addClose) then Alert(SelectBoth)
    else if !OpenBeforeClose(d.addOpen, d.addClose) then Alert(OpenAfterClose)
    else AddShift(d.activeDayNo, d.nextShiftNo, d.addOpen, d.addClose)
  }

  /** `doEdit`: no shift does nothing; otherwise the edit goes ahead only
      when the opening is strictly before the closing. */
  function DoEdit(d: Dialogs): (o: Outcome)
    ensures o.EditShift? <==> Truthy(d.activeShiftId) && OpenBeforeClose(d.editOpen, d.editClose)
    ensures o == Nothing <==> !Truthy(d.activeShiftId)
  {
    if !Truthy(d.activeShiftId) then Nothing
    else if !OpenBeforeClose(d.editOpen, d.editClose) then Alert(OpenAfterClose)
    else EditShift(d.activeShiftId, d.editOpen, d.editClose)
  }

  // ------------------------------------------------------------- lemmas

  /** ADD SHIFT is offered for a day with no shift or one shift, never for
      a day with two or more, and the new shift is numbered one past the
      shifts the day has. */
  lemma AddNumbering(d: Dialogs, dayNo: Json, n: nat)
    requires n < 2
    ensures var r := AskAdd(d, dayNo, AddButtons(n)[0]);
      r.nextShiftNo == JNum((n + 1) as real)
  {
  }

  /** Right after opening the add dialog, confirming reports the missing
      times (or does nothing without a day). */
  lemma AddNeedsBothTimes(d: Dialogs, dayNo: Json, n: nat)
    ensures var o := DoAdd(AskAdd(d, dayNo, n));
      o == (if Truthy(dayNo) then Alert(SelectBoth) else Nothing)
  {
  }

  /** Picking both times then confirming adds the shift exactly when the
      picked opening is strictly earlier than the picked closing. */
  lemma AddAfterPicking(d: Dialogs, dayNo: Json, n: nat, h1: nat, m1: nat, h2: nat, m2: nat)
    requires Truthy(dayNo)
    requires h1 < 24 && m1 < 60 && h2 < 24 && m2 < 60
    ensures var r := Pick(Pick(AskAdd(d, dayNo, n), AddOpen, h1, m1), AddClose, h2, m2);
      DoAdd(r).AddShift? <==> h1 * 60 + m1 < h2 * 60 + m2
  {
    var r := Pick(Pick(AskAdd(d, dayNo, n), AddOpen, h1, m1), AddClose, h2, m2);
    PickedAddTimes(AskAdd(d, dayNo, n), h1, m1, h2, m2);
    FmtCompare(h1, m1, h2, m2);
  }

  lemma PickedAddTimes(d: Dialogs, h1: nat, m1: nat, h2: nat, m2: nat)
    requires h1 < 24 && m1 < 60 && h2 < 24 && m2 < 60
    ensures var r := Pick(Pick(d, AddOpen, h1, m1), AddClose, h2, m2);
      r == d.(addOpen := JStr(Fmt(h1, m1)), addClose := JStr(Fmt(h2, m2)))
  {
  }

  /** Two formatted times, as dialog fields, are in order exactly when the
      times are. */
  lemma FmtCompare(h1: nat, m1: nat, h2: nat, m2: nat)
    requires h1 < 24 && m1 < 60 && h2 < 24 && m2 < 60
    ensures Truthy(JStr(Fmt(h1, m1))) && Truthy(JStr(Fmt(h2, m2)))
    ensures OpenBeforeClose(JStr(Fmt(h1, m1)), JStr(Fmt(h2, m2))) <==> h1 * 60 + m1 < h2 * 60 + m2
  {
    FmtRoundTrip(h1, m1);
    FmtRoundTrip(h2, m2);
  }

  /** The edit dialog opened on a stored shift saves exactly when the
      stored times are valid and in order. */
  lemma EditOfStoredShift(d: Dialogs, dayNo: Json, shift: Json)
    requires Truthy(Get(shift, "id"))
    ensures DoEdit(AskEdit(d, dayNo, shift)).EditShift?
      <==> OpenBeforeClose(Get(shift, "opening_time"), Get(shift, "closing_time"))
  {
  }
}
