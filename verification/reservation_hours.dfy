/** The reservation-hours screen: the days it keeps from a load response,
    the empty banner, which shift each day's CLOSE, EDIT and ADD SHIFT
    buttons act on, and the gates of the three dialogs. */
module ReservationHours {
  import opened Wrappers
  import opened Json
  import opened ClockText
  import opened OpeningHours

  // ---------------------------------------------------------------- days

  /** The load response's day list: the response when it is an array, else
      its `openingHours` when that is an array, else nothing. */
  function DayList(res: Json): (list: seq<Json>)
    ensures res.JArr? ==> list == res.items
    ensures !res.JArr? && Get(res, "openingHours").JArr? ==> list == Get(res, "openingHours").items
    ensures !res.JArr? && !Get(res, "openingHours").JArr? ==> list == []
  {
    if res.JArr? then res.items
    else if Get(res, "openingHours").JArr? then Get(res, "openingHours").items
    else []
  }

  /** `{ ...d, shift: Array.isArray(d.shift) ? d.shift : [] }`. */
  function WithShiftArray(d: Json): (r: Json)
    ensures r.JObj? && Get(r, "shift") == JArr(Elements(Get(d, "shift")))
    ensures forall k | k != "shift" :: Get(r, k) == Get(d, k)
  {
    var fields := if d.JObj? then d.fields else map[];
    JObj(fields["shift" := JArr(Elements(Get(d, "shift")))])
  }

  /** `list.map((d) => ({ ...d, shift: ... }))`: `d.shift` throws on a
      null or undefined day, and then nothing is stored. */
  function WithShiftArrays(list: seq<Json>): (days: Option<seq<Json>>)
    ensures days.None? <==> exists i | 0 <= i < |list| :: Nullish(list[i])
    ensures days.Some? ==> |days.value| == |list|
    ensures days.Some? ==> forall i | 0 <= i < |list| :: days.value[i] == WithShiftArray(list[i])
  {
    if list == [] then Some([])
    else if Nullish(list[0]) then None
    else match WithShiftArrays(list[1..])
      case None => None
      case Some(rest) => Some([WithShiftArray(list[0])] + rest)
  }

  /** The days the load computes, or `None` when computing them throws. */
  function Days(res: Json): (days: Option<seq<Json>>)
    ensures days.None? <==> exists i | 0 <= i < |DayList(res)| :: Nullish(DayList(res)[i])
    ensures days.Some? ==> |days.value| == |DayList(res)|
    ensures days.Some? ==> forall i | 0 <= i < |days.value| :: days.value[i] == WithShiftArray(DayList(res)[i])
  {
    WithShiftArrays(DayList(res))
  }

  /** What a load leaves on screen: the stored days, and whether the
      'Failed to load reservation hours.' alert was shown. */
  datatype Loaded = Loaded(days: seq<Json>, alerted: bool)

  /** `fetchHours` with the days shown so far and the request's answer,
      `None` when the request itself threw: a throw anywhere lands in the
      catch, which alerts and keeps the previous days. */
  function Load(prev: seq<Json>, answer: Option<Json>): (r: Loaded)
    ensures r.alerted <==> answer.None? || Days(answer.value).None?
    ensures r.alerted ==> r.days == prev
    ensures !r.alerted ==> Some(r.days) == Days(answer.value)
  {
    match answer
    case None => Loaded(prev, true)
    case Some(res) =>
      match Days(res)
      case None => Loaded(prev, true)
      case Some(days) => Loaded(days, false)
  }

  /** `(d.shift || []).length`, for a day whose shift list is an array or a
      string; anything else has no length and so never counts as a shift. */
  function ShiftLength(d: Json): nat {
    match Length(Or(Get(d, "shift"), JArr([])))
    case Some(n) => n
    case None => 0
  }

  /** `days.some((d) => (d.shift || []).length > 0)`. */
  predicate HasAnyShift(days: seq<Json>) {
    days != [] && (ShiftLength(days[0]) > 0 || HasAnyShift(days[1..]))
  }

  /** The "no shifts" banner. */
  predicate ShowsEmptyBanner(days: seq<Json>) {
    !HasAnyShift(days)
  }

  /** `days.some` finds a day exactly when one exists. */
  lemma {:induction false} HasAnyShiftExists(days: seq<Json>)
    ensures HasAnyShift(days) <==> exists i | 0 <= i < |days| :: ShiftLength(days[i]) > 0
  {
    if days != [] {
      HasAnyShiftExists(days[1..]);
      if HasAnyShift(days[1..]) {
        var j :| 0 <= j < |days[1..]| && ShiftLength(days[1..][j]) > 0;
        assert ShiftLength(days[j + 1]) > 0;
      }
      if exists i | 0 <= i < |days| :: ShiftLength(days[i]) > 0 {
        var i :| 0 <= i < |days| && ShiftLength(days[i]) > 0;
        if i > 0 {
          assert ShiftLength(days[1..][i - 1]) > 0;
        }
      }
    }
  }

  /** After a load that succeeds, there is some shift exactly when some
      day of the response carried a non-empty shift array, and the banner
      shows exactly when none did; after one that fails, the banner is as
      it was. */
  lemma LoadedShifts(prev: seq<Json>, res: Json)
    ensures var r := Load(prev, Some(res));
      !r.alerted ==> (HasAnyShift(r.days) <==> exists i | 0 <= i < |DayList(res)| :: |Elements(Get(DayList(res)[i], "shift"))| > 0)
    ensures var r := Load(prev, Some(res));
      !r.alerted ==> (ShowsEmptyBanner(r.days) <==> forall i | 0 <= i < |DayList(res)| :: Elements(Get(DayList(res)[i], "shift")) == [])
    ensures var r := Load(prev, Some(res));
      r.alerted ==> ShowsEmptyBanner(r.days) == ShowsEmptyBanner(prev)
  {
    var r := Load(prev, Some(res));
    if r.alerted {
      return;
    }
    var days := r.days;
    var list := DayList(res);
    HasAnyShiftExists(days);
    forall i | 0 <= i < |days|
      ensures ShiftLength(days[i]) == |Elements(Get(list[i], "shift"))|
    {
      var s := Elements(Get(list[i], "shift"));
      assert Get(days[i], "shift") == JArr(s);
    }
  }

  /** A response holding a null day makes the load alert and keep the
      days already shown. */
  lemma NullDayKeepsDays(prev: seq<Json>, res: Json, i: int)
    requires 0 <= i < |DayList(res)| && Nullish(DayList(res)[i])
    ensures Load(prev, Some(res)) == Loaded(prev, true)
  {
  }

  // ---------------------------------------------------------- the dialogs

  datatype Screen = Screen(
    showClose: bool,
    showEdit: bool,
    showAdd: bool,
    editOpen: Json,
    editClose: Json,
    addOpen: Json,
    addClose: Json,
    selectedShiftId: Json,
    selectedDayNo: Json,
    nextShiftNo: Json)

  const Initial := Screen(false, false, false, JStr("12:00 pm"), JStr("11:30 pm"), JStr(""), JStr(""), JNull, JNull, JNum(1.0))

  /** `openCloseForShift(id)`. */
  function OpenClose(s: Screen, id: Json): Screen {
    s.(selectedShiftId := id, showClose := true)
  }

  /** `openEditForShift(shift)`: the dialog opens on the shift's own
      times. */
  function OpenEdit(s: Screen, shift: Json): (r: Screen)
    ensures r.selectedShiftId == Get(shift, "id") && r.showEdit
    ensures r.editOpen == Get(shift, "opening_time") && r.editClose == Get(shift, "closing_time")
    ensures r.(selectedShiftId := s.selectedShiftId, editOpen := s.editOpen, editClose := s.editClose, showEdit := s.showEdit) == s
  {
    s.(selectedShiftId := Get(shift, "id"), editOpen := Get(shift, "opening_time"),
       editClose := Get(shift, "closing_time"), showEdit := true)
  }

  /** `openAddForDay(dayNo, shiftNumber)`: both add times start empty. */
  function OpenAdd(s: Screen, dayNo: Json, shiftNumber: nat): (r: Screen)
    ensures r.selectedDayNo == dayNo && r.nextShiftNo == JNum(shiftNumber as real) && r.showAdd
    ensures r.addOpen == JStr("") && r.addClose == JStr("")
    ensures r.(selectedDayNo := s.selectedDayNo, nextShiftNo := s.nextShiftNo, addOpen := s.addOpen,
               addClose := s.addClose, showAdd := s.showAdd) == s
  {
    s.(selectedDayNo := dayNo, nextShiftNo := JNum(shiftNumber as real),
       addOpen := JStr(""), addClose := JStr(""), showAdd := true)
  }

  datatype Button = CloseButton | EditButton | AddButton

  /** The buttons under a day: ADD SHIFT alone when the day has no shift,
      else CLOSE, EDIT and ADD SHIFT. */
  function Buttons(day: Json): (bs: seq<Button>)
    ensures Elements(Get(day, "shift")) == [] <==> bs == [AddButton]
    ensures Elements(Get(day, "shift")) != [] <==> bs == [CloseButton, EditButton, AddButton]
  {
    if Elements(Get(day, "shift")) == [] then [AddButton] else [CloseButton, EditButton, AddButton]
  }

  /** Pressing one of a day's buttons. CLOSE and EDIT act on the last
      shift of the day, and do nothing when that entry is falsy. */
  function Press(s: Screen, day: Json, b: Button): Screen
    requires b in Buttons(day)
  {
    var shifts := Elements(Get(day, "shift"));
    if shifts == [] then OpenAdd(s, Get(day, "day_no"), 1)
    else
      var last := shifts[|shifts| - 1];
      match b
      case CloseButton => if Truthy(last) then OpenClose(s, Get(last, "id")) else s
      case EditButton => if Truthy(last) then OpenEdit(s, last) else s
      case AddButton => OpenAdd(s, Get(day, "day_no"), |shifts| + 1)
  }

  /** Picking a time with the picker open for `mode` stores the formatted
      time in that field. */
  function Pick(s: Screen, mode: PickerMode, h: nat, m: nat): Screen
    requires h < 24 && m < 60
  {
    var t := JStr(Fmt(h, m));
    match mode
    case EditOpen => s.(editOpen := t)
    case EditClose => s.(editClose := t)
    case AddOpen => s.(addOpen := t)
    case AddClose => s.(addClose := t)
  }

  /** `editValid`: both edit times read as times and the opening is
      strictly earlier. */
  predicate EditValid(s: Screen) {
    OpenBeforeClose(s.editOpen, s.editClose)
  }

  /** `addValid`, the same test on the add times. */
  predicate AddValid(s: Screen) {
    OpenBeforeClose(s.addOpen, s.addClose)
  }

  /** SAVE in the edit dialog is disabled unless `editValid`. */
  predicate SaveDisabled(s: Screen) {
    !EditValid(s)
  }

  /** CONFIRM in the add dialog is disabled unless `addValid`. */
  predicate ConfirmDisabled(s: Screen) {
    !AddValid(s)
  }

  /** What a confirm button does before any response arrives. */
  datatype Request =
    | NoRequest
    | InvalidTime
    | SendClose(id: Json)
    | SendEdit(id: Json, opening: Json, closing: Json)
    | SendAdd(weekday: Json, opening: Json, closing: Json, shift: Json)

  /** `confirmCloseShift`: nothing without a selected shift. */
  function ConfirmClose(s: Screen): (r: Request)
    ensures r == NoRequest <==> !Truthy(s.selectedShiftId)
    ensures r != NoRequest ==> r == SendClose(s.selectedShiftId)
  {
    if !Truthy(s.selectedShiftId) then NoRequest else SendClose(s.selectedShiftId)
  }

  /** `saveEditShift`: a missing shift or invalid times are reported and
      nothing is sent. */
  function SaveEdit(s: Screen): (r: Request)
    ensures r.SendEdit? <==> Truthy(s.selectedShiftId) && EditValid(s)
    ensures !r.SendEdit? ==> r == InvalidTime
    ensures r.SendEdit? ==> r == SendEdit(s.selectedShiftId, s.editOpen, s.editClose)
  {
    if !Truthy(s.selectedShiftId) || !EditValid(s) then InvalidTime
    else SendEdit(s.selectedShiftId, s.editOpen, s.editClose)
  }

  /** `confirmAddShift`: a missing day or invalid times are reported and
      nothing is sent; otherwise the shift number chosen when the dialog
      opened is sent. */
  function ConfirmAdd(s: Screen): (r: Request)
    ensures r.SendAdd? <==> Truthy(s.selectedDayNo) && AddValid(s)
    ensures !r.SendAdd? ==> r == InvalidTime
    ensures r.SendAdd? ==> r == SendAdd(s.selectedDayNo, s.addOpen, s.addClose, s.nextShiftNo)
  {
    if !Truthy(s.selectedDayNo) || !AddValid(s) then InvalidTime
    else SendAdd(s.selectedDayNo, s.addOpen, s.addClose, s.nextShiftNo)
  }

  // ------------------------------------------------------------- lemmas

  /** `editValid` and `addValid` hold exactly when both texts read as times
      of day and the opening is strictly earlier. */
  lemma ValidIffOrdered(s: Screen)
    ensures EditValid(s) <==> TimeOf(s.editOpen).Some? && TimeOf(s.editClose).Some?
                              && TimeOf(s.editOpen).value < TimeOf(s.editClose).value
    ensures AddValid(s) <==> TimeOf(s.addOpen).Some? && TimeOf(s.addClose).Some?
                             && TimeOf(s.addOpen).value < TimeOf(s.addClose).value
  {
    OrderedTimes(s.editOpen, s.editClose);
    OrderedTimes(s.addOpen, s.addClose);
  }

  lemma OrderedTimes(o: Json, c: Json)
    ensures OpenBeforeClose(o, c) <==> TimeOf(o).Some? && TimeOf(c).Some? && TimeOf(o).value < TimeOf(c).value
  {
    if o.JStr? && c.JStr? {
      assert TimeOf(o) == MinuteOfDay(o.s) && TimeOf(c) == MinuteOfDay(c.s);
    }
  }

  /** CLOSE and EDIT on a day with shifts both select its last shift; EDIT
      also loads that shift's times into the dialog. */
  lemma LastShiftTargeted(s: Screen, day: Json)
    requires Elements(Get(day, "shift")) != []
    ensures var shifts := Elements(Get(day, "shift"));
      var last := shifts[|shifts| - 1];
      Truthy(last) ==>
        Press(s, day, CloseButton).selectedShiftId == Get(last, "id")
        && Press(s, day, EditButton).selectedShiftId == Get(last, "id")
        && Press(s, day, EditButton).editOpen == Get(last, "opening_time")
        && Press(s, day, EditButton).editClose == Get(last, "closing_time")
  {
    assert CloseButton in Buttons(day) && EditButton in Buttons(day);
  }

  /** ADD SHIFT numbers the new shift one past the day's shift count: 1 for
      an empty day. */
  lemma AddNumbering(s: Screen, day: Json)
    ensures var r := Press(s, day, AddButton);
      r.nextShiftNo == JNum((|Elements(Get(day, "shift"))| + 1) as real)
      && r.selectedDayNo == Get(day, "day_no")
      && r.addOpen == JStr("") && r.addClose == JStr("")
  {
    assert AddButton in Buttons(day);
  }

  /** A disabled SAVE or CONFIRM button guards a handler that would only
      report invalid times. */
  lemma DisabledButtonsSendNothing(s: Screen)
    ensures SaveDisabled(s) ==> SaveEdit(s) == InvalidTime
    ensures ConfirmDisabled(s) ==> ConfirmAdd(s) == InvalidTime
  {
  }

  /** Right after ADD SHIFT, confirming reports invalid times: both add
      times were cleared. */
  lemma AddRightAfterOpening(s: Screen, day: Json)
    ensures ConfirmAdd(Press(s, day, AddButton)) == InvalidTime
  {
    AddNumbering(s, day);
  }

  /** Picking both add times then confirming on a day sends the shift
      exactly when the picked opening is strictly earlier than the picked
      closing, with the number chosen when the dialog opened. */
  lemma AddAfterPicking(s: Screen, day: Json, h1: nat, m1: nat, h2: nat, m2: nat)
    requires Truthy(Get(day, "day_no"))
    requires h1 < 24 && m1 < 60 && h2 < 24 && m2 < 60
    ensures var r := Pick(Pick(Press(s, day, AddButton), AddOpen, h1, m1), AddClose, h2, m2);
      ConfirmAdd(r).SendAdd? <==> h1 * 60 + m1 < h2 * 60 + m2
    ensures var r := Pick(Pick(Press(s, day, AddButton), AddOpen, h1, m1), AddClose, h2, m2);
      ConfirmAdd(r).SendAdd? ==> ConfirmAdd(r).shift == JNum((|Elements(Get(day, "shift"))| + 1) as real)
  {
    var p := Press(s, day, AddButton);
    AddNumbering(s, day);
    var r := Pick(Pick(p, AddOpen, h1, m1), AddClose, h2, m2);
    assert r == p.(addOpen := JStr(Fmt(h1, m1)), addClose := JStr(Fmt(h2, m2)));
    ConfirmAddTimes(p, JStr(Fmt(h1, m1)), JStr(Fmt(h2, m2)));
    FmtCompare(h1, m1, h2, m2);
  }

  /** Confirming with given add times sends exactly when a day is selected
      and the times are in order, with the selected shift number. */
  lemma ConfirmAddTimes(p: Screen, o: Json, c: Json)
    ensures var r := p.(addOpen := o, addClose := c);
      ConfirmAdd(r).SendAdd? <==> Truthy(p.selectedDayNo) && OpenBeforeClose(o, c)
    ensures var r := p.(addOpen := o, addClose := c);
      ConfirmAdd(r).SendAdd? ==> ConfirmAdd(r).shift == p.nextShiftNo
  {
  }

  /** The edit dialog opened on a day's last shift saves exactly when that
      shift has an id and its stored times are valid and in order. */
  lemma EditOfLastShift(s: Screen, day: Json)
    requires Elements(Get(day, "shift")) != []
    ensures var shifts := Elements(Get(day, "shift"));
      var last := shifts[|shifts| - 1];
      Truthy(last) ==>
        (SaveEdit(Press(s, day, EditButton)).SendEdit?
         <==> Truthy(Get(last, "id")) && OpenBeforeClose(Get(last, "opening_time"), Get(last, "closing_time")))
  {
    var shifts := Elements(Get(day, "shift"));
    var last := shifts[|shifts| - 1];
    if Truthy(last) {
      assert EditButton in Buttons(day);
      assert Press(s, day, EditButton) == OpenEdit(s, last);
      SaveOpenedEdit(s, last);
    }
  }

  lemma SaveOpenedEdit(s: Screen, shift: Json)
    ensures SaveEdit(OpenEdit(s, shift)).SendEdit?
            <==> Truthy(Get(shift, "id")) && OpenBeforeClose(Get(shift, "opening_time"), Get(shift, "closing_time"))
  {
    var r := OpenEdit(s, shift);
    assert EditValid(r) == OpenBeforeClose(Get(shift, "opening_time"), Get(shift, "closing_time"));
  }
}
