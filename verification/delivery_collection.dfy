/** The delivery-and-collection screen: each day shows shift rows 1 and 2,
    each with a Collection and a Delivery cell that either shows the
    matching policy entry or offers to add one; the minutes field and the
    two save handlers decide what is sent. */
module DeliveryCollection {
  import opened Wrappers
  import opened JsText
  import opened JsNumber
  import opened Json

  /** The days kept from a load response: its `opening_shift` when that is
      an array, else none. */
  function Days(data: Json): (days: seq<Json>)
    ensures Get(data, "opening_shift").JArr? ==> days == Get(data, "opening_shift").items
    ensures !Get(data, "opening_shift").JArr? ==> days == []
  {
    Elements(Get(data, "opening_shift"))
  }

  /** The two policies a shift row shows, in display order. */
  datatype Policy = Collection | Delivery

  function PolicyName(p: Policy): string {
    match p
    case Collection => "Collection"
    case Delivery => "Delivery"
  }

  /** The day field holding the policy id an add request uses. */
  function PolicyIdKey(p: Policy): string {
    match p
    case Collection => "policy_collection_id"
    case Delivery => "policy_delivery_id"
  }

  /** `String(s.shift) === String(shiftNo) && (s.policy_name || '') === name`;
      `String` of the whole number `shiftNo` is its decimal digits
      (`StringOfNat`). */
  function IsEntryFor(shiftNo: nat, name: string): Json -> bool {
    s => StringOf(Get(s, "shift")) == NatToString(shiftNo)
         && Or(Get(s, "policy_name"), JStr("")) == JStr(name)
  }

  /** `findForShift(day, shiftNo, name)`: the first entry of the day's
      shift list for that shift number and policy name; a day whose `shift`
      is not an array has none. The test reads `s.shift` of each entry in
      turn, so a null or undefined entry reached before a match throws. */
  function FindForShift(day: Json, shiftNo: nat, name: string): (r: Search)
    ensures !Get(day, "shift").JArr? ==> r.NotFound?
    ensures r.Found? ==> IsEntryFor(shiftNo, name)(r.value)
  {
    var r := FindOrThrow(Elements(Get(day, "shift")), IsEntryFor(shiftNo, name), Nullish);
    FindOrThrowSpec(Elements(Get(day, "shift")), IsEntryFor(shiftNo, name), Nullish);
    r
  }

  /** The lookup throws exactly when a null or undefined entry comes
      before every entry for the shift and policy; it finds nothing exactly
      when the list holds neither; and what it finds is the first entry for
      the shift and policy. */
  lemma FindForShiftFirst(day: Json, shiftNo: nat, name: string)
    ensures var list := Elements(Get(day, "shift"));
      FindForShift(day, shiftNo, name).Thrown? <==>
        exists i | 0 <= i < |list| :: Nullish(list[i]) && NoneBefore(list, IsEntryFor(shiftNo, name), i)
    ensures var list := Elements(Get(day, "shift"));
      FindForShift(day, shiftNo, name).NotFound? <==>
        forall i | 0 <= i < |list| :: !IsEntryFor(shiftNo, name)(list[i]) && !Nullish(list[i])
    ensures var list := Elements(Get(day, "shift"));
      FindForShift(day, shiftNo, name).Found? ==> exists i | 0 <= i < |list| ::
        list[i] == FindForShift(day, shiftNo, name).value && NoneBefore(list, IsEntryFor(shiftNo, name), i)
  {
    FindOrThrowSpec(Elements(Get(day, "shift")), IsEntryFor(shiftNo, name), Nullish);
  }

  /** What an add action records: `{ day_no, shift_no, policy_id, label }`. */
  datatype Target = Target(dayNo: Json, shiftNo: nat, policyId: Json, name: string)

  /** One cell of a shift row: the existing entry, or an add action. */
  datatype Cell = Existing(item: Json) | AddAction(target: Target)

  /** The cell of `shiftRow(day, shiftNo)` for one policy; `None` when
      the lookup throws. */
  function CellFor(day: Json, shiftNo: nat, p: Policy): Option<Cell> {
    match FindForShift(day, shiftNo, PolicyName(p))
    case Thrown => None
    case Found(e) => Some(Existing(e))
    case NotFound => Some(AddAction(Target(Get(day, "day_no"), shiftNo, Get(day, PolicyIdKey(p)), PolicyName(p))))
  }

  /** A shift row: its number and its Collection and Delivery cells. */
  datatype Row = Row(shiftNo: nat, collection: Cell, delivery: Cell) {
    function Of(p: Policy): Cell {
      match p
      case Collection => collection
      case Delivery => delivery
    }
  }

  /** `shiftRow(day, shiftNo)`; `None` when either lookup throws. */
  function RowOf(day: Json, shiftNo: nat): Option<Row> {
    match (CellFor(day, shiftNo, Collection), CellFor(day, shiftNo, Delivery))
    case (Some(c), Some(d)) => Some(Row(shiftNo, c, d))
    case _ => None
  }

  /** Drawing a day reads `day.day_no` and `day.day_name` and looks up
      both policies for shifts 1 and 2; any of these throws for a null or
      undefined day or a lookup that reaches a null or undefined entry. */
  predicate DayThrows(day: Json) {
    Nullish(day)
    || FindForShift(day, 1, "Collection").Thrown? || FindForShift(day, 1, "Delivery").Thrown?
    || FindForShift(day, 2, "Collection").Thrown? || FindForShift(day, 2, "Delivery").Thrown?
  }

  /** A day shows shift rows 1 and 2, in that order, unless drawing it
      throws. */
  function DayRows(day: Json): (rows: Option<seq<Row>>)
    ensures rows.None? <==> DayThrows(day)
    ensures rows.Some? ==> |rows.value| == 2 && rows.value[0].shiftNo == 1 && rows.value[1].shiftNo == 2
  {
    if Nullish(day) then None
    else match (RowOf(day, 1), RowOf(day, 2))
      case (Some(r1), Some(r2)) => Some([r1, r2])
      case _ => None
  }

  // ------------------------------------------------------- the minutes box

  /** The minutes input: the text box admits at most 3 characters and the
      change handler keeps only its digits. */
  function SanitizeMinutes(t: string): (m: string)
    ensures AllDigits(m) && |m| <= 3
    ensures AllDigits(t) && |t| <= 3 ==> m == t
  {
    KeepDigits(Take(t, 3))
  }

  /** `parseInt(minutes, 10)` when it is a positive number; `!min || min <= 0`
      rejects everything else. */
  function PositiveMinutes(minutes: string): (r: Option<int>)
    ensures r.Some? <==> ParseInt(JStr(minutes)).Some? && ParseInt(JStr(minutes)).value > 0
    ensures r.Some? ==> r.value > 0
  {
    match ParseInt(JStr(minutes))
    case Some(n) => if n > 0 then Some(n) else None
    case None => None
  }

  // ------------------------------------------------------------ the state

  datatype Screen = Screen(
    showEdit: bool,
    showAdd: bool,
    minutes: string,
    selectedDay: Json,
    selectedItem: Json,
    addTarget: Option<Target>)

  const Initial := Screen(false, false, "", JNull, JNull, None)

  /** `onPressExisting(item, day)`: the entry is selected and its minutes,
      as text, fill the input. */
  function PressExisting(s: Screen, item: Json, day: Json): (r: Screen)
    ensures r.selectedItem == item && r.selectedDay == day
    ensures r.minutes == StringOf(Coalesce(Get(item, "minutes"), JStr("")))
    ensures r.showEdit == s.showEdit && r.showAdd == s.showAdd && r.addTarget == s.addTarget
  {
    s.(selectedDay := day, selectedItem := item, minutes := StringOf(Coalesce(Get(item, "minutes"), JStr(""))))
  }

  /** `onPressAdd`: the add dialog opens on an empty input for the
      target. */
  function PressAdd(s: Screen, day: Json, target: Target): (r: Screen)
    ensures r.addTarget == Some(target) && r.minutes == "" && r.showAdd
    ensures r.selectedItem == s.selectedItem && r.showEdit == s.showEdit
  {
    s.(selectedDay := day, addTarget := Some(target), minutes := "", showAdd := true)
  }

  /** Pressing a cell of a day. */
  function PressCell(s: Screen, day: Json, c: Cell): Screen {
    match c
    case Existing(item) => PressExisting(s, item, day)
    case AddAction(t) => PressAdd(s, day, t)
  }

  /** A keystroke in the minutes input. */
  function TypeMinutes(s: Screen, t: string): (r: Screen)
    ensures AllDigits(r.minutes) && |r.minutes| <= 3
  {
    s.(minutes := SanitizeMinutes(t))
  }

  /** What SAVE does before any response arrives. */
  datatype Request =
    | EmptyOrZero
    | PermissionDenied
    | EditTime(id: Json, minutes: int)
    | AddTime(restId: Json, dayNo: Json, policyId: Json, minutes: int, shiftNo: nat)
    | CloseTime(id: Json)

  /** `saveEdit`: empty or zero minutes are reported; otherwise the new
      minutes go to the selected entry. */
  function SaveEdit(s: Screen): (r: Request)
    ensures r == EmptyOrZero <==> PositiveMinutes(s.minutes).None?
    ensures r != EmptyOrZero ==> r == EditTime(Get(s.selectedItem, "id"), PositiveMinutes(s.minutes).value)
  {
    match PositiveMinutes(s.minutes)
    case None => EmptyOrZero
    case Some(n) => EditTime(Get(s.selectedItem, "id"), n)
  }

  /** `!addTarget?.policy_id && addTarget?.policy_id !== 0`. */
  predicate MissingPolicy(t: Option<Target>) {
    var pid := if t.Some? then t.value.policyId else JUndef;
    !Truthy(pid) && pid != JNum(0.0)
  }

  /** `saveAdd`: the minutes are checked first, then the target's policy
      id, which may be any truthy value or the number 0. */
  function SaveAdd(s: Screen, restId: Json): (r: Request)
    ensures r == EmptyOrZero <==> PositiveMinutes(s.minutes).None?
    ensures r == PermissionDenied <==> PositiveMinutes(s.minutes).Some? && MissingPolicy(s.addTarget)
    ensures r.AddTime? ==> (s.addTarget.Some? && r.minutes > 0
      && r == AddTime(restId, s.addTarget.value.dayNo, s.addTarget.value.policyId, r.minutes, s.addTarget.value.shiftNo))
  {
    match PositiveMinutes(s.minutes)
    case None => EmptyOrZero
    case Some(n) =>
      if MissingPolicy(s.addTarget) then PermissionDenied
      else AddTime(restId, s.addTarget.value.dayNo, s.addTarget.value.policyId, n, s.addTarget.value.shiftNo)
  }

  /** `doClose(item)`, reached from the entry's action sheet once CONFIRM
      is pressed: the request names the entry's id. */
  function CloseRequest(item: Json): Request {
    CloseTime(Get(item, "id"))
  }

  /** The `finally` of `doClose`: both dialogs close, the selection and
      the input are cleared, whatever the answer. */
  function AfterClose(s: Screen): (r: Screen)
    ensures !r.showEdit && !r.showAdd && r.minutes == "" && r.selectedItem == JNull
    ensures r.selectedDay == s.selectedDay && r.addTarget == s.addTarget
  {
    s.(showEdit := false, showAdd := false, selectedItem := JNull, minutes := "")
  }

  // ------------------------------------------------------------- lemmas

  /** `String(n)` of a whole number is its decimal digits. */
  lemma StringOfNat(n: nat)
    ensures StringOf(JNum(n as real)) == NatToString(n)
  {
    assert IsIntegral(n as real) && (n as real).Floor == n;
  }

  /** An entry whose `shift` is the number `n` or its decimal text, and
      whose `policy_name` is exactly the policy's name, is an entry for that
      row and policy. */
  lemma EntryMatches(e: Json, n: nat, p: Policy)
    requires Get(e, "shift") == JNum(n as real) || Get(e, "shift") == JStr(NatToString(n))
    requires Get(e, "policy_name") == JStr(PolicyName(p))
    ensures IsEntryFor(n, PolicyName(p))(e)
  {
    if Get(e, "shift") == JNum(n as real) {
      StringOfNat(n);
    }
    assert StringOf(Get(e, "shift")) == NatToString(n);
    assert Truthy(JStr(PolicyName(p)));
  }

  /** A day whose shift list holds no entry for a row and policy offers the
      add action there, aimed at the day's policy id for that kind and the
      row's shift number. */
  lemma AddTargetOfRow(day: Json, k: nat, p: Policy)
    requires k < 2 && DayRows(day).Some?
    requires forall i | 0 <= i < |Elements(Get(day, "shift"))| :: !IsEntryFor(k + 1, PolicyName(p))(Elements(Get(day, "shift"))[i])
    ensures DayRows(day).value[k].Of(p) == AddAction(Target(Get(day, "day_no"), k + 1, Get(day, PolicyIdKey(p)), PolicyName(p)))
  {
    RowCell(day, k, p);
    FindForShiftFirst(day, k + 1, PolicyName(p));
  }

  /** Row `k` of a day shows, for each policy, the cell of shift `k + 1`. */
  lemma RowCell(day: Json, k: nat, p: Policy)
    requires k < 2
    ensures DayRows(day).Some? ==> CellFor(day, k + 1, p).Some? && DayRows(day).value[k].Of(p) == CellFor(day, k + 1, p).value
  {
    if DayRows(day).Some? {
      assert Some(DayRows(day).value[k]) == RowOf(day, k + 1);
    }
  }

  /** A null or undefined first entry in a day's shift list makes every
      lookup of the day throw, so the day cannot be drawn. */
  lemma NullFirstEntryBreaksDay(day: Json)
    requires Get(day, "shift").JArr? && Get(day, "shift").items != [] && Nullish(Get(day, "shift").items[0])
    ensures DayRows(day).None?
  {
    var list := Get(day, "shift").items;
    assert NoneBefore(list, IsEntryFor(1, "Collection"), 0);
    FindForShiftFirst(day, 1, "Collection");
  }

  /** Sanitising twice is sanitising once. */
  lemma SanitizeIdempotent(t: string)
    ensures SanitizeMinutes(SanitizeMinutes(t)) == SanitizeMinutes(t)
  {
  }

  /** For text the input can hold, the save handlers accept exactly a
      non-empty digit string that is not all zeros, and send its value. */
  lemma SanitizedMinutesAccepted(t: string)
    ensures var m := SanitizeMinutes(t);
      PositiveMinutes(m).Some? <==> m != "" && DigitsValue(m) > 0
    ensures var m := SanitizeMinutes(t);
      PositiveMinutes(m).Some? ==> PositiveMinutes(m).value == DigitsValue(m)
  {
    PositiveDigits(SanitizeMinutes(t));
  }

  /** A digit string is accepted exactly when it is non-empty and not all
      zeros, with its value. */
  lemma PositiveDigits(m: string)
    requires AllDigits(m)
    ensures PositiveMinutes(m) == (if m != "" && DigitsValue(m) > 0 then Some(DigitsValue(m) as int) else None)
  {
    ParseIntOfText(m);
    ParseIntDigits(m);
  }

  /** Opening the add dialog and saving without typing is rejected for its
      empty minutes, before the policy id is looked at. */
  lemma AddWithoutMinutes(s: Screen, day: Json, target: Target, restId: Json)
    ensures SaveAdd(PressAdd(s, day, target), restId) == EmptyOrZero
  {
    EmptyMinutesRejected();
    var r := PressAdd(s, day, target);
    assert r.minutes == "";
  }

  lemma SaveAddSends(s: Screen, restId: Json, n: int)
    requires PositiveMinutes(s.minutes) == Some(n) && s.addTarget.Some?
    ensures var t := s.addTarget.value;
      !MissingPolicy(s.addTarget) <==> SaveAdd(s, restId) == AddTime(restId, t.dayNo, t.policyId, n, t.shiftNo)
  {
  }

  lemma EmptyMinutesRejected()
    ensures PositiveMinutes("") == None
  {
    ParseIntOfText("");
    ParseIntDigits("");
  }

  /** Adding from a cell with a typed positive number of minutes sends the
      cell's day, policy id and shift number, unless the policy id is
      missing; a policy id of 0 is sent. */
  lemma AddFromCell(s: Screen, day: Json, k: nat, p: Policy, restId: Json, t: string)
    requires k < 2 && DayRows(day).Some?
    requires DayRows(day).value[k].Of(p).AddAction?
    requires PositiveMinutes(SanitizeMinutes(t)).Some?
    ensures var r := SaveAdd(TypeMinutes(PressCell(s, day, DayRows(day).value[k].Of(p)), t), restId);
      var pid := Get(day, PolicyIdKey(p));
      (Truthy(pid) || pid == JNum(0.0)) <==> r == AddTime(restId, Get(day, "day_no"), pid, DigitsValue(SanitizeMinutes(t)), k + 1)
  {
    var c := DayRows(day).value[k].Of(p);
    RowCell(day, k, p);
    var m := SanitizeMinutes(t);
    SanitizedMinutesAccepted(t);
    var s' := TypeMinutes(PressCell(s, day, c), t);
    assert s'.addTarget == Some(Target(Get(day, "day_no"), k + 1, Get(day, PolicyIdKey(p)), PolicyName(p)));
    assert s'.minutes == m;
    var n := DigitsValue(m);
    assert PositiveMinutes(m) == Some(n);
    var pid := Get(day, PolicyIdKey(p));
    assert MissingPolicy(s'.addTarget) <==> !(Truthy(pid) || pid == JNum(0.0));
    SaveAddSends(s', restId, n);
  }

  /** Closing from a row's cell that shows an entry names the first entry
      of the day's list for that shift and policy. */
  lemma CloseFromCell(day: Json, k: nat, p: Policy)
    requires k < 2 && DayRows(day).Some?
    requires DayRows(day).value[k].Of(p).Existing?
    ensures var list := Elements(Get(day, "shift"));
      exists i | 0 <= i < |list| ::
        && IsEntryFor(k + 1, PolicyName(p))(list[i])
        && NoneBefore(list, IsEntryFor(k + 1, PolicyName(p)), i)
        && CloseRequest(DayRows(day).value[k].Of(p).item) == CloseTime(Get(list[i], "id"))
  {
    RowCell(day, k, p);
    FindForShiftFirst(day, k + 1, PolicyName(p));
  }

  /** After a close neither dialog can resend: saving either one reports
      empty minutes. */
  lemma ClosedScreenSendsNothing(s: Screen, restId: Json)
    ensures SaveEdit(AfterClose(s)) == EmptyOrZero
    ensures SaveAdd(AfterClose(s), restId) == EmptyOrZero
  {
    EmptyMinutesRejected();
  }
}
