/** The '1'/'0' text both settings screens use for an on/off flag: a
    request carries '1' for on and '0' for off, and an answer's value counts
    as on when its string form is '1'. */
module FlagText {
  import opened Json

  function Encode(on: bool): (t: string)
    ensures t == "1" <==> on
    ensures t == "0" <==> !on
  {
    if on then "1" else "0"
  }

  /** `String(v) === '1'`. */
  predicate IsOne(v: Json) {
    StringOf(v) == "1"
  }

  /** Reading back what was sent gives the flag that was sent. */
  lemma DecodeEncode(on: bool)
    ensures IsOne(JStr(Encode(on))) == on
  {
  }

  /** Apart from arrays, exactly the text '1' and the number 1 read as on. */
  lemma IsOneValues(v: Json)
    requires !v.JArr?
    ensures IsOne(v) <==> v == JStr("1") || v == JNum(1.0)
  {
    StringOfIsOne(v);
  }
}

/** The reservation-setting screen: the two flags read on load, and the
    optimistic switches that show the new value at once and roll it back
    when the server does not confirm. Answers are inputs; `None` stands for
    a request that threw. */
module ReservationSetting {
  import opened Wrappers
  import opened Json
  import opened FlagText

  /** The two switches: accepting reservations, and confirming them
      automatically. */
  datatype Setting = Accept | AutoConfirm

  function Other(k: Setting): Setting {
    if k == Accept then AutoConfirm else Accept
  }

  datatype Screen = Screen(
    initialLoading: bool, savingAccept: bool, savingAuto: bool,
    accept: bool, auto: bool)

  const Initial := Screen(true, false, false, false, false)

  function Flag(s: Screen, k: Setting): bool {
    if k == Accept then s.accept else s.auto
  }

  function Saving(s: Screen, k: Setting): bool {
    if k == Accept then s.savingAccept else s.savingAuto
  }

  /** The screen with flag `k` and its saving bit replaced. */
  function Set(s: Screen, k: Setting, flag: bool, saving: bool): (r: Screen)
    ensures Flag(r, k) == flag && Saving(r, k) == saving
    ensures Flag(r, Other(k)) == Flag(s, Other(k)) && Saving(r, Other(k)) == Saving(s, Other(k))
    ensures r.initialLoading == s.initialLoading
  {
    if k == Accept then s.(accept := flag, savingAccept := saving)
    else s.(auto := flag, savingAuto := saving)
  }

  predicate Succeeded(answer: Option<Json>) {
    answer.Some? && Get(answer.value, "status") == JStr("Success")
  }

  /** `fetchSettings` once its answer is in. Without a restaurant nothing
      happens, not even the end of the initial loading. A 'Success' answer
      sets each flag from its field of `list`; any other answer, or a
      request that threw, leaves both flags as they were. */
  function Loaded(s: Screen, restId: Json, answer: Option<Json>): (r: Screen)
    ensures !Truthy(restId) ==> r == s
    ensures Truthy(restId) ==>
      && !r.initialLoading
      && r.savingAccept == s.savingAccept && r.savingAuto == s.savingAuto
    ensures Truthy(restId) && Succeeded(answer) ==>
      var list := Get(answer.value, "list");
      && (r.accept <==> IsOne(Get(list, "accept_reservation")))
      && (r.auto <==> IsOne(Get(list, "is_auto_reservation")))
    ensures Truthy(restId) && !Succeeded(answer) ==> r.accept == s.accept && r.auto == s.auto
  {
    if !Truthy(restId) then s
    else if Succeeded(answer) then
      var list := Get(answer.value, "list");
      s.(initialLoading := false,
         accept := IsOne(Get(list, "accept_reservation")),
         auto := IsOne(Get(list, "is_auto_reservation")))
    else s.(initialLoading := false)
  }

  /** The request a switch sends: the restaurant and the new value under
      the switch's own key, `accept` or `auto`. */
  datatype Request = Request(restId: Json, key: string, value: string)

  function Sent(restId: Json, k: Setting, next: bool): (q: Request)
    ensures q.value == "1" <==> next
    ensures IsOne(JStr(q.value)) == next
    ensures q.key == (if k == Accept then "accept" else "auto")
  {
    DecodeEncode(next);
    Request(restId, if k == Accept then "accept" else "auto", Encode(next))
  }

  /** The switch is flipped to `next`: the flag shows it at once and its
      save starts. Without a restaurant nothing happens. */
  function Started(s: Screen, restId: Json, k: Setting, next: bool): (r: Screen)
    ensures !Truthy(restId) ==> r == s
    ensures Truthy(restId) ==> r == Set(s, k, next, true)
  {
    if !Truthy(restId) then s else Set(s, k, next, true)
  }

  /** The save's answer arrives: the flag stays on 'Success' and goes back
      to `prev`, its value when the switch was flipped, otherwise; the save
      ends either way. */
  function Finished(s: Screen, k: Setting, prev: bool, answer: Option<Json>): (r: Screen)
    ensures Succeeded(answer) ==> r == Set(s, k, Flag(s, k), false)
    ensures !Succeeded(answer) ==> r == Set(s, k, prev, false)
  {
    Set(s, k, if Succeeded(answer) then Flag(s, k) else prev, false)
  }

  /** A whole toggle with nothing else happening in between. */
  function Toggle(s: Screen, restId: Json, k: Setting, next: bool, answer: Option<Json>): (r: Screen)
    ensures !Truthy(restId) ==> r == s
    ensures Truthy(restId) ==>
      && Flag(r, k) == (if Succeeded(answer) then next else Flag(s, k))
      && !Saving(r, k)
      && Flag(r, Other(k)) == Flag(s, Other(k)) && Saving(r, Other(k)) == Saving(s, Other(k))
      && r.initialLoading == s.initialLoading
  {
    if !Truthy(restId) then s
    else Finished(Started(s, restId, k, next), k, Flag(s, k), answer)
  }

  /** `disableAll`: both switches are disabled while the initial load runs
      or while either save is in flight. */
  predicate Disabled(s: Screen) {
    s.initialLoading || s.savingAccept || s.savingAuto
  }

  // ------------------------------------------------------------- lemmas

  /** A save that is refused or throws leaves the screen as it was before
      the switch was flipped. */
  lemma RefusedToggleRestores(s: Screen, restId: Json, k: Setting, next: bool, answer: Option<Json>)
    requires !Saving(s, k) && !Succeeded(answer)
    ensures Toggle(s, restId, k, next, answer) == s
  {
  }

  /** While a save is in flight both switches are disabled. */
  lemma SavingDisables(s: Screen, restId: Json, k: Setting, next: bool)
    requires Truthy(restId)
    ensures Disabled(Started(s, restId, k, next))
  {
  }

  /** Without a restaurant the initial load never ends, so the switches
      stay disabled whatever is flipped. */
  lemma NoRestaurantStaysDisabled(restId: Json, answer: Option<Json>, k: Setting, next: bool)
    requires !Truthy(restId)
    ensures Disabled(Started(Loaded(Initial, restId, answer), restId, k, next))
  {
  }

  /** The two switches do not interfere: when both saves overlap, the
      final screen does not depend on which answer arrives first, and each
      flag ends as its own answer decides. */
  lemma OverlappingSavesCommute(s: Screen, restId: Json, a1: Option<Json>, a2: Option<Json>, n1: bool, n2: bool)
    requires Truthy(restId)
    ensures
      var both := Started(Started(s, restId, Accept, n1), restId, AutoConfirm, n2);
      var one := Finished(Finished(both, Accept, s.accept, a1), AutoConfirm, s.auto, a2);
      var two := Finished(Finished(both, AutoConfirm, s.auto, a2), Accept, s.accept, a1);
      && one == two
      && one.accept == (if Succeeded(a1) then n1 else s.accept)
      && one.auto == (if Succeeded(a2) then n2 else s.auto)
      && !one.savingAccept && !one.savingAuto
  {
  }

  /** A loaded flag that the server sends as the text '1' or the number 1
      shows as on, and as off for any other text or number. */
  lemma LoadedFlagValues(s: Screen, restId: Json, res: Json)
    requires Truthy(restId) && Get(res, "status") == JStr("Success")
    requires !Get(Get(res, "list"), "accept_reservation").JArr?
    ensures var v := Get(Get(res, "list"), "accept_reservation");
      Loaded(s, restId, Some(res)).accept <==> v == JStr("1") || v == JNum(1.0)
  {
    IsOneValues(Get(Get(res, "list"), "accept_reservation"));
  }
}

/** The partner-centre settings screen: the online-order shift status,
    where on means closed. */
module PartnerCenter {
  import opened Wrappers
  import opened Json
  import opened FlagText

  datatype Screen = Screen(closed: bool, loading: bool)

  const Initial := Screen(false, false)

  /** `fetchShiftStatus` once its answer is in: closed exactly when the
      answer's `status` reads as '1'. A request that threw leaves the
      status alone; without a restaurant nothing is asked. */
  function Loaded(s: Screen, restId: Json, answer: Option<Json>): (r: Screen)
    ensures !Truthy(restId) ==> r == s
    ensures Truthy(restId) && answer.Some? ==> r == Screen(IsOne(Get(answer.value, "status")), false)
    ensures Truthy(restId) && answer.None? ==> r == s.(loading := false)
  {
    if !Truthy(restId) then s
    else match answer
      case Some(res) => Screen(IsOne(Get(res, "status")), false)
      case None => s.(loading := false)
  }

  /** How a change is asked for: a press on the row, or the switch
      reporting its new value. */
  datatype Gesture = RowPress | SwitchChange(value: bool)

  /** The state a gesture asks the confirmation for. */
  function Requested(s: Screen, g: Gesture): bool {
    match g
    case RowPress => !s.closed
    case SwitchChange(v) => v
  }

  datatype Request = Request(restId: Json, userId: Json, status: string)

  /** The request `applyShiftStatus` sends, if it sends one: none without
      both a restaurant and a user. */
  function ApplyRequest(restId: Json, userId: Json, nextClosed: bool): (q: Option<Request>)
    ensures q.Some? <==> Truthy(restId) && Truthy(userId)
    ensures q.Some? ==> q.value.restId == restId && q.value.userId == userId
    ensures q.Some? ==> IsOne(JStr(q.value.status)) == nextClosed
  {
    if !Truthy(restId) || !Truthy(userId) then None
    else
      DecodeEncode(nextClosed);
      Some(Request(restId, userId, Encode(nextClosed)))
  }

  /** `applyShiftStatus` once its answer is in. The answer's content is
      not looked at: any answer sets the requested state, and a request
      that threw leaves the state as it was. */
  function Applied(s: Screen, restId: Json, userId: Json, nextClosed: bool, answer: Option<Json>): (r: Screen)
    ensures ApplyRequest(restId, userId, nextClosed).None? ==> r == s
    ensures ApplyRequest(restId, userId, nextClosed).Some? && answer.Some? ==> r == Screen(nextClosed, false)
    ensures ApplyRequest(restId, userId, nextClosed).Some? && answer.None? ==> r == s.(loading := false)
  {
    if ApplyRequest(restId, userId, nextClosed).None? then s
    else if answer.Some? then Screen(nextClosed, false)
    else s.(loading := false)
  }

  /** A gesture followed by CONFIRM applies the requested state; CANCEL
      changes nothing. */
  function Gestured(s: Screen, g: Gesture, confirmed: bool, restId: Json, userId: Json, answer: Option<Json>): (r: Screen)
    ensures !confirmed ==> r == s
    ensures confirmed ==> r == Applied(s, restId, userId, Requested(s, g), answer)
  {
    if confirmed then Applied(s, restId, userId, Requested(s, g), answer) else s
  }

  // ------------------------------------------------------------- lemmas

  /** A confirmed press on the row flips the status once the request
      returns, whatever the server answered. */
  lemma ConfirmedRowPressFlips(s: Screen, restId: Json, userId: Json, res: Json)
    requires Truthy(restId) && Truthy(userId)
    ensures Gestured(s, RowPress, true, restId, userId, Some(res)).closed == !s.closed
  {
  }

  /** A confirmed switch change sets the status the switch reported. */
  lemma ConfirmedSwitchSets(s: Screen, v: bool, restId: Json, userId: Json, res: Json)
    requires Truthy(restId) && Truthy(userId)
    ensures Gestured(s, SwitchChange(v), true, restId, userId, Some(res)).closed == v
  {
  }

  /** If the server stores the status it was sent and reports it back,
      reloading shows the status that was applied. */
  lemma ReloadShowsApplied(s: Screen, restId: Json, userId: Json, nextClosed: bool, res: Json)
    requires Truthy(restId) && Truthy(userId)
    ensures
      var q := ApplyRequest(restId, userId, nextClosed);
      var after := Applied(s, restId, userId, nextClosed, Some(res));
      Loaded(after, restId, Some(JObj(map["status" := JStr(q.value.status)]))) == after
  {
  }
}
