/** The PIN part of the settings screen: the 4-to-6-digit rule, the digit
    filter of its inputs, whether a PIN is already set, and the decisions of
    SET NEW PIN and SUBMIT around their requests. The requests' answers are
    inputs; `None` stands for a request that threw. */
module PinSettings {
  import opened Wrappers
  import opened JsText
  import opened Json

  /** `/^\d{4,6}$/` on a text. */
  predicate ValidPinText(s: string) {
    4 <= |s| <= 6 && AllDigits(s)
  }

  /** `isValidPin(v)`: the rule applied to `String(v || '')`. */
  predicate IsValidPin(v: Json) {
    ValidPinText(StringOf(Or(v, JStr(""))))
  }

  /** A PIN field holds what was typed, at most 6 characters, with every
      non-digit removed. */
  function PinInput(typed: string): (pin: string)
    ensures AllDigits(pin) && |pin| <= 6
    ensures AllDigits(typed) && |typed| <= 6 ==> pin == typed
  {
    KeepDigits(Take(typed, 6))
  }

  /** The screen's state. `stored` is the PIN last handed to the session
      store. */
  datatype PinState = PinState(
    pincode: string, newPin: string, confirmPin: string,
    error: string, pinSet: bool, stored: Option<string>)

  const Initial := PinState("", "", "", "", false, None)

  /** Typing into a PIN field also clears the error. */
  datatype PinField = Pincode | NewPin | ConfirmPin

  function Type(s: PinState, f: PinField, typed: string): (r: PinState)
    ensures r.error == "" && r.pinSet == s.pinSet && r.stored == s.stored
    ensures f == Pincode ==> r == s.(pincode := PinInput(typed), error := "")
    ensures f == NewPin ==> r == s.(newPin := PinInput(typed), error := "")
    ensures f == ConfirmPin ==> r == s.(confirmPin := PinInput(typed), error := "")
  {
    match f
    case Pincode => s.(pincode := PinInput(typed), error := "")
    case NewPin => s.(newPin := PinInput(typed), error := "")
    case ConfirmPin => s.(confirmPin := PinInput(typed), error := "")
  }

  /** The PIN status check on load: set exactly when the answer's status is
      'Success'; a request that threw counts as not set. Without a user
      nothing is asked. */
  function StatusLoaded(s: PinState, userId: Json, answer: Option<Json>): (r: PinState)
    ensures !Truthy(userId) ==> r == s
    ensures Truthy(userId) ==> r == s.(pinSet := answer.Some? && Get(answer.value, "status") == JStr("Success"))
  {
    if !Truthy(userId) then s
    else s.(pinSet := answer.Some? && Get(answer.value, "status") == JStr("Success"))
  }

  const FormatError := "PIN must be 4–6 digits."
  const MismatchError := "Pincode and confirm pincode do not match"

  /** What `handleSetNewPin` decides before any request: the format of both
      PINs first, then their equality. */
  datatype SetCheck = BadFormat | Mismatch | SendSet(pin: string)

  function CheckSetNewPin(newPin: string, confirmPin: string): (c: SetCheck)
    ensures c == BadFormat <==> !ValidPinText(newPin) || !ValidPinText(confirmPin)
    ensures c == Mismatch <==> ValidPinText(newPin) && ValidPinText(confirmPin) && newPin != confirmPin
    ensures c.SendSet? ==> c.pin == newPin && newPin == confirmPin && ValidPinText(newPin)
  {
    if !ValidPinText(newPin) || !ValidPinText(confirmPin) then BadFormat
    else if newPin != confirmPin then Mismatch
    else SendSet(newPin)
  }

  /** `handleSetNewPin` with `answer` the answer to the request, when one
      is sent. */
  function SetNewPin(s: PinState, answer: Option<Json>): (r: PinState)
    ensures CheckSetNewPin(s.newPin, s.confirmPin) == BadFormat ==> r == s.(error := FormatError)
    ensures CheckSetNewPin(s.newPin, s.confirmPin) == Mismatch ==> r == s.(error := MismatchError)
    ensures r.stored != s.stored ==> r.stored == Some(s.newPin) && r.pinSet && ValidPinText(s.newPin)
  {
    match CheckSetNewPin(s.newPin, s.confirmPin)
    case BadFormat => s.(error := FormatError)
    case Mismatch => s.(error := MismatchError)
    case SendSet(pin) =>
      match answer
      case None => s.(error := "Failed to set PIN")
      case Some(res) =>
        if Get(res, "status") == JStr("Success") then
          s.(stored := Some(pin), newPin := "", confirmPin := "", pinSet := true, error := "")
        else s.(error := MessageOr(res, "Failed to set PIN"))
  }

  /** The result of `handleSubmitPin`: the new state and the PIN handed to
      the partner-centre screen, when it navigates there. */
  datatype Submitted = Submitted(state: PinState, navigateWith: Option<string>)

  /** `handleSubmitPin`: a PIN of the wrong form is refused before any
      request; then every answer whose status is not 'Failed' is accepted. */
  function SubmitPin(s: PinState, answer: Option<Json>): (r: Submitted)
    ensures !ValidPinText(s.pincode) ==> r == Submitted(s.(error := FormatError), None)
    ensures r.navigateWith.Some? <==> ValidPinText(s.pincode) && answer.Some? && Get(answer.value, "status") != JStr("Failed")
    ensures r.navigateWith.Some? ==>
      (r.navigateWith.value == s.pincode && r.state == s.(stored := Some(s.pincode), pincode := ""))
    ensures r.navigateWith.None? ==> r.state.stored == s.stored && r.state.pincode == s.pincode
  {
    if !ValidPinText(s.pincode) then Submitted(s.(error := FormatError), None)
    else match answer
      case None => Submitted(s.(error := "PIN verification failed"), None)
      case Some(res) =>
        if Get(res, "status") != JStr("Failed") then
          Submitted(s.(stored := Some(s.pincode), pincode := ""), Some(s.pincode))
        else Submitted(s.(error := MessageOr(res, "Invalid PIN")), None)
  }

  /** SUBMIT is enabled only for a valid PIN; SET NEW PIN only when both
      PINs are valid. */
  predicate SubmitEnabled(s: PinState) {
    ValidPinText(s.pincode)
  }

  predicate SetEnabled(s: PinState) {
    ValidPinText(s.newPin) && ValidPinText(s.confirmPin)
  }

  // ------------------------------------------------------------- lemmas

  /** For a text, `isValidPin` is the plain 4-to-6-digit rule. */
  lemma IsValidPinOfText(s: string)
    ensures IsValidPin(JStr(s)) <==> ValidPinText(s)
  {
  }

  /** The digit filter is idempotent, and its output is a valid PIN exactly
      when it kept at least four digits. */
  lemma PinInputSettles(typed: string)
    ensures PinInput(PinInput(typed)) == PinInput(typed)
    ensures ValidPinText(PinInput(typed)) <==> |PinInput(typed)| >= 4
  {
  }

  /** An enabled SET NEW PIN button gets past the format check: the only
      refusal left before the request is a mismatch. */
  lemma EnabledSetPassesFormat(s: PinState)
    requires SetEnabled(s)
    ensures CheckSetNewPin(s.newPin, s.confirmPin) != BadFormat
  {
  }

  /** A PIN the server accepts is stored and marked as set, both inputs
      and the error are cleared, and the stored PIN is one SUBMIT accepts. */
  lemma SuccessfulSet(s: PinState, res: Json)
    requires s.newPin == s.confirmPin && ValidPinText(s.newPin)
    requires Get(res, "status") == JStr("Success")
    ensures var r := SetNewPin(s, Some(res));
      r.stored == Some(s.newPin) && r.pinSet && r.newPin == "" && r.confirmPin == "" && r.error == ""
      && SubmitEnabled(r.(pincode := r.stored.value))
  {
  }

  /** A typed PIN that the server does not reject outright opens the
      partner centre with that PIN. */
  lemma TypedPinAccepted(s: PinState, typed: string, res: Json)
    requires |PinInput(typed)| >= 4
    requires Get(res, "status") != JStr("Failed")
    ensures SubmitPin(Type(s, Pincode, typed), Some(res)).navigateWith == Some(PinInput(typed))
  {
    PinInputSettles(typed);
  }
}
