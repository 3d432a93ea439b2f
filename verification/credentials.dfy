/** The change-password form: its three checks, the order in which the
    first failing one is reported, the button rule and the outcome of the
    request. */
module ChangePassword {
  import opened Wrappers
  import opened JsText
  import opened Json

  datatype Form = Form(current: string, newPassword: string, confirm: string)

  /** The new password, untrimmed, is 6 to 16 characters long. */
  predicate LengthOk(f: Form) {
    6 <= |f.newPassword| <= 16
  }

  predicate MatchOk(f: Form) {
    f.newPassword == f.confirm
  }

  /** No field is blank. */
  predicate FieldsOk(f: Form) {
    Trim(f.current) != "" && Trim(f.newPassword) != "" && Trim(f.confirm) != ""
  }

  datatype Problem = FillAll | BadLength | NoMatch | MissingEmail

  function Message(p: Problem): string {
    match p
    case FillAll => "Please fill all fields."
    case BadLength => "Password must be 6 to 16 characters."
    case NoMatch => "New Password & Confirm Password do not match."
    case MissingEmail => "Missing user email."
  }

  /** `validate`: the first failing check, in the order fields, length,
      match, e-mail. */
  function Validate(f: Form, email: Json): (p: Option<Problem>)
    ensures p.None? <==> FieldsOk(f) && LengthOk(f) && MatchOk(f) && Truthy(email)
    ensures p == Some(FillAll) <==> !FieldsOk(f)
    ensures p == Some(BadLength) <==> FieldsOk(f) && !LengthOk(f)
    ensures p == Some(NoMatch) <==> FieldsOk(f) && LengthOk(f) && !MatchOk(f)
    ensures p == Some(MissingEmail) <==> FieldsOk(f) && LengthOk(f) && MatchOk(f) && !Truthy(email)
  {
    if !FieldsOk(f) then Some(FillAll)
    else if !LengthOk(f) then Some(BadLength)
    else if !MatchOk(f) then Some(NoMatch)
    else if !Truthy(email) then Some(MissingEmail)
    else None
  }

  /** CHANGE PASSWORD is enabled when the three checks on the fields pass
      and nothing is being submitted; the e-mail is not consulted. */
  predicate Enabled(f: Form, submitting: bool) {
    FieldsOk(f) && LengthOk(f) && MatchOk(f) && !submitting
  }

  datatype Request = Request(email: Json, previousPassword: string, newPassword: string)

  /** The form after `handleChangePassword`, with the error shown and the
      request made, if any. `answer` is the answer to the request; `None`
      stands for a request that threw. */
  datatype Outcome = Outcome(form: Form, error: string, sent: Option<Request>, succeeded: bool)

  function Submit(f: Form, email: Json, answer: Option<Json>): (o: Outcome)
    ensures o.sent.Some? <==> Validate(f, email).None?
    ensures o.sent.Some? ==> o.sent.value == Request(email, f.current, f.newPassword)
    ensures o.succeeded <==> o.sent.Some? && answer.Some? && Get(answer.value, "status") != JStr("Failed")
    ensures o.succeeded ==> o.form == Form("", "", "") && o.error == ""
    ensures !o.succeeded ==> o.form == f
    ensures Validate(f, email).Some? ==> o.error == Message(Validate(f, email).value)
  {
    match Validate(f, email)
    case Some(p) => Outcome(f, Message(p), None, false)
    case None =>
      var req := Request(email, f.current, f.newPassword);
      match answer
      case None => Outcome(f, "Something went wrong. Please try again.", Some(req), false)
      case Some(res) =>
        if Get(res, "status") != JStr("Failed") then Outcome(Form("", "", ""), "", Some(req), true)
        else Outcome(f, MessageOr(res, "Failed to change password."), Some(req), false)
  }

  /** Pressing the enabled button sends the request unless the user's
      e-mail is missing, the one check the button does not make. */
  lemma EnabledButtonSends(f: Form, email: Json, answer: Option<Json>)
    requires Enabled(f, false)
    ensures Submit(f, email, answer).sent.Some? <==> Truthy(email)
    ensures Submit(f, email, answer).sent.None? ==> Submit(f, email, answer).error == "Missing user email."
  {
    var v := Validate(f, email);
    assert FieldsOk(f) && LengthOk(f) && MatchOk(f);
    assert v.None? <==> Truthy(email);
    assert !Truthy(email) ==> v == Some(MissingEmail);
    SubmitRefused(f, email, answer);
  }

  /** The request goes out exactly when validation passes, and a missing
      e-mail is reported with its own message. */
  lemma SubmitRefused(f: Form, email: Json, answer: Option<Json>)
    ensures Submit(f, email, answer).sent.Some? <==> Validate(f, email).None?
    ensures Validate(f, email) == Some(MissingEmail) ==> Submit(f, email, answer).error == "Missing user email."
  {
  }

  /** A password of 6 to 16 characters that is not all blanks, typed twice
      after the current one, gets through every check but the e-mail. */
  lemma TypedTwicePasses(current: string, pw: string, email: Json)
    requires Trim(current) != "" && Trim(pw) != "" && 6 <= |pw| <= 16 && Truthy(email)
    ensures Validate(Form(current, pw, pw), email).None?
  {
  }
}

/** The change-pincode form: the 4-digit sanitiser, the checks in the order
    they are reported, the button rule and the outcome of the request. */
module ChangePincode {
  import opened Wrappers
  import opened JsText
  import opened Json

  /** `sanitizePin`: the digits of the text, at most the first four. */
  function SanitizePin(t: string): (pin: string)
    ensures AllDigits(pin) && |pin| <= 4
    ensures AllDigits(t) && |t| <= 4 ==> pin == t
  {
    Take(KeepDigits(t), 4)
  }

  /** Typing into a field: the input holds at most four characters, which
      are then sanitised. */
  function Typed(t: string): (pin: string)
    ensures AllDigits(pin) && |pin| <= 4
  {
    SanitizePin(Take(t, 4))
  }

  datatype Form = Form(current: string, newPin: string, confirm: string)

  /** Each field, trimmed, is exactly four characters. */
  predicate LengthOk(f: Form) {
    |Trim(f.current)| == 4 && |Trim(f.newPin)| == 4 && |Trim(f.confirm)| == 4
  }

  predicate MatchOk(f: Form) {
    f.newPin == f.confirm
  }

  predicate IsValid(f: Form) {
    LengthOk(f) && MatchOk(f)
  }

  predicate Enabled(f: Form, submitting: bool) {
    IsValid(f) && !submitting
  }

  datatype Problem = MissingUser | BadLength | NoMatch

  function Message(p: Problem): string {
    match p
    case MissingUser => "Missing user id."
    case BadLength => "Pincode must be 4 digits."
    case NoMatch => "New Pincode & Confirm Pincode do not match."
  }

  /** `validate`: the first failing check, in the order user id, length,
      match. */
  function Validate(f: Form, userId: Json): (p: Option<Problem>)
    ensures p.None? <==> Truthy(userId) && IsValid(f)
    ensures p == Some(MissingUser) <==> !Truthy(userId)
    ensures p == Some(BadLength) <==> Truthy(userId) && !LengthOk(f)
    ensures p == Some(NoMatch) <==> Truthy(userId) && LengthOk(f) && !MatchOk(f)
  {
    if !Truthy(userId) then Some(MissingUser)
    else if !LengthOk(f) then Some(BadLength)
    else if !MatchOk(f) then Some(NoMatch)
    else None
  }

  datatype Request = Request(userId: Json, oldPincode: string, newPincode: string)

  datatype Outcome = Outcome(form: Form, error: string, sent: Option<Request>, succeeded: bool)

  /** `handleChangePincode`; `answer` is the answer to the request, `None`
      a request that threw. */
  function Submit(f: Form, userId: Json, answer: Option<Json>): (o: Outcome)
    ensures o.sent.Some? <==> Validate(f, userId).None?
    ensures o.sent.Some? ==> o.sent.value == Request(userId, f.current, f.newPin)
    ensures o.succeeded <==> o.sent.Some? && answer.Some? && Get(answer.value, "status") != JStr("Failed")
    ensures o.succeeded ==> o.form == Form("", "", "") && o.error == ""
    ensures !o.succeeded ==> o.form == f
    ensures Validate(f, userId).Some? ==> o.error == Message(Validate(f, userId).value)
  {
    match Validate(f, userId)
    case Some(p) => Outcome(f, Message(p), None, false)
    case None =>
      var req := Request(userId, f.current, f.newPin);
      match answer
      case None => Outcome(f, "Something went wrong. Please try again.", Some(req), false)
      case Some(res) =>
        if Get(res, "status") != JStr("Failed") then Outcome(Form("", "", ""), "", Some(req), true)
        else Outcome(f, MessageOr(res, "Failed to change pincode."), Some(req), false)
  }

  // ------------------------------------------------------------- lemmas

  /** The sanitiser is idempotent. */
  lemma SanitizeIdempotent(t: string)
    ensures SanitizePin(SanitizePin(t)) == SanitizePin(t)
  {
  }

  /** Digits carry no whitespace, so trimming leaves them alone. */
  lemma TrimDigits(s: string)
    requires AllDigits(s)
    ensures Trim(s) == s
  {
    if s != [] {
      assert IsDigit(s[0]) && IsDigit(s[|s| - 1]);
    }
    TrimDigitEnds(s);
  }

  lemma TrimDigitEnds(s: string)
    requires s == [] || (IsDigit(s[0]) && IsDigit(s[|s| - 1]))
    ensures Trim(s) == s
  {
    TrimIdentity(s);
  }

  /** For fields filled by typing, the length check is that each field
      holds four digits, so the form is valid exactly when each holds four
      digits and the new PIN is typed the same twice. */
  lemma TypedFormValid(a: string, b: string, c: string)
    ensures var f := Form(Typed(a), Typed(b), Typed(c));
      IsValid(f) <==> |Typed(a)| == 4 && |Typed(b)| == 4 && |Typed(c)| == 4 && Typed(b) == Typed(c)
  {
    TrimDigits(Typed(a));
    TrimDigits(Typed(b));
    TrimDigits(Typed(c));
  }

  /** With a user, the enabled button always sends the request. */
  lemma EnabledButtonSends(f: Form, userId: Json, answer: Option<Json>)
    requires Enabled(f, false) && Truthy(userId)
    ensures Submit(f, userId, answer).sent == Some(Request(userId, f.current, f.newPin))
  {
  }
}
