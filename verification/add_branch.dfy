/** The add-branch form: the checks in the order they are reported, the
    request built when they pass, the outcome of its answer and the button
    rule. */
module AddBranch {
  import opened Wrappers
  import opened JsText
  import opened Json
  import opened EmailRule

  datatype Request = Request(parentRestaurantId: Json, username: string, password: string)

  /** What `handleAddBranch` does before any request. */
  datatype Check = BothRequired | InvalidEmail | MissingRestaurant | Send(req: Request)

  /** Both fields must be filled, the trimmed e-mail must be an address, and
      the user's restaurant must be known; the e-mail is sent trimmed and
      the password as typed. */
  function CheckForm(email: string, password: string, restId: Json): (c: Check)
    ensures c == BothRequired <==> email == "" || password == ""
    ensures c == InvalidEmail <==> email != "" && password != "" && !EmailOk(Trim(email))
    ensures c == MissingRestaurant <==> email != "" && password != "" && EmailOk(Trim(email)) && !Truthy(restId)
    ensures c.Send? ==> c.req == Request(restId, Trim(email), password)
  {
    if email == "" || password == "" then BothRequired
    else if !EmailOk(Trim(email)) then InvalidEmail
    else if !Truthy(restId) then MissingRestaurant
    else Send(Request(restId, Trim(email), password))
  }

  /** The fields after an answer to the request; `None` stands for a
      request that threw. Every answer whose status is not 'Failure' counts
      as success and clears both fields. */
  datatype Fields = Fields(email: string, password: string)

  function Answered(f: Fields, answer: Option<Json>): (r: Fields)
    ensures answer.Some? && Get(answer.value, "status") != JStr("Failure") ==> r == Fields("", "")
    ensures answer.None? || Get(answer.value, "status") == JStr("Failure") ==> r == f
  {
    match answer
    case Some(res) => if Get(res, "status") != JStr("Failure") then Fields("", "") else f
    case None => f
  }

  /** ADD BRANCH is disabled while a field is empty or a request runs. */
  predicate Disabled(f: Fields, loading: bool) {
    f.email == "" || f.password == "" || loading
  }

  // ------------------------------------------------------------- lemmas

  /** An enabled button never meets the "both required" check, and the
      username it sends is an address without surrounding whitespace. */
  lemma EnabledButtonPassesFirstCheck(f: Fields, restId: Json)
    requires !Disabled(f, false)
    ensures CheckForm(f.email, f.password, restId) != BothRequired
    ensures CheckForm(f.email, f.password, restId).Send? ==>
      (var u := CheckForm(f.email, f.password, restId).req.username; EmailOk(u) && Trim(u) == u)
  {
    var c := CheckForm(f.email, f.password, restId);
    if c.Send? {
      EmailIsTrimmed(Trim(f.email));
    }
  }

  /** An address typed with a trailing blank still passes here, because
      the check trims first, and the branch is created under the trimmed
      address. */
  lemma TrailingBlankAccepted(email: string, password: string, restId: Json)
    requires EmailOk(email) && password != "" && Truthy(restId)
    ensures CheckForm(email + " ", password, restId) == Send(Request(restId, email, password))
  {
    EmailIsTrimmed(email);
    TrimTrailingBlank(email);
  }

  lemma TrimTrailingBlank(s: string)
    requires s != "" && Trim(s) == s
    ensures Trim(s + " ") == s
  {
    assert !IsSpace(s[0]) && !IsSpace(s[|s| - 1]) by {
      TrimmedEnds(s);
    }
    var t := s + " ";
    assert TrimStart(t) == t;
    assert TrimEnd(t) == s by {
      assert t[..|t| - 1] == s;
    }
  }

  /** Trimming only drops whitespace at the ends: a trimmed non-empty text
      begins and ends with something else. */
  lemma TrimmedEnds(s: string)
    requires s != "" && Trim(s) == s
    ensures !IsSpace(s[0]) && !IsSpace(s[|s| - 1])
  {
    var u := TrimStart(s);
    assert |u| > 0;
  }
}
