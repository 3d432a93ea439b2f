/** The login screen: the checks before the request, in the code's order,
    what a successful answer does with the remembered credentials and the
    session, and where the user is taken afterwards. */
module LoginFlow {
  import opened Wrappers
  import opened Json
  import opened EmailRule
  import UserSession

  /** What `handleLogin` decides before any request. The address is
      checked first, untrimmed, so an empty username is reported as an
      invalid e-mail. */
  datatype Check = InvalidEmail | MissingFields | Attempt

  function CheckLogin(username: string, password: string): (c: Check)
    ensures c == InvalidEmail <==> !EmailOk(username)
    ensures c == MissingFields <==> EmailOk(username) && password == ""
    ensures c == Attempt <==> EmailOk(username) && password != ""
  {
    if !EmailOk(username) then InvalidEmail
    else if username == "" || password == "" then MissingFields
    else Attempt
  }

  /** Where `goAfterLogin` leads. */
  datatype Route = RestaurantList | MainApp(active: Json) | NoRestaurants

  /** By the length of `assign_restaurants ?? []`: several restaurants lead
      to the list, one becomes active and leads to the app, and anything
      else (none, or a value without a length) stays with an error. */
  function GoAfterLogin(details: Json): (r: Route)
    ensures r == RestaurantList <==> Length(UserSession.AssignedList(details)).Some? && Length(UserSession.AssignedList(details)).value > 1
    ensures r.MainApp? <==> Length(UserSession.AssignedList(details)) == Some(1)
    ensures r.MainApp? ==> r.active == First(UserSession.AssignedList(details))
  {
    var list := UserSession.AssignedList(details);
    match Length(list)
    case Some(n) =>
      if n > 1 then RestaurantList
      else if n == 1 then MainApp(First(list))
      else NoRestaurants
    case None => NoRestaurants
  }

  /** What happens to the remembered credentials on success. */
  datatype Memory = StoreCredentials | ClearCredentials

  /** The outcome of the request; `None` stands for a request that threw. */
  datatype Outcome =
    | Rejected(message: string)
    | NetworkError
    | LoggedIn(details: Json, memory: Memory, route: Route, actions: seq<UserSession.Action>)
    | DetailsMissing(memory: Memory, actions: seq<UserSession.Action>)

  /** Success is a `status` that is the number 1, strictly. The store then
      receives `login(details)`, followed by `setActiveRestaurant` when the
      route selects a single restaurant. When the answer carries no user
      details, the welcome message reads a field of `undefined` and throws
      after the login was stored: the screen reports a network error and
      does not route. */
  function Answered(answer: Option<Json>, remember: bool): (o: Outcome)
    ensures o.LoggedIn? || o.DetailsMissing? <==> answer.Some? && Get(answer.value, "status") == JNum(1.0)
    ensures o.DetailsMissing? <==>
      (answer.Some? && Get(answer.value, "status") == JNum(1.0) && Nullish(Get(answer.value, "UserDetails")))
    ensures o.DetailsMissing? ==>
      (o.actions == [UserSession.Login(Get(answer.value, "UserDetails"))] && (o.memory == StoreCredentials <==> remember))
    ensures o.LoggedIn? ==>
      && o.details == Get(answer.value, "UserDetails")
      && (o.memory == StoreCredentials <==> remember)
      && o.route == GoAfterLogin(o.details)
      && |o.actions| >= 1 && o.actions[0] == UserSession.Login(o.details)
      && (|o.actions| == 2 <==> o.route.MainApp?)
    ensures o == NetworkError <==> answer.None?
  {
    match answer
    case None => NetworkError
    case Some(res) =>
      if Get(res, "status") == JNum(1.0) then
        var details := Get(res, "UserDetails");
        var memory := if remember then StoreCredentials else ClearCredentials;
        if Nullish(details) then DetailsMissing(memory, [UserSession.Login(details)]) else
        var route := GoAfterLogin(details);
        var actions := [UserSession.Login(details)]
          + (if route.MainApp? then [UserSession.SetActiveRestaurant(route.active)] else []);
        LoggedIn(details, memory, route, actions)
      else Rejected(MessageOr(res, "Invalid credentials"))
  }

  // ------------------------------------------------------------- lemmas

  /** An empty username is reported as an invalid e-mail, never as a
      missing field. */
  lemma EmptyUsernameIsInvalidEmail(password: string)
    ensures CheckLogin("", password) == InvalidEmail
  {
  }

  /** The text "1" is not success: the status must be the number. */
  lemma TextStatusRejected(res: Json, remember: bool)
    requires Get(res, "status") == JStr("1")
    ensures !Answered(Some(res), remember).LoggedIn?
  {
  }

  /** After a successful login into a user with exactly one truthy
      restaurant, the store is logged in with that restaurant active, and
      the route's choice agrees with the one the login reducer made. */
  lemma SingleRestaurantBecomesActive(s: UserSession.Session, res: Json, remember: bool)
    requires Get(res, "status") == JNum(1.0) && !Nullish(Get(res, "UserDetails"))
    requires var list := UserSession.AssignedList(Get(res, "UserDetails"));
      Length(list) == Some(1) && Truthy(First(list))
    ensures var o := Answered(Some(res), remember);
      var after := UserSession.Run(s, o.actions);
      && o.route == MainApp(First(UserSession.AssignedList(o.details)))
      && after.isLoggedIn
      && after.activeRestaurant == o.route.active
      && UserSession.LoginStep(s, o.details).activeRestaurant == o.route.active
  {
    var o := Answered(Some(res), remember);
    var details := Get(res, "UserDetails");
    var r := First(UserSession.AssignedList(details));
    assert o.actions == [UserSession.Login(details), UserSession.SetActiveRestaurant(r)];
    var mid := UserSession.Run(s, [UserSession.Login(details)]);
    assert o.actions[..1] == [UserSession.Login(details)];
    assert mid == UserSession.LoginStep(UserSession.Run(s, []), details);
    assert UserSession.Run(s, o.actions) == UserSession.Reduce(mid, UserSession.SetActiveRestaurant(r));
  }

  /** A user with several restaurants is sent to choose one, and the store
      gets only the login. */
  lemma SeveralRestaurantsChoose(res: Json, remember: bool)
    requires Get(res, "status") == JNum(1.0) && !Nullish(Get(res, "UserDetails"))
    requires Get(Get(res, "UserDetails"), "assign_restaurants").JArr?
    requires |Get(Get(res, "UserDetails"), "assign_restaurants").items| > 1
    ensures var o := Answered(Some(res), remember);
      o.route == RestaurantList && o.actions == [UserSession.Login(o.details)]
  {
  }
}
