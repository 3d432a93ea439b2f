/** The session store (`userSlice`): who is logged in, the selected
    restaurant and the PIN, changed only by five actions, plus the two
    selectors that read the restaurant id and the assigned restaurants. */
module UserSession {
  import opened Wrappers
  import opened Json

  datatype Session = Session(isLoggedIn: bool, userInfo: Json, activeRestaurant: Json, pin: Json)

  const Initial := Session(false, JNull, JNull, JNull)

  datatype Action =
    | Login(payload: Json)
    | Logout
    | SetPinCode(payload: Json)
    | SetActiveRestaurant(payload: Json)
    | HydrateFromStorage(payload: Json)

  /** `payload?.assign_restaurants ?? []`. */
  function AssignedList(payload: Json): Json {
    Coalesce(Get(payload, "assign_restaurants"), JArr([]))
  }

  /** `login`: logged in with the payload as user info. A single assigned
      restaurant becomes active; otherwise, when none is active and the
      payload has a truthy `rest_id`, a restaurant built from the payload
      becomes active; otherwise the active restaurant stays. */
  function LoginStep(s: Session, payload: Json): (r: Session)
    ensures r.isLoggedIn && r.userInfo == payload && r.pin == s.pin
    ensures Length(AssignedList(payload)) == Some(1) ==> r.activeRestaurant == First(AssignedList(payload))
    ensures Length(AssignedList(payload)) != Some(1) && (Truthy(s.activeRestaurant) || !Truthy(Get(payload, "rest_id")))
            ==> r.activeRestaurant == s.activeRestaurant
  {
    var list := AssignedList(payload);
    var active :=
      if Length(list) == Some(1) then First(list)
      else if !Truthy(s.activeRestaurant) && Truthy(Get(payload, "rest_id")) then
        JObj(map["restaurant_id" := Get(payload, "rest_id"),
                 "restaurant_name" := Get(payload, "restaurant_name"),
                 "logo" := Get(payload, "logo")])
      else s.activeRestaurant;
    Session(true, payload, active, s.pin)
  }

  /** `hydrateFromStorage`: only the fields the stored payload supplies. */
  function HydrateStep(s: Session, payload: Json): (r: Session)
    ensures var p := Or(payload, JObj(map[]));
      (Truthy(Get(p, "userInfo")) ==> r.userInfo == Get(p, "userInfo") && r.isLoggedIn)
      && (!Truthy(Get(p, "userInfo")) ==> r.userInfo == s.userInfo && r.isLoggedIn == s.isLoggedIn)
      && (Truthy(Get(p, "activeRestaurant")) ==> r.activeRestaurant == Get(p, "activeRestaurant"))
      && (!Truthy(Get(p, "activeRestaurant")) ==> r.activeRestaurant == s.activeRestaurant)
      && (Get(p, "pin") != JUndef ==> r.pin == Get(p, "pin"))
      && (Get(p, "pin") == JUndef ==> r.pin == s.pin)
  {
    var p := Or(payload, JObj(map[]));
    var userInfo := Get(p, "userInfo");
    var activeRestaurant := Get(p, "activeRestaurant");
    var pin := Get(p, "pin");
    var s1 := if Truthy(userInfo) then s.(userInfo := userInfo, isLoggedIn := true) else s;
    var s2 := if Truthy(activeRestaurant) then s1.(activeRestaurant := activeRestaurant) else s1;
    if pin != JUndef then s2.(pin := pin) else s2
  }

  /** The reducer. */
  function Reduce(s: Session, a: Action): Session
  {
    match a
    case Login(p) => LoginStep(s, p)
    case Logout => Initial
    case SetPinCode(p) => s.(pin := Or(p, JNull))
    case SetActiveRestaurant(p) => s.(activeRestaurant := Or(p, JNull))
    case HydrateFromStorage(p) => HydrateStep(s, p)
  }

  /** The store after dispatching `actions` in order. */
  function Run(s: Session, actions: seq<Action>): Session
  {
    if actions == [] then s else Reduce(Run(s, actions[..|actions| - 1]), actions[|actions| - 1])
  }

  // ---------------------------------------------------------- selectors

  /** `selectRestId`. */
  function SelectRestId(s: Session): (r: Json)
    ensures Truthy(Get(s.activeRestaurant, "restaurant_id")) ==> r == Get(s.activeRestaurant, "restaurant_id")
    ensures !Truthy(Get(s.activeRestaurant, "restaurant_id")) && Truthy(Get(s.userInfo, "rest_id"))
            ==> r == Get(s.userInfo, "rest_id")
    ensures r == JNull || Truthy(r)
  {
    var vs := [Get(s.activeRestaurant, "restaurant_id"), Get(s.userInfo, "rest_id")];
    assert !Truthy(vs[0]) ==> NoneTruthyBefore(vs, 1);
    FirstTruthy(vs, JNull)
  }

  /** `selectAssignRestaurants`. */
  function SelectAssignRestaurants(s: Session): (r: Json)
    ensures !Truthy(Get(s.userInfo, "assign_restaurants")) ==> r == JArr([])
    ensures Truthy(Get(s.userInfo, "assign_restaurants")) ==> r == Get(s.userInfo, "assign_restaurants")
  {
    Or(Get(s.userInfo, "assign_restaurants"), JArr([]))
  }

  // ------------------------------------------------------------- lemmas

  /** `logout` restores the initial state whatever came before, so doing it
      twice is the same as doing it once. */
  lemma LogoutResets(s: Session)
    ensures Reduce(s, Logout) == Initial
    ensures Reduce(Reduce(s, Logout), Logout) == Reduce(s, Logout)
    ensures SelectRestId(Reduce(s, Logout)) == JNull
    ensures SelectAssignRestaurants(Reduce(s, Logout)) == JArr([])
  {
  }

  /** `setPinCode` and `setActiveRestaurant` store their payload (a falsy
      one as `null`) and touch nothing else. */
  lemma SettersTouchOneField(s: Session, p: Json)
    ensures Reduce(s, SetPinCode(p)).(pin := s.pin) == s
    ensures Reduce(s, SetPinCode(p)).pin == (if Truthy(p) then p else JNull)
    ensures Reduce(s, SetActiveRestaurant(p)).(activeRestaurant := s.activeRestaurant) == s
    ensures Reduce(s, SetActiveRestaurant(p)).activeRestaurant == (if Truthy(p) then p else JNull)
  {
  }

  /** After logging in with a truthy `rest_id` and no restaurant yet active,
      the selector finds a restaurant id. */
  lemma LoginSelectsRestId(s: Session, payload: Json)
    requires !Truthy(s.activeRestaurant)
    requires Truthy(Get(payload, "rest_id"))
    requires Length(AssignedList(payload)) != Some(1)
    ensures SelectRestId(Reduce(s, Login(payload))) == Get(payload, "rest_id")
  {
    var r := Reduce(s, Login(payload));
    assert Get(r.activeRestaurant, "restaurant_id") == Get(payload, "rest_id");
  }

  /** No action other than `logout` logs the user out. */
  lemma OnlyLogoutLogsOut(s: Session, a: Action)
    requires s.isLoggedIn && a != Logout
    ensures Reduce(s, a).isLoggedIn
  {
  }

  /** A logged-in session that ends logged out has seen a `logout`. */
  lemma {:induction false} LoggedOutOnlyByLogout(s: Session, actions: seq<Action>)
    requires s.isLoggedIn
    requires !Run(s, actions).isLoggedIn
    ensures Logout in actions
  {
    if actions != [] {
      var init := actions[..|actions| - 1];
      var last := actions[|actions| - 1];
      if last != Logout {
        if Run(s, init).isLoggedIn {
          OnlyLogoutLogsOut(Run(s, init), last);
          assert false;
        }
        LoggedOutOnlyByLogout(s, init);
        assert Logout in init;
      }
    }
  }

  /** Whatever happened before, the store after the last `logout` is what
      the actions after it make of the initial state. */
  lemma {:induction false} RunAfterLogout(s: Session, before: seq<Action>, after: seq<Action>)
    ensures Run(s, before + [Logout] + after) == Run(Initial, after)
    decreases |after|
  {
    var all := before + [Logout] + after;
    if after == [] {
      assert all == before + [Logout];
      assert all[..|all| - 1] == before;
    } else {
      var init := after[..|after| - 1];
      assert all[..|all| - 1] == before + [Logout] + init;
      assert all[|all| - 1] == after[|after| - 1];
      RunAfterLogout(s, before, init);
    }
  }
}
