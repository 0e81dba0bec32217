/**
 * The API route table: one middleware group requiring `auth:sanctum` around the
 * `users` resource without its `create` and `edit` actions, the router's
 * first-match lookup over it, and a request's way from verb and path to a
 * controller action.
 */
module Routes {
  import opened Optional
  import Access
  import Validation
  import opened Handlers

  datatype Verb = Get | Head | Post | Put | Patch | Delete

  /** A URI segment: fixed text, or a `{name}` parameter matching one non-empty segment. */
  datatype Segment = Lit(text: string) | Param(name: string)

  datatype Route = Route(verbs: set<Verb>, uri: seq<Segment>, controller: string, handler: string, middleware: seq<string>)

  /** The seven actions a resource registration knows, in the order it registers them. */
  datatype ResourceAction = Index | Create | Store | Show | Edit | Update | Destroy

  const ResourceDefaults: seq<ResourceAction> := [Index, Create, Store, Show, Edit, Update, Destroy]

  function MethodName(a: ResourceAction): string
  {
    match a
    case Index => "index"
    case Create => "create"
    case Store => "store"
    case Show => "show"
    case Edit => "edit"
    case Update => "update"
    case Destroy => "destroy"
  }

  /** The verbs and URI a resource registration gives action `a` of resource `name` with parameter `param`. */
  function ActionRoute(a: ResourceAction, name: string, param: string, controller: string): Route
  {
    var verbs := match a
      case Store => {Post}
      case Update => {Put, Patch}
      case Destroy => {Delete}
      case _ => {Get, Head};
    var uri := match a
      case Index => [Lit(name)]
      case Store => [Lit(name)]
      case Create => [Lit(name), Lit("create")]
      case Edit => [Lit(name), Param(param), Lit("edit")]
      case _ => [Lit(name), Param(param)];
    Route(verbs, uri, controller, MethodName(a), [])
  }

  /** The routes of `actions` that `except` does not name, in order. */
  function ResourceRoutesOf(actions: seq<ResourceAction>, name: string, param: string, controller: string,
                            except: set<ResourceAction>): seq<Route>
  {
    if |actions| == 0 then []
    else
      var rest := ResourceRoutesOf(actions[1..], name, param, controller, except);
      if actions[0] in except then rest else [ActionRoute(actions[0], name, param, controller)] + rest
  }

  /** A registration holds the route of each action it lists and `except` does not name, and no other route. */
  lemma {:induction false} ResourceRoutesOfSpec(actions: seq<ResourceAction>, name: string, param: string,
                                                controller: string, except: set<ResourceAction>, r: Route)
    ensures r in ResourceRoutesOf(actions, name, param, controller, except) <==>
      exists a :: a in actions && a !in except && r == ActionRoute(a, name, param, controller)
  {
    if |actions| > 0 {
      ResourceRoutesOfSpec(actions[1..], name, param, controller, except, r);
      assert actions == [actions[0]] + actions[1..];
      if exists a :: a in actions && a !in except && r == ActionRoute(a, name, param, controller) {
        var a :| a in actions && a !in except && r == ActionRoute(a, name, param, controller);
        if a != actions[0] {
          assert a in actions[1..];
        }
      }
    }
  }

  /** `Route::resource(name, controller)->except(except)`. */
  function ResourceRoutes(name: string, param: string, controller: string, except: set<ResourceAction>): seq<Route>
  {
    ResourceRoutesOf(ResourceDefaults, name, param, controller, except)
  }

  /** `Route::group(['middleware' => mw], ...)`: the group's middleware runs before each route's own. */
  function Group(mw: string, routes: seq<Route>): seq<Route>
  {
    if |routes| == 0 then [] else [routes[0].(middleware := [mw] + routes[0].middleware)] + Group(mw, routes[1..])
  }

  /** A group keeps its routes and their order, and puts its middleware first on each. */
  lemma {:induction false} GroupSpec(mw: string, routes: seq<Route>)
    ensures |Group(mw, routes)| == |routes|
    ensures forall i :: 0 <= i < |routes| ==>
      Group(mw, routes)[i] == routes[i].(middleware := [mw] + routes[i].middleware)
  {
    if |routes| > 0 {
      GroupSpec(mw, routes[1..]);
      assert forall i :: 1 <= i < |routes| ==> Group(mw, routes)[i] == Group(mw, routes[1..])[i - 1];
    }
  }

  /** The API route table; the parameter of the `users` resource is its singular, `user`. */
  function ApiRoutes(): seq<Route>
  {
    Group("auth:sanctum", ResourceRoutes("users", "user", "UserController", {Create, Edit}))
  }

  // ---------------------------------------------------------------- matching

  /** A request path, split at `/`. */
  type Path = seq<string>

  predicate SegmentMatches(s: Segment, part: string)
  {
    match s
    case Lit(t) => part == t
    case Param(_) => part != ""
  }

  predicate Matches(r: Route, verb: Verb, path: Path)
  {
    && verb in r.verbs
    && |path| == |r.uri|
    && forall k :: 0 <= k < |path| ==> SegmentMatches(r.uri[k], path[k])
  }

  /** The parameters a matching URI binds: each `{name}` to its segment. */
  function Bind(uri: seq<Segment>, path: Path): (params: map<string, string>)
    requires |uri| == |path|
    ensures forall k :: 0 <= k < |uri| && uri[k].Param? ==> uri[k].name in params
    ensures forall n :: n in params ==> exists k :: 0 <= k < |uri| && uri[k] == Param(n)
  {
    if |uri| == 0 then map[]
    else
      var rest := Bind(uri[1..], path[1..]);
      assert forall k :: 1 <= k < |uri| ==> uri[k] == uri[1..][k - 1];
      if uri[0].Param? then rest[uri[0].name := path[0]] else rest
  }

  /** The first route of `routes`, from `from` on, that matches verb and path. */
  function FirstMatch(routes: seq<Route>, verb: Verb, path: Path, from: nat): (i: Option<nat>)
    requires from <= |routes|
    decreases |routes| - from
    ensures i.Some? ==> from <= i.value < |routes| && Matches(routes[i.value], verb, path)
    ensures i.Some? ==> forall j :: from <= j < i.value ==> !Matches(routes[j], verb, path)
    ensures i.None? <==> forall j :: from <= j < |routes| ==> !Matches(routes[j], verb, path)
  {
    if from == |routes| then None
    else if Matches(routes[from], verb, path) then Some(from)
    else FirstMatch(routes, verb, path, from + 1)
  }

  datatype Match = Match(route: Route, params: map<string, string>)

  /** The router's lookup: routes are tried in the order they were registered. */
  function Resolve(routes: seq<Route>, verb: Verb, path: Path): (m: Option<Match>)
    ensures m.None? <==> forall r :: r in routes ==> !Matches(r, verb, path)
    ensures m.Some? ==> m.value.route in routes && Matches(m.value.route, verb, path)
    ensures m.Some? ==> exists i :: 0 <= i < |routes| && routes[i] == m.value.route
                                    && forall j :: 0 <= j < i ==> !Matches(routes[j], verb, path)
  {
    match FirstMatch(routes, verb, path, 0)
    case None => None
    case Some(i) => Some(Match(routes[i], Bind(routes[i].uri, path)))
  }

  // ---------------------------------------------------------------- route parameters

  predicate IsDigit(c: char) { '0' <= c <= '9' }

  predicate IsNumeral(s: string)
  {
    |s| > 0 && forall k :: 0 <= k < |s| ==> IsDigit(s[k])
  }

  /** The value of a string of decimal digits. */
  function Decimal(s: string): nat
    requires forall k :: 0 <= k < |s| ==> IsDigit(s[k])
  {
    if |s| == 0 then 0
    else
      assert IsDigit(s[|s| - 1]);
      Decimal(s[..|s| - 1]) * 10 + (s[|s| - 1] as int - '0' as int)
  }

  /** The decimal numeral of `n`, without leading zeros. */
  function Numeral(n: nat): (s: string)
    ensures IsNumeral(s)
  {
    var d := ['0' + (n % 10) as char];
    if n < 10 then d else Numeral(n / 10) + d
  }

  /**
   * The id the `{user}` parameter selects: a numeral is read as its value; any
   * other text selects no row, which the model writes as id 0, an id no stored
   * user has.
   */
  function IdOf(param: string): (id: UserId)
    ensures id >= 0
    ensures !IsNumeral(param) ==> id == 0
  {
    if IsNumeral(param) then Decimal(param) else 0
  }

  lemma {:induction false} DecimalOfNumeral(n: nat)
    ensures Decimal(Numeral(n)) == n
  {
    var d := ['0' + (n % 10) as char];
    if n >= 10 {
      DecimalOfNumeral(n / 10);
      var s := Numeral(n / 10) + d;
      assert s[..|s| - 1] == Numeral(n / 10);
    }
  }

  /** Writing an id in decimal and reading the parameter back gives the id. */
  lemma IdRoundTrip(n: nat)
    ensures IdOf(Numeral(n)) == n
  {
    DecimalOfNumeral(n);
  }

  /** The controller action a route names, if the users controller has one by that name. */
  function HandlerFor(r: Route): (a: Option<Access.Action>)
    ensures a.Some? ==> r.controller == "UserController"
  {
    if r.controller != "UserController" then None
    else if r.handler == "index" then Some(Access.Index)
    else if r.handler == "userAuthenticated" then Some(Access.UserAuthenticated)
    else if r.handler == "show" then Some(Access.Show)
    else if r.handler == "store" then Some(Access.Store)
    else if r.handler == "update" then Some(Access.Update)
    else if r.handler == "destroy" then Some(Access.Destroy)
    else None
  }

  // ---------------------------------------------------------------- the route list

  /** The controller methods a route list names, in order. */
  function HandlerNames(routes: seq<Route>): seq<string>
  {
    if routes == [] then [] else [routes[0].handler] + HandlerNames(routes[1..])
  }

  const IndexRoute := Route({Get, Head}, [Lit("users")], "UserController", "index", ["auth:sanctum"])
  const StoreRoute := Route({Post}, [Lit("users")], "UserController", "store", ["auth:sanctum"])
  const ShowRoute := Route({Get, Head}, [Lit("users"), Param("user")], "UserController", "show", ["auth:sanctum"])
  const UpdateRoute := Route({Put, Patch}, [Lit("users"), Param("user")], "UserController", "update", ["auth:sanctum"])
  const DestroyRoute := Route({Delete}, [Lit("users"), Param("user")], "UserController", "destroy", ["auth:sanctum"])

  /** The routes the application serves, as `ApiRouteTable` shows the registration yields them. */
  const RouteList := [IndexRoute, StoreRoute, ShowRoute, UpdateRoute, DestroyRoute]

  /** The registration yields five routes, in this order, each behind `auth:sanctum`. */
  lemma ApiRouteTable()
    ensures ApiRoutes() == RouteList
  {
    var ex := {Create, Edit};
    var r6 := ResourceRoutesOf([Destroy], "users", "user", "UserController", ex);
    assert r6 == [ActionRoute(Destroy, "users", "user", "UserController")];
    var r5 := ResourceRoutesOf([Update, Destroy], "users", "user", "UserController", ex);
    assert r5 == [ActionRoute(Update, "users", "user", "UserController")] + r6;
    var r4 := ResourceRoutesOf([Edit, Update, Destroy], "users", "user", "UserController", ex);
    assert r4 == r5;
    var r3 := ResourceRoutesOf([Show, Edit, Update, Destroy], "users", "user", "UserController", ex);
    assert r3 == [ActionRoute(Show, "users", "user", "UserController")] + r4;
    var r2 := ResourceRoutesOf([Store, Show, Edit, Update, Destroy], "users", "user", "UserController", ex);
    assert r2 == [ActionRoute(Store, "users", "user", "UserController")] + r3;
    var r1 := ResourceRoutesOf([Create, Store, Show, Edit, Update, Destroy], "users", "user", "UserController", ex);
    assert r1 == r2;
    var r0 := ResourceRoutesOf(ResourceDefaults, "users", "user", "UserController", ex);
    assert r0 == [ActionRoute(Index, "users", "user", "UserController")] + r1;
    GroupSpec("auth:sanctum", r0);
    var t := ApiRoutes();
    assert t == Group("auth:sanctum", r0) && |t| == 5;
    assert t[0] == IndexRoute && t[1] == StoreRoute && t[2] == ShowRoute;
    assert t[3] == UpdateRoute && t[4] == DestroyRoute;
  }

  /** The routed actions, in registration order, are index, store, show, update and destroy of the users controller. */
  lemma RoutedMethods()
    ensures forall r :: r in RouteList ==> r.controller == "UserController"
    ensures HandlerNames(RouteList) == ["index", "store", "show", "update", "destroy"]
  {
    var t := RouteList;
    assert t[4..][1..] == [] && t[3..][1..] == t[4..] && t[2..][1..] == t[3..] && t[1..][1..] == t[2..];
    assert HandlerNames(t[4..]) == ["destroy"];
    assert HandlerNames(t[3..]) == ["update", "destroy"];
    assert HandlerNames(t[2..]) == ["show", "update", "destroy"];
    assert HandlerNames(t[1..]) == ["store", "show", "update", "destroy"];
  }

  /** `create`, `edit`, `userAuthenticated` and the roles controller have no route; every route names an action the controller has. */
  lemma Unrouted()
    ensures forall r :: r in RouteList ==> r.handler != "create" && r.handler != "edit"
    ensures forall r :: r in RouteList ==> r.handler != "userAuthenticated" && r.controller != "RoleController"
    ensures forall r :: r in RouteList ==> HandlerFor(r).Some? && HandlerFor(r) != Some(Access.UserAuthenticated)
  {
  }

  /** Every route requires an authenticated caller before anything else. */
  lemma AllAuthenticated()
    ensures forall r :: r in RouteList ==> r.middleware == ["auth:sanctum"]
  {
  }

  // ---------------------------------------------------------------- a request

  /** Where the router sends a request: the action, the id its `{user}` parameter selects, and whether the route requires authentication. */
  datatype Target = Target(action: Access.Action, id: UserId, guarded: bool)

  function TargetOf(verb: Verb, path: Path): (t: Option<Target>)
    ensures Resolve(RouteList, verb, path).None? <==> t.None?
    ensures t.Some? ==> t.value.guarded
    ensures t.Some? ==> t.value.action != Access.UserAuthenticated
  {
    match Resolve(RouteList, verb, path)
    case None => None
    case Some(m) =>
      match HandlerFor(m.route)
      case None => None
      case Some(action) =>
        var id := if "user" in m.params then IdOf(m.params["user"]) else 0;
        Some(Target(action, id, "auth:sanctum" in m.route.middleware))
  }

  /**
   * A request as the application receives it: the router picks the route (no
   * route for this verb and path is written `None`), the route's `auth:sanctum` turns away a request
   * without a caller, and the controller handles the rest.
   */
  function Request(lib: Validation.Library, db: Db, caller: Option<Access.Caller>, verb: Verb, path: Path,
                   input: Validation.Input): (r: Option<Reply>)
    requires db.Valid()
    ensures Resolve(RouteList, verb, path).None? <==> r.None?
    ensures r.Some? ==> r.value.db.Valid()
    ensures !Access.Authenticated(caller) ==> r.None? || r.value == Reply(Unauthenticated, db)
    ensures r.Some? && r.value.db != db ==> Access.Authenticated(caller) && Access.Admin in caller.value.roles
  {
    match TargetOf(verb, path)
    case None => None
    case Some(t) =>
      if t.guarded && !Access.Authenticated(caller) then Some(Reply(Unauthenticated, db))
      else Some(Dispatch(lib, db, caller, t.action, t.id, input))
  }

  /** `GET users/create` is taken by `show`, with `create` as the user parameter. */
  lemma CreatePathIsShow()
    ensures Resolve(RouteList, Get, ["users", "create"]) == Some(Match(ShowRoute, map["user" := "create"]))
  {
    assert !Matches(IndexRoute, Get, ["users", "create"]);
    assert !Matches(StoreRoute, Get, ["users", "create"]);
    assert Matches(ShowRoute, Get, ["users", "create"]);
    assert FirstMatch(RouteList, Get, ["users", "create"], 2) == Some(2);
    assert FirstMatch(RouteList, Get, ["users", "create"], 1) == Some(2);
    assert FirstMatch(RouteList, Get, ["users", "create"], 0) == Some(2);
    assert Bind(ShowRoute.uri, ["users", "create"]) == map["user" := "create"];
  }

  /** `GET users/create` reaches `show` of id 0, which no stored user has. */
  lemma CreatePathTarget()
    ensures TargetOf(Get, ["users", "create"]) == Some(Target(Access.Show, 0, true))
  {
    CreatePathIsShow();
    assert !IsNumeral("create") by { assert !IsDigit("create"[0]); }
  }

  /** So `GET users/create` answers 200 with no user, to any authenticated caller, and changes nothing. */
  lemma CreatePathShowsNobody(lib: Validation.Library, db: Db, caller: Access.Caller, input: Validation.Input)
    requires db.Valid()
    ensures Request(lib, db, Some(caller), Get, ["users", "create"], input) == Some(Reply(Ok(200, OneUser(None)), db))
  {
    CreatePathTarget();
    assert 0 !in db.users;
  }

  /** `GET users/{id}/edit` matches no route. */
  lemma EditPathUnrouted(id: string)
    ensures Resolve(RouteList, Get, ["users", id, "edit"]).None?
  {
  }

  /** `DELETE users/n` reaches `destroy` of user `n`, behind `auth:sanctum`. */
  lemma DeletePathIsDestroy(n: nat)
    ensures TargetOf(Delete, ["users", Numeral(n)]) == Some(Target(Access.Destroy, n, true))
  {
    var path := ["users", Numeral(n)];
    assert !Matches(IndexRoute, Delete, path) && !Matches(StoreRoute, Delete, path);
    assert !Matches(ShowRoute, Delete, path) && !Matches(UpdateRoute, Delete, path);
    assert Matches(DestroyRoute, Delete, path);
    assert FirstMatch(RouteList, Delete, path, 4) == Some(4);
    assert FirstMatch(RouteList, Delete, path, 3) == Some(4);
    assert FirstMatch(RouteList, Delete, path, 2) == Some(4);
    assert FirstMatch(RouteList, Delete, path, 1) == Some(4);
    assert FirstMatch(RouteList, Delete, path, 0) == Some(4);
    assert Bind(DestroyRoute.uri, path) == map["user" := Numeral(n)];
    IdRoundTrip(n);
  }
}
