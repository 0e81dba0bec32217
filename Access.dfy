/**
 * The role catalog, the actions of the users controller and the two gates a
 * request meets before an action runs: authentication (the route group's
 * `auth:sanctum` middleware) and the controller's stacked `role:<name>`
 * middleware, each entry restricted to the actions of its `only` list.
 */
module Access {
  import opened Optional

  type RoleName = string

  const Admin: RoleName := "admin"
  const Reviewer: RoleName := "reviewer"

  /** The role names the database seeder creates; roles are never created by a request. */
  const Catalog: set<RoleName> := {Admin, Reviewer}

  /** The public actions of the users controller. */
  datatype Action = Index | UserAuthenticated | Show | Store | Update | Destroy

  /** An authenticated caller, as resolved by the session or token guard. */
  datatype Caller = Caller(id: int, roles: set<RoleName>)

  /** The `auth:sanctum` middleware: the request must carry a resolvable caller. */
  predicate Authenticated(caller: Option<Caller>)
  {
    caller.Some?
  }

  /**
   * One `role:<names>` entry of a middleware table with its `only` list; the
   * entry's `|`-separated names are `anyOf`, and the caller must hold one of them.
   */
  datatype RoleMiddleware = RoleMiddleware(anyOf: set<RoleName>, only: seq<Action>)

  /** The controller's middleware table, in declaration order. */
  const ControllerMiddleware: seq<RoleMiddleware> := [
    RoleMiddleware({Reviewer}, [Index]),
    RoleMiddleware({Admin}, [Index, Store, Update, Destroy])
  ]

  /** The caller holds one of the roles an entry names. */
  predicate Holds(entry: RoleMiddleware, roles: set<RoleName>)
  {
    exists r :: r in entry.anyOf && r in roles
  }

  /**
   * Runs a stack of role middleware in order: an entry that names the action
   * stops the request unless the caller holds one of its roles.
   */
  function PassesStack(stack: seq<RoleMiddleware>, roles: set<RoleName>, action: Action): (ok: bool)
    ensures ok <==> forall k :: 0 <= k < |stack| && action in stack[k].only ==> Holds(stack[k], roles)
  {
    if stack == [] then true
    else if action in stack[0].only && !Holds(stack[0], roles) then false
    else PassesStack(stack[1..], roles, action)
  }

  /** The controller's role gate, and what it amounts to for each action. */
  predicate RoleGate(roles: set<RoleName>, action: Action): (ok: bool)
    ensures action == Index ==> (ok <==> Reviewer in roles && Admin in roles)
    ensures action in {Store, Update, Destroy} ==> (ok <==> Admin in roles)
    ensures action in {Show, UserAuthenticated} ==> ok
  {
    assert ControllerMiddleware[0].only == [Index];
    assert ControllerMiddleware[1].only == [Index, Store, Update, Destroy];
    assert Holds(ControllerMiddleware[0], roles) <==> Reviewer in roles;
    assert Holds(ControllerMiddleware[1], roles) <==> Admin in roles;
    PassesStack(ControllerMiddleware, roles, action)
  }

  /**
   * The table the stack evidently means: a reviewer or an administrator may
   * list users (`role:reviewer|admin` on `index`), only an administrator writes.
   */
  const IntendedMiddleware: seq<RoleMiddleware> := [
    RoleMiddleware({Reviewer, Admin}, [Index]),
    RoleMiddleware({Admin}, [Store, Update, Destroy])
  ]

  /** The gate of that table: `index` opens to either role, the writers to administrators. */
  predicate IntendedGate(roles: set<RoleName>, action: Action): (ok: bool)
    ensures action == Index ==> (ok <==> Reviewer in roles || Admin in roles)
    ensures action in {Store, Update, Destroy} ==> (ok <==> Admin in roles)
    ensures action in {Show, UserAuthenticated} ==> ok
  {
    assert IntendedMiddleware[0].only == [Index];
    assert IntendedMiddleware[1].only == [Store, Update, Destroy];
    assert Holds(IntendedMiddleware[0], roles) <==> Reviewer in roles || Admin in roles;
    assert Holds(IntendedMiddleware[1], roles) <==> Admin in roles;
    PassesStack(IntendedMiddleware, roles, action)
  }

  /** The actions that change the user store. */
  predicate Writes(action: Action)
  {
    action in {Store, Update, Destroy}
  }

  /** Every action that writes is open to administrators only. */
  lemma WritersAreAdmins(roles: set<RoleName>, action: Action)
    requires Writes(action) && RoleGate(roles, action)
    ensures Admin in roles
  {
  }

  /** A reviewer without the administrator role reaches only the actions no entry names. */
  lemma ReviewerAlone(action: Action)
    ensures RoleGate({Reviewer}, action) <==> action in {Show, UserAuthenticated}
  {
  }
}
