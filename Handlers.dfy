/**
 * What each handler of the users controller does to the user store and answers,
 * as functions of the store before the request. The class in Controller.dfy
 * performs the same steps in place and is proved to agree with these functions.
 */
module Handlers {
  import opened Optional
  import opened Access
  import opened Validation

  type UserId = int

  /**
   * A one-way password hash. `Hash::make` salts every hash afresh; `salt` stands
   * for that randomness, so two hashes of one password are different values.
   */
  datatype Hash = Hashed(secret: string, salt: nat)

  /** A stored user; `roles` is the user's row set in the role pivot. */
  datatype User = User(name: string, email: string, password: Hash, roles: set<RoleName>)

  /** The users table, its auto-increment counter and the salts drawn so far. */
  datatype Db = Db(users: map<UserId, User>, nextId: UserId, nextSalt: nat)
  {
    /** The store's invariant: ids below the counter, fresh salts, catalog roles, at most one role, unique emails. */
    ghost predicate Valid()
    {
      && 0 < nextId
      && (forall id :: id in users ==> 0 < id < nextId)
      && (forall id :: id in users ==> users[id].password.salt < nextSalt)
      && (forall id :: id in users ==> users[id].roles <= Catalog && |users[id].roles| <= 1)
      && UniqueEmails(users)
    }
  }

  ghost predicate UniqueEmails(users: map<UserId, User>)
  {
    forall i, j :: i in users && j in users && users[i].email == users[j].email ==> i == j
  }

  /** The addresses stored, as the `unique:users` rule queries them. */
  function Emails(users: map<UserId, User>): set<string>
  {
    set id | id in users :: users[id].email
  }

  /** Writing user `u` under `id` keeps the invariant when its email is not held by another user. */
  lemma PutValid(db: Db, id: UserId, u: User, nextId: UserId, nextSalt: nat)
    requires db.Valid()
    requires 0 < id < nextId && db.nextId <= nextId && db.nextSalt <= nextSalt
    requires u.password.salt < nextSalt && u.roles <= Catalog && |u.roles| <= 1
    requires forall k :: k in db.users && k != id ==> db.users[k].email != u.email
    ensures Db(db.users[id := u], nextId, nextSalt).Valid()
  {
  }

  /** An email not in `Emails(users)` is held by no user. */
  lemma NotInEmails(users: map<UserId, User>, e: string)
    requires e !in Emails(users)
    ensures forall k :: k in users ==> users[k].email != e
  {
    forall k | k in users ensures users[k].email != e {
      assert users[k].email in Emails(users);
    }
  }

  /** A row of `User::all()`. */
  datatype Listed = Listed(name: string, email: string)

  /** A user loaded `with('roles')`. */
  datatype Detailed = Detailed(id: UserId, name: string, email: string, roles: set<RoleName>)

  datatype Body = Message(text: string) | Users(users: map<UserId, Listed>) | OneUser(user: Option<Detailed>)

  /** What a request gets back; `Failure` is an uncaught error, answered with status 500. */
  datatype Outcome =
    | Unauthenticated
    | Forbidden
    | Invalid(errors: map<Field, string>)
    | Failure
    | Ok(status: int, body: Body)

  datatype Reply = Reply(out: Outcome, db: Db)

  /** PHP's `empty()`: not sent, null, an empty array, or the strings "" and "0". */
  predicate PhpEmpty(v: Value)
  {
    v.Absent? || v.Null? || v.EmptyList? || (v.Text? && (v.s == "" || v.s == "0"))
  }

  /**
   * What Spatie's `assignRole` and `syncRoles` make of the requested role: a
   * value PHP's `empty()` holds for is skipped, a catalog name is found, and any
   * other value is unknown, which throws.
   */
  datatype RoleLookup = Skipped | Found(role: RoleName) | Unknown

  function LookupRole(v: Value): RoleLookup
  {
    if PhpEmpty(v) then Skipped
    else if v.Text? && v.s in Catalog then Found(v.s)
    else Unknown
  }

  /** The role set a lookup that did not throw leaves a user with. */
  function RolesOf(l: RoleLookup): set<RoleName>
  {
    if l.Found? then {l.role} else {}
  }

  /** PHP's truth value of a request field read as a string: neither empty nor "0". */
  predicate Supplied(v: Value)
  {
    v.Text? && v.s != "" && v.s != "0"
  }

  // ---------------------------------------------------------------- reads

  function IndexOutcome(db: Db): (out: Outcome)
    ensures out.Ok? && out.status == 200 && out.body.Users?
    ensures out.body.users.Keys == db.users.Keys
    ensures forall id :: id in db.users ==> out.body.users[id] == Listed(db.users[id].name, db.users[id].email)
  {
    Ok(200, Users(map id | id in db.users :: Listed(db.users[id].name, db.users[id].email)))
  }

  /** `find` on an unknown id gives null, which is answered with 200 and no user. */
  function ShowOutcome(db: Db, id: UserId): (out: Outcome)
    ensures out.Ok? && out.status == 200 && out.body.OneUser?
    ensures out.body.user.None? <==> id !in db.users
    ensures id in db.users ==>
      var u := db.users[id]; out.body.user == Some(Detailed(id, u.name, u.email, u.roles))
  {
    if id in db.users then
      var u := db.users[id];
      Ok(200, OneUser(Some(Detailed(id, u.name, u.email, u.roles))))
    else Ok(200, OneUser(None))
  }

  // ---------------------------------------------------------------- writes

  /** `store`: validate, insert the user with a hashed password, then assign the role. */
  function StoreStep(lib: Library, db: Db, input: Input): (r: Reply)
    requires db.Valid()
    ensures r.db.Valid()
    ensures var errs := StoreErrors(lib, Emails(db.users), input);
      errs != map[] ==> r == Reply(Invalid(errs), db)
    ensures StoreErrors(lib, Emails(db.users), input) == map[] ==>
      var id := db.nextId;
      && id !in db.users
      && r.db.users.Keys == db.users.Keys + {id}
      && (forall k :: k in db.users ==> r.db.users[k] == db.users[k])
      && r.db.nextId == id + 1
      && Text(r.db.users[id].name) == input.name
      && Text(r.db.users[id].email) == input.email
      && Text(r.db.users[id].password.secret) == input.password
      && r.db.users[id].password.salt == db.nextSalt
      && (forall k :: k in db.users ==> db.users[k].password != r.db.users[id].password)
      && (LookupRole(input.role).Found? ==>
            r.db.users[id].roles == {input.role.s} && r.out == Ok(201, Message("Usuario creado exitosamente")))
      && (LookupRole(input.role).Skipped? ==>
            r.db.users[id].roles == {} && r.out == Ok(201, Message("Usuario creado exitosamente")))
      && (LookupRole(input.role).Unknown? ==> r.db.users[id].roles == {} && r.out == Failure)
  {
    var emails := Emails(db.users);
    var errs := StoreErrors(lib, emails, input);
    if errs != map[] then Reply(Invalid(errs), db)
    else
      StoreAccepted(lib, emails, input);
      NotInEmails(db.users, input.email.s);
      var id := db.nextId;
      var user := User(input.name.s, input.email.s, Hashed(input.password.s, db.nextSalt), {});
      PutValid(db, id, user, id + 1, db.nextSalt + 1);
      var inserted := Db(db.users[id := user], id + 1, db.nextSalt + 1);
      var lookup := LookupRole(input.role);
      if lookup.Unknown? then Reply(Failure, inserted)
      else
        var roles := RolesOf(lookup);
        PutValid(inserted, id, user.(roles := roles), id + 1, db.nextSalt + 1);
        Reply(Ok(201, Message("Usuario creado exitosamente")),
              inserted.(users := inserted.users[id := user.(roles := roles)]))
  }

  /**
   * `update`: validate, find the user (a missing one is an error), overwrite
   * name and email, rehash the password only when one is supplied, save, then
   * sync the role set to the requested role alone.
   */
  function UpdateStep(lib: Library, db: Db, id: UserId, input: Input): (r: Reply)
    requires db.Valid()
    ensures r.db.Valid()
    ensures var errs := UpdateErrors(lib, Emails(db.users), input);
      errs != map[] ==> r == Reply(Invalid(errs), db)
    ensures UpdateErrors(lib, Emails(db.users), input) == map[] && id !in db.users ==> r == Reply(Failure, db)
    ensures UpdateErrors(lib, Emails(db.users), input) == map[] && id in db.users ==> r.db.users.Keys == db.users.Keys
    ensures UpdateErrors(lib, Emails(db.users), input) == map[] && id in db.users && id in r.db.users ==>
      var before := db.users[id];
      var after := r.db.users[id];
      && (forall k :: k in db.users && k != id ==> r.db.users[k] == db.users[k])
      && r.db.nextId == db.nextId
      && Text(after.name) == input.name
      && Text(after.email) == input.email
      && (after.password != before.password <==> Supplied(input.password))
      && (Supplied(input.password) ==> Text(after.password.secret) == input.password)
      && (LookupRole(input.role).Found? ==>
            after.roles == {input.role.s} && r.out == Ok(200, Message("Usuario actualizado exitosamente")))
      && (LookupRole(input.role).Skipped? ==>
            after.roles == {} && r.out == Ok(200, Message("Usuario actualizado exitosamente")))
      && (LookupRole(input.role).Unknown? ==> after.roles == before.roles && r.out == Failure)
  {
    var emails := Emails(db.users);
    var errs := UpdateErrors(lib, emails, input);
    if errs != map[] then Reply(Invalid(errs), db)
    else if id !in db.users then Reply(Failure, db)
    else
      UpdateAccepted(lib, emails, input);
      NotInEmails(db.users, input.email.s);
      var user := db.users[id];
      var renamed := user.(name := input.name.s, email := input.email.s);
      var rehashed := if Supplied(input.password) then renamed.(password := Hashed(input.password.s, db.nextSalt)) else renamed;
      var salts := if Supplied(input.password) then db.nextSalt + 1 else db.nextSalt;
      PutValid(db, id, rehashed, db.nextId, salts);
      var saved := Db(db.users[id := rehashed], db.nextId, salts);
      var lookup := LookupRole(input.role);
      if lookup.Unknown? then Reply(Failure, saved)
      else
        var roles := RolesOf(lookup);
        PutValid(saved, id, rehashed.(roles := roles), db.nextId, salts);
        Reply(Ok(200, Message("Usuario actualizado exitosamente")),
              saved.(users := saved.users[id := rehashed.(roles := roles)]))
  }

  /** `destroy`: find the user (a missing one is an error) and delete it. */
  function DestroyStep(db: Db, id: UserId): (r: Reply)
    requires db.Valid()
    ensures r.db.Valid()
    ensures id !in db.users ==> r == Reply(Failure, db)
    ensures id in db.users ==>
      && r.out == Ok(200, Message("Usuario eliminado exitosamente"))
      && r.db.users.Keys == db.users.Keys - {id}
      && (forall k :: k in r.db.users ==> r.db.users[k] == db.users[k])
      && r.db.nextId == db.nextId
  {
    if id !in db.users then Reply(Failure, db)
    else Reply(Ok(200, Message("Usuario eliminado exitosamente")), db.(users := db.users - {id}))
  }

  // ---------------------------------------------------------------- the request pipeline

  /**
   * A request to the users controller: authentication first, then the role
   * middleware, then the action. `id` is the route parameter and `input` the
   * request body; an action ignores what it does not read.
   */
  function Dispatch(lib: Library, db: Db, caller: Option<Caller>, action: Action, id: UserId, input: Input): (r: Reply)
    requires db.Valid()
    ensures r.db.Valid()
    ensures !Authenticated(caller) ==> r == Reply(Unauthenticated, db)
    ensures Authenticated(caller) && !RoleGate(caller.value.roles, action) ==> r == Reply(Forbidden, db)
    ensures !Writes(action) ==> r.db == db
    ensures r.out.Invalid? ==> r.db == db
    ensures r.db != db ==> Authenticated(caller) && Admin in caller.value.roles
    ensures Authenticated(caller) && RoleGate(caller.value.roles, action) ==>
      && (action == Index ==> r == Reply(IndexOutcome(db), db))
      && (action == UserAuthenticated ==> r == Reply(ShowOutcome(db, caller.value.id), db))
      && (action == Show ==> r == Reply(ShowOutcome(db, id), db))
      && (action == Store ==> r == StoreStep(lib, db, input))
      && (action == Update ==> r == UpdateStep(lib, db, id, input))
      && (action == Destroy ==> r == DestroyStep(db, id))
  {
    if !Authenticated(caller) then Reply(Unauthenticated, db)
    else if !RoleGate(caller.value.roles, action) then Reply(Forbidden, db)
    else
      match action
      case Index => Reply(IndexOutcome(db), db)
      case UserAuthenticated => Reply(ShowOutcome(db, caller.value.id), db)
      case Show => Reply(ShowOutcome(db, id), db)
      case Store => StoreStep(lib, db, input)
      case Update => UpdateStep(lib, db, id, input)
      case Destroy => DestroyStep(db, id)
  }

  // ---------------------------------------------------------------- properties across requests

  /** Of two stores with the same email the second is rejected on its email, once the first has inserted a user. */
  lemma SecondStoreSameEmailRejected(lib: Library, db: Db, first: Input, second: Input)
    requires db.Valid()
    requires first.email == second.email
    requires !StoreStep(lib, db, first).out.Invalid?
    ensures var r := StoreStep(lib, StoreStep(lib, db, first).db, second);
      r.out.Invalid? && Email in r.out.errors && r.out.errors[Email] == "El email ya se encuentra en uso"
  {
    var emails := Emails(db.users);
    StoreAccepted(lib, emails, first);
    var next := StoreStep(lib, db, first).db;
    assert next.users[db.nextId].email == first.email.s;
    assert first.email.s in Emails(next.users);
    StoreErrorsByField(lib, Emails(next.users), second, Email);
    var errs := StoreErrors(lib, Emails(next.users), second);
    assert Email in errs && errs[Email] == "El email ya se encuentra en uso";
    assert StoreStep(lib, next, second) == Reply(Invalid(errs), next);
  }

  /** Resubmitting a user's own email on update is rejected: the uniqueness rule does not exclude that user. */
  lemma UpdateOwnEmailRejected(lib: Library, db: Db, id: UserId, input: Input)
    requires db.Valid() && id in db.users
    requires input.email == Text(db.users[id].email)
    requires !Blank(db.users[id].email) && lib.isEmail(db.users[id].email) && |db.users[id].email| <= 100
    ensures var r := UpdateStep(lib, db, id, input);
      r.db == db && r.out.Invalid? && Email in r.out.errors && r.out.errors[Email] == "El email ya se encuentra en uso"
  {
    var emails := Emails(db.users);
    var e := db.users[id].email;
    assert e in emails;
    OwnEmailInUse(lib, emails, input, e);
    var errs := UpdateErrors(lib, emails, input);
    assert Email in errs;
    assert UpdateStep(lib, db, id, input) == Reply(Invalid(errs), db);
  }

  lemma OwnEmailInUse(lib: Library, emails: set<string>, input: Input, e: string)
    requires e in emails && input.email == Text(e)
    requires !Blank(e) && lib.isEmail(e) && |e| <= 100
    ensures Email in UpdateErrors(lib, emails, input)
    ensures UpdateErrors(lib, emails, input)[Email] == "El email ya se encuentra en uso"
  {
    UpdateErrorsByField(lib, emails, input, Email);
  }

  /** After a user is destroyed, showing it answers 200 with no user. */
  lemma DestroyThenShow(db: Db, id: UserId)
    requires db.Valid()
    ensures ShowOutcome(DestroyStep(db, id).db, id) == Ok(200, OneUser(None))
  {
  }

  /**
   * A stored user is listed by `index` and shown with exactly the requested
   * role, except for the role "0", which is skipped and leaves it with none.
   */
  lemma StoreThenRead(lib: Library, db: Db, input: Input)
    requires db.Valid()
    requires StoreStep(lib, db, input).out.Ok?
    ensures var next := StoreStep(lib, db, input).db;
      && IndexOutcome(next).body.users[db.nextId] == Listed(input.name.s, input.email.s)
      && input.role.Text?
      && ShowOutcome(next, db.nextId).body.user.value.roles == (if input.role.s == "0" then {} else {input.role.s})
  {
    StoreAccepted(lib, Emails(db.users), input);
    assert input.role.Text? && !Blank(input.role.s);
    assert input.role.s != "";
  }

  // ---------------------------------------------------------------- worked examples

  const Ana := Input(Text("Ana"), Text("ana@x.com"), Text("Secret123"), Text("Secret123"), Text("reviewer"))

  /** Ana's request passes store validation when her address is valid and unused and her password meets the policy. */
  lemma AnaAccepted(lib: Library, emails: set<string>)
    requires lib.isEmail("ana@x.com") && lib.passwordStrength("Secret123").None?
    requires "ana@x.com" !in emails
    ensures StoreErrors(lib, emails, Ana) == map[]
  {
    assert !Blank("Ana") by { assert "Ana"[0] !in TrimChars; }
    assert !Blank("ana@x.com") by { assert "ana@x.com"[0] !in TrimChars; }
    assert !Blank("Secret123") by { assert "Secret123"[0] !in TrimChars; }
    assert !Blank("reviewer") by { assert "reviewer"[0] !in TrimChars; }
    assert StoreAccepts(lib, emails, Ana);
    StoreAccepted(lib, emails, Ana);
  }

  /** Storing Ana as a reviewer answers 201, and showing her gives her name, email and the reviewer role. */
  lemma StoreAna(lib: Library, db: Db)
    requires db.Valid()
    requires lib.isEmail("ana@x.com") && lib.passwordStrength("Secret123").None?
    requires "ana@x.com" !in Emails(db.users)
    ensures var r := StoreStep(lib, db, Ana);
      && r.out == Ok(201, Message("Usuario creado exitosamente"))
      && ShowOutcome(r.db, db.nextId).body.user == Some(Detailed(db.nextId, "Ana", "ana@x.com", {Reviewer}))
  {
    AnaAccepted(lib, Emails(db.users));
    assert "reviewer" != "0";
    assert LookupRole(Ana.role) == Found(Reviewer);
  }

  /** A store whose email is not an address is rejected on the email, with the email message, and adds nobody. */
  lemma StoreNotAnEmail(lib: Library, db: Db, input: Input)
    requires db.Valid()
    requires input.email == Text("not-an-email") && !lib.isEmail("not-an-email")
    ensures var r := StoreStep(lib, db, input);
      && r.db == db && r.out.Invalid? && Email in r.out.errors
      && r.out.errors[Email] == "El email debe ser un correo electro\U{301}nico va\U{301}lido"
  {
    assert !Blank("not-an-email") by { assert "not-an-email"[0] !in TrimChars; }
    var errs := StoreErrors(lib, Emails(db.users), input);
    StoreErrorsByField(lib, Emails(db.users), input, Email);
    assert Email in errs;
    assert StoreStep(lib, db, input) == Reply(Invalid(errs), db);
  }

  /** A role sent as an empty JSON array is missing to `required`: rejected with the role message, nothing stored. */
  lemma StoreEmptyRoleRejected(lib: Library, db: Db, input: Input)
    requires db.Valid()
    requires input.role == EmptyList
    ensures var r := StoreStep(lib, db, input);
      && r.db == db && r.out.Invalid? && Role in r.out.errors && r.out.errors[Role] == "Debe elegir un rol"
  {
    var errs := StoreErrors(lib, Emails(db.users), input);
    StoreErrorsByField(lib, Emails(db.users), input, Role);
    assert Role in errs;
    assert StoreStep(lib, db, input) == Reply(Invalid(errs), db);
  }

  // ---------------------------------------------------------------- the role "0" as written

  /** Ana's request with the role "0", the one `empty()` string that `required` lets through. */
  const AnaZero := Ana.(role := Text("0"))

  /**
   * `store` as evidently intended: a role that names no catalog role is
   * rejected on `role` with the controller's role message, so a stored user
   * always holds exactly one role.
   */
  function StoreIntended(lib: Library, db: Db, input: Input): (r: Reply)
    requires db.Valid()
    ensures r.db.Valid()
    ensures !LookupRole(input.role).Found? ==> r.db == db && !r.out.Ok?
    ensures r.out.Ok? ==>
      && db.nextId in r.db.users
      && |r.db.users[db.nextId].roles| == 1 && r.db.users[db.nextId].roles <= Catalog
  {
    var errs := StoreErrors(lib, Emails(db.users), input);
    if errs == map[] && !LookupRole(input.role).Found? then Reply(Invalid(map[Role := "Debe elegir un rol"]), db)
    else StoreStep(lib, db, input)
  }

  /**
   * As written, storing Ana with the role "0" answers 201 and leaves her with no
   * role at all, where the intended `store` rejects the request.
   */
  lemma StoreZeroRoleRoleless(lib: Library, db: Db)
    requires db.Valid()
    requires lib.isEmail("ana@x.com") && lib.passwordStrength("Secret123").None?
    requires "ana@x.com" !in Emails(db.users)
    ensures var r := StoreStep(lib, db, AnaZero);
      && r.out == Ok(201, Message("Usuario creado exitosamente"))
      && ShowOutcome(r.db, db.nextId).body.user == Some(Detailed(db.nextId, "Ana", "ana@x.com", {}))
    ensures StoreIntended(lib, db, AnaZero).out.Invalid?
  {
    var emails := Emails(db.users);
    assert !Blank("Ana") by { assert "Ana"[0] !in TrimChars; }
    assert !Blank("ana@x.com") by { assert "ana@x.com"[0] !in TrimChars; }
    assert !Blank("Secret123") by { assert "Secret123"[0] !in TrimChars; }
    assert !Blank("0") by { assert "0"[0] !in TrimChars; }
    assert StoreAccepts(lib, emails, AnaZero);
    StoreAccepted(lib, emails, AnaZero);
    assert LookupRole(AnaZero.role) == Skipped;
  }

  /**
   * `update` as evidently intended: a role that names no catalog role is
   * rejected on `role` before the user is looked up, so an updated user always
   * holds exactly one role.
   */
  function UpdateIntended(lib: Library, db: Db, id: UserId, input: Input): (r: Reply)
    requires db.Valid()
    ensures r.db.Valid()
    ensures !LookupRole(input.role).Found? ==> r.db == db && !r.out.Ok?
    ensures r.out.Ok? ==>
      && id in r.db.users
      && |r.db.users[id].roles| == 1 && r.db.users[id].roles <= Catalog
  {
    var errs := UpdateErrors(lib, Emails(db.users), input);
    if errs == map[] && !LookupRole(input.role).Found? then Reply(Invalid(map[Role := "Debe elegir un rol"]), db)
    else UpdateStep(lib, db, id, input)
  }

  /**
   * As written, updating a user with the role "0" answers 200 and detaches
   * every role, where the intended `update` rejects the request.
   */
  lemma UpdateZeroRoleRoleless(lib: Library, db: Db, id: UserId, input: Input)
    requires db.Valid() && id in db.users
    requires input.role == Text("0")
    requires UpdateErrors(lib, Emails(db.users), input) == map[]
    ensures var r := UpdateStep(lib, db, id, input);
      && r.out == Ok(200, Message("Usuario actualizado exitosamente"))
      && ShowOutcome(r.db, id).body.user.value.roles == {}
    ensures UpdateIntended(lib, db, id, input).out.Invalid?
  {
    assert LookupRole(input.role) == Skipped;
  }

  // ---------------------------------------------------------------- the role stack as written

  lemma BothRolesAreTwo(roles: set<RoleName>)
    ensures Reviewer in roles && Admin in roles ==> |roles| >= 2
  {
    if Reviewer in roles && Admin in roles {
      var rest := roles - {Reviewer};
      assert roles == rest + {Reviewer} && Reviewer !in rest;
      assert Admin in rest;
      assert |roles| == |rest| + 1;
    }
  }

  /**
   * `index` needs both roles, and a stored user holds at most one: no stored
   * user can list users, though the intended gate opens `index` to either role.
   */
  lemma NoStoredUserLists(db: Db, id: UserId)
    requires db.Valid() && id in db.users
    ensures !RoleGate(db.users[id].roles, Index)
    ensures db.users[id].roles != {} ==> IntendedGate(db.users[id].roles, Index)
  {
    var roles := db.users[id].roles;
    BothRolesAreTwo(roles);
    if roles != {} {
      var r :| r in roles;
      assert r in Catalog;
    }
  }

  // ---------------------------------------------------------------- the password rule as written

  /**
   * The class the rule lists of `store` and `update` name as `Rules\Password`: the
   * controller imports no `Rules` namespace, so PHP resolves the name inside the
   * controller's own namespace.
   */
  const PasswordRuleClass := "App\\Http\\Controllers\\Rules\\Password"

  /**
   * `store` as written, given the classes the autoloader can load: the rule array
   * is built before validation, so when the password rule's class cannot be
   * loaded the request ends in an error and nothing is stored.
   */
  function StoreAsWritten(lib: Library, db: Db, input: Input, loadable: set<string>): (r: Reply)
    requires db.Valid()
    ensures PasswordRuleClass !in loadable ==> r == Reply(Failure, db)
    ensures PasswordRuleClass in loadable ==> r == StoreStep(lib, db, input)
  {
    if PasswordRuleClass in loadable then StoreStep(lib, db, input) else Reply(Failure, db)
  }

  /** `update` as written, likewise. */
  function UpdateAsWritten(lib: Library, db: Db, id: UserId, input: Input, loadable: set<string>): (r: Reply)
    requires db.Valid()
    ensures PasswordRuleClass !in loadable ==> r == Reply(Failure, db)
    ensures PasswordRuleClass in loadable ==> r == UpdateStep(lib, db, id, input)
  {
    if PasswordRuleClass in loadable then UpdateStep(lib, db, id, input) else Reply(Failure, db)
  }

  /** Without that class, Ana's request, which the intended rule accepts, fails and stores nobody. */
  lemma AnaFailsAsWritten(lib: Library, db: Db, loadable: set<string>)
    requires db.Valid()
    requires lib.isEmail("ana@x.com") && lib.passwordStrength("Secret123").None?
    requires "ana@x.com" !in Emails(db.users)
    requires PasswordRuleClass !in loadable
    ensures StoreAsWritten(lib, db, Ana, loadable) == Reply(Failure, db)
    ensures StoreStep(lib, db, Ana).out == Ok(201, Message("Usuario creado exitosamente"))
  {
    StoreAna(lib, db);
  }
}
