/**
 * The users controller over a mutable user store: each handler inserts,
 * overwrites fields of, or deletes a stored user step by step, and is proved to
 * leave the store and answer as the matching function of Handlers.dfy says.
 */
module Controller {
  import opened Optional
  import opened Access
  import opened Validation
  import opened Handlers

  class UserController {
    /** The framework's email check, password policy and default messages. */
    const lib: Library

    /** The users table, keyed by id. */
    var users: map<UserId, User>
    /** The table's auto-increment counter. */
    var nextId: UserId
    /** The salts `Hash::make` has drawn so far. */
    var nextSalt: nat

    function State(): Db
      reads this
    {
      Db(users, nextId, nextSalt)
    }

    ghost predicate Valid()
      reads this
    {
      State().Valid()
    }

    /** An empty users table. */
    constructor (lib: Library)
      ensures Valid() && this.lib == lib
      ensures users == map[] && nextId == 1
    {
      this.lib := lib;
      users := map[];
      nextId := 1;
      nextSalt := 0;
    }

    /** `index`: every stored user. */
    method Index() returns (out: Outcome)
      requires Valid()
      ensures out == IndexOutcome(State())
    {
      var listed := map id | id in users :: Listed(users[id].name, users[id].email);
      out := Ok(200, Users(listed));
    }

    /** `show`: the user with its roles, or none. */
    method Show(id: UserId) returns (out: Outcome)
      requires Valid()
      ensures out == ShowOutcome(State(), id)
    {
      var found: Option<Detailed> := None;
      if id in users {
        var u := users[id];
        found := Some(Detailed(id, u.name, u.email, u.roles));
      }
      out := Ok(200, OneUser(found));
    }

    /** `userAuthenticated`: the caller's own record with its roles. */
    method UserAuthenticated(caller: Caller) returns (out: Outcome)
      requires Valid()
      ensures out == ShowOutcome(State(), caller.id)
    {
      out := Show(caller.id);
    }

    /** `store`: insert the user, then assign its role (an unknown role fails after the insert, a "0" is skipped). */
    method Store(input: Input) returns (out: Outcome)
      requires Valid()
      modifies this
      ensures Valid()
      ensures Reply(out, State()) == StoreStep(lib, old(State()), input)
    {
      var emails := Emails(users);
      var errs := StoreErrors(lib, emails, input);
      if errs != map[] {
        out := Invalid(errs);
        return;
      }
      StoreAccepted(lib, emails, input);
      NotInEmails(users, input.email.s);
      // User::create
      var id := nextId;
      var user := User(input.name.s, input.email.s, Hashed(input.password.s, nextSalt), {});
      PutValid(State(), id, user, id + 1, nextSalt + 1);
      users := users[id := user];
      nextId := nextId + 1;
      nextSalt := nextSalt + 1;
      // assignRole: an empty() role is skipped, an unknown one throws
      var lookup := LookupRole(input.role);
      if lookup.Unknown? {
        out := Failure;
        return;
      }
      var roles: set<RoleName> := {};
      if lookup.Found? {
        roles := {lookup.role};
      }
      PutValid(State(), id, user.(roles := roles), nextId, nextSalt);
      users := users[id := user.(roles := roles)];
      out := Ok(201, Message("Usuario creado exitosamente"));
    }

    /** `update`: overwrite name and email, rehash a supplied password, save, then sync the role. */
    method Update(id: UserId, input: Input) returns (out: Outcome)
      requires Valid()
      modifies this
      ensures Valid()
      ensures Reply(out, State()) == UpdateStep(lib, old(State()), id, input)
    {
      var emails := Emails(users);
      var errs := UpdateErrors(lib, emails, input);
      if errs != map[] {
        out := Invalid(errs);
        return;
      }
      UpdateAccepted(lib, emails, input);
      NotInEmails(users, input.email.s);
      // User::find gives null: assigning a property of null is an error
      if id !in users {
        out := Failure;
        return;
      }
      var user := users[id];
      user := user.(name := input.name.s);
      user := user.(email := input.email.s);
      if Supplied(input.password) {
        user := user.(password := Hashed(input.password.s, nextSalt));
        nextSalt := nextSalt + 1;
      }
      // save
      PutValid(old(State()), id, user, nextId, nextSalt);
      users := users[id := user];
      // syncRoles: an unknown role throws before the old roles are detached
      var lookup := LookupRole(input.role);
      if lookup.Unknown? {
        out := Failure;
        return;
      }
      var roles: set<RoleName> := {};
      if lookup.Found? {
        roles := {lookup.role};
      }
      PutValid(State(), id, user.(roles := roles), nextId, nextSalt);
      users := users[id := user.(roles := roles)];
      out := Ok(200, Message("Usuario actualizado exitosamente"));
    }

    /** `destroy`: delete the user (a missing one is an error). */
    method Destroy(id: UserId) returns (out: Outcome)
      requires Valid()
      modifies this
      ensures Valid()
      ensures Reply(out, State()) == DestroyStep(old(State()), id)
    {
      if id !in users {
        out := Failure;
        return;
      }
      users := users - {id};
      out := Ok(200, Message("Usuario eliminado exitosamente"));
    }

    /** A request: the authentication gate, the role middleware, then the action. */
    method Handle(caller: Option<Caller>, action: Action, id: UserId, input: Input) returns (out: Outcome)
      requires Valid()
      modifies this
      ensures Valid()
      ensures Reply(out, State()) == Dispatch(lib, old(State()), caller, action, id, input)
    {
      if !Authenticated(caller) {
        return Unauthenticated;
      }
      if !RoleGate(caller.value.roles, action) {
        return Forbidden;
      }
      match action
      case Index => out := Index();
      case UserAuthenticated => out := UserAuthenticated(caller.value);
      case Show => out := Show(id);
      case Store => out := Store(input);
      case Update => out := Update(id, input);
      case Destroy => out := Destroy(id);
    }
  }
}
