# Users API of balde-api, modelled in Dafny

This project models the user-account part of a Laravel API. That part is the `UserController` with its six actions, the validation tables of `store` and `update`, the role middleware the controller declares, and the route group in `routes/api.php` that puts the users resource behind `auth:sanctum`.

The files:

- `Optional.dfy` holds the `Option` type.
- `Access.dfy` holds the role catalog (`admin` and `reviewer`, the names the seeder creates), the controller's actions and the two gates a request meets. The route-level authentication comes first. The controller's stacked `role:<name>` middleware comes second; each entry applies only to the actions in its `only` list.
- `Validation.dfy` holds the two rule tables and the two message tables exactly as declared. The accented letters of the messages are written as the source writes them, a base letter followed by a combining mark (`o` then U+0301, `n` then U+0303), not as single precomposed characters. `Errors` interprets them generically: for each field, the message of the first failing rule. Reference functions (`NameError`, `EmailError`, …) give the same result case by case, and lemmas prove that the two agree. Other lemmas characterise exactly the requests that pass.
- `Handlers.dfy` holds the user store (`Db`: users by id, the auto-increment counter, and the salts drawn by `Hash::make`) and its invariant. It also holds one function per action, giving the answer and the new store as functions of the old store, and the request pipeline `Dispatch`. Lemmas relate several requests to one another.
- `Controller.dfy` holds the class `UserController`. Its fields are the users table and the counters. Its methods insert, overwrite field by field (`name`, `email`, the password only when one is supplied), delete, and sync roles in place. Each method is proved to end in the state and answer that the matching `Handlers` function gives, and to keep the invariant.
- `Routes.dfy` holds the resource registration (`Route::resource(...)->except(['create','edit'])` inside a `Route::group` with `auth:sanctum`) and the router's first-match lookup. It also defines a request's whole path from verb and URI to the controller.

Several things outside the model become parameters (`Validation.Library`):

- the framework's checks: the `email` rule, the `Password::defaults()` policy and its messages, and the default translation of a rule's message;
- the caller that authentication resolves;
- the randomness of hashing.

## Model

| member | source | states |
|---|---|---|
| Access.PassesStack | app/Http/Controllers/UserController.php:11-14 | a stack of role middleware lets an action through exactly when, for every entry whose `only` list names the action, the caller holds one of the entry's `|`-separated roles |
| Access.RoleGate | app/Http/Controllers/UserController.php:11-14 | `index` needs both `reviewer` and `admin`; `store`, `update` and `destroy` need `admin`; `show` and `userAuthenticated` are named by no entry and always pass |
| Access.IntendedGate | app/Http/Controllers/UserController.php:11-14 | the table with `role:reviewer\|admin` on `index`: `index` needs `reviewer` or `admin`, the writers need `admin`, and `show` and `userAuthenticated` always pass |
| Access.WritersAreAdmins | app/Http/Controllers/UserController.php:11-14 | every action that writes is reached only by a caller holding `admin` |
| Access.ReviewerAlone | app/Http/Controllers/UserController.php:11-14 | a caller whose only role is `reviewer` reaches exactly `show` and `userAuthenticated`; it does not reach even `index` |
| Validation.FirstFailureSpec | app/Http/Controllers/UserController.php:57-61 | a field has no message exactly when none of its rules fails; otherwise the message is that of the first failing rule in declaration order |
| Validation.ErrorsAt | app/Http/Controllers/UserController.php:57-77 | the error map holds a field exactly when at least one of its rules fails, and its message is that of the first failing rule in declaration order |
| Validation.NameRules | app/Http/Controllers/UserController.php:58 | `required`, `string`, `max:100` with the name messages give "obligatorio" for a missing or blank name, "cadena" for a non-string and "no debe superar" for more than 100 characters |
| Validation.EmailRules | app/Http/Controllers/UserController.php:59 | `required`, `string`, `email`, `max:100`, `unique` with the email messages report missing, non-string, invalid, too long and already stored addresses, in that order |
| Validation.RoleRules | app/Http/Controllers/UserController.php:61 | `role` fails exactly when it is missing, null, a blank string or an empty JSON array or object, with "Debe elegir un rol" |
| Validation.StorePasswordRules | app/Http/Controllers/UserController.php:60 | on store a missing password is "obligatoria"; one that differs from its confirmation is "no coinciden"; otherwise the policy decides, with its own message |
| Validation.UpdatePasswordRules | app/Http/Controllers/UserController.php:102 | on update a password that was not sent, or is blank, is not checked; otherwise it must equal its confirmation and meet the policy |
| Validation.MessageTables | app/Http/Controllers/UserController.php:62-118 | the custom messages of store and update agree entry by entry, including the confirmation message; store has a message for a missing password and update has none; neither declares one for the password policy, whose own message is used |
| Validation.StoreErrorsByField | app/Http/Controllers/UserController.php:57-77 | store validation reports a field exactly when its case-by-case check fails, with that check's message |
| Validation.UpdateErrorsByField | app/Http/Controllers/UserController.php:99-118 | update validation reports a field exactly when its case-by-case check fails, with that check's message |
| Validation.NameAccepted | app/Http/Controllers/UserController.php:58 | a name passes exactly when it is a non-blank string of at most 100 characters |
| Validation.EmailAccepted | app/Http/Controllers/UserController.php:59 | an email passes exactly when it is a non-blank valid address of at most 100 characters that no stored user has |
| Validation.StorePasswordAccepted | app/Http/Controllers/UserController.php:60 | a store password passes exactly when it is a non-blank string equal to its confirmation that meets the policy |
| Validation.UpdatePasswordAccepted | app/Http/Controllers/UserController.php:102 | an update password passes exactly when it was not sent, is blank, or passes as on store |
| Validation.StoreAccepted | app/Http/Controllers/UserController.php:57-77 | store validation reports no error exactly when name, email, password and role all pass |
| Validation.UpdateAccepted | app/Http/Controllers/UserController.php:99-118 | update validation reports no error exactly when name, email, password and role all pass |
| Validation.UpdatePasswordOptional | app/Http/Controllers/UserController.php:102 | on update, a password that was not sent is never an error, whatever the confirmation |
| Validation.UpdateNullPasswordRejected | app/Http/Controllers/UserController.php:102 | on update, a password field sent empty (null after the framework's input middleware) is rejected by the password rule's string check |
| Handlers.IndexOutcome | app/Http/Controllers/UserController.php:21-25 | `index` answers 200 with every stored user, by id, with its name and email |
| Handlers.ShowOutcome | app/Http/Controllers/UserController.php:43-47 | `show` answers 200 with the user and its roles, or with no user when the id is unknown |
| Handlers.StoreStep | app/Http/Controllers/UserController.php:55-88 | a rejected request answers with the errors and changes nothing. An accepted one adds exactly one user under a fresh id, with the requested name and email, a hash of the supplied password with a fresh salt (equal to no stored hash), and leaves every other user as it was. A catalog role makes the roles exactly that role and answers 201 "Usuario creado exitosamente"; the role "0", which PHP's `empty()` holds for and the role package skips, answers 201 with no role; any other role ends in an error after the insert, with no role. The store invariant (unique emails, catalog roles, at most one role per user) is kept |
| Handlers.UpdateStep | app/Http/Controllers/UserController.php:97-133 | a rejected request changes nothing, and an unknown id ends in an error with nothing changed. Otherwise name and email are overwritten, and the hash changes exactly when a password is supplied (not empty and not "0"), to a hash of that password. A catalog role replaces the roles by exactly that role and answers 200 "Usuario actualizado exitosamente"; the role "0" detaches every role and answers 200; any other role ends in an error after the save, with the roles left. Other users and the ids are unchanged and the invariant is kept |
| Handlers.DestroyStep | app/Http/Controllers/UserController.php:141-146 | an unknown id ends in an error with nothing changed; otherwise exactly that user is removed, the others are untouched, and the answer is 200 "Usuario eliminado exitosamente" |
| Handlers.Dispatch | app/Http/Controllers/UserController.php:11-14 | a request without a caller is refused, and one failing the role gate is forbidden, both before any validation and with nothing changed. Reads and rejected requests change nothing, and the store changes only for a caller holding `admin`. A request that passes both gates runs exactly the named action's step: `index`, `show` and `userAuthenticated` read, `store`, `update` and `destroy` answer as their step functions say |
| Handlers.SecondStoreSameEmailRejected | app/Http/Controllers/UserController.php:59 | after one store has inserted a user, a second store with the same email is rejected on the email with "El email ya se encuentra en uso" |
| Handlers.OwnEmailInUse | app/Http/Controllers/UserController.php:101 | the update uniqueness rule counts the record being updated |
| Handlers.UpdateOwnEmailRejected | app/Http/Controllers/UserController.php:101 | resubmitting a user's own email on update is rejected as already in use, and nothing changes |
| Handlers.DestroyThenShow | app/Http/Controllers/UserController.php:141-146 | after `destroy`, `show` of that id answers 200 with no user |
| Handlers.StoreThenRead | app/Http/Controllers/UserController.php:79-87 | a stored user is listed by `index` with its name and email, and is shown with exactly the requested role, or with none when the role was "0" |
| Handlers.AnaAccepted | app/Http/Controllers/UserController.php:57-77 | Ana's request passes store validation when her address is valid and unused and her password meets the policy |
| Handlers.StoreAna | app/Http/Controllers/UserController.php:79-87 | storing Ana as a reviewer answers 201, and she is then shown with her name, email and the `reviewer` role |
| Handlers.StoreNotAnEmail | app/Http/Controllers/UserController.php:69 | a store whose email is "not-an-email" is rejected on the email with "El email debe ser un correo electrónico válido" (accents as combining marks) and adds nobody |
| Handlers.StoreAsWritten | app/Http/Controllers/UserController.php:60 | as written, when the password rule's class cannot be loaded, `store` ends in an error with nothing changed |
| Handlers.UpdateAsWritten | app/Http/Controllers/UserController.php:102 | as written, when the password rule's class cannot be loaded, `update` ends in an error with nothing changed |
| Handlers.AnaFailsAsWritten | app/Http/Controllers/UserController.php:60 | Ana's request, which the intended rule accepts, fails as written and stores nobody |
| Handlers.StoreEmptyRoleRejected | app/Http/Controllers/UserController.php:61 | a store whose role is an empty JSON array is rejected on `role` with "Debe elegir un rol" and adds nobody |
| Handlers.StoreIntended | app/Http/Controllers/UserController.php:85 | the intended store rejects a role that is no catalog name and changes nothing; every store it answers with success leaves the new user with exactly one catalog role |
| Handlers.StoreZeroRoleRoleless | app/Http/Controllers/UserController.php:79-87 | Ana's request with the role "0" answers 201 as written and shows her with no role, while the intended store rejects it |
| Handlers.UpdateZeroRoleRoleless | app/Http/Controllers/UserController.php:120-132 | an accepted update with the role "0" answers 200 as written and leaves the user with no role, while the intended update rejects it |
| Handlers.UpdateIntended | app/Http/Controllers/UserController.php:130 | the intended update rejects a role that is no catalog name and changes nothing; every update it answers with success leaves the user with exactly one catalog role |
| Handlers.NoStoredUserLists | app/Http/Controllers/UserController.php:11-14 | no stored user passes the `index` gate as written, because it needs two roles and a user holds at most one; the intended gate lets every user holding a role list |
| Controller.UserController.constructor | app/Http/Controllers/UserController.php:9 | an empty users table, with the invariant |
| Controller.UserController.Index | app/Http/Controllers/UserController.php:21-25 | answers as `IndexOutcome` of the current table and changes nothing |
| Controller.UserController.Show | app/Http/Controllers/UserController.php:43-47 | answers as `ShowOutcome` of the current table and changes nothing |
| Controller.UserController.UserAuthenticated | app/Http/Controllers/UserController.php:32-35 | answers with the caller's own record and roles, as `show` of the caller's id would |
| Controller.UserController.Store | app/Http/Controllers/UserController.php:55-88 | the in-place insert and role assignment end in the answer and the table `StoreStep` gives, and keep the invariant |
| Controller.UserController.Update | app/Http/Controllers/UserController.php:97-133 | the field-by-field overwrite, conditional rehash, save and role sync end in the answer and the table `UpdateStep` gives, and keep the invariant |
| Controller.UserController.Destroy | app/Http/Controllers/UserController.php:141-146 | the in-place delete ends in the answer and the table `DestroyStep` gives, and keeps the invariant |
| Controller.UserController.Handle | app/Http/Controllers/UserController.php:11-14 | a request, through the gates and the action, ends as `Dispatch` says |
| Routes.ResourceRoutesOfSpec | routes/api.php:7 | a resource registration holds the route of each action it lists and does not exclude, and no other route |
| Routes.GroupSpec | routes/api.php:6 | a middleware group keeps its routes and their order, and puts its middleware first on each |
| Routes.FirstMatch | routes/api.php:6-8 | finds the first route, in registration order, that matches the verb and path, or says that none does |
| Routes.Resolve | routes/api.php:6-8 | the router's answer is a matching route with no matching route before it, or none exactly when no route matches |
| Routes.ApiRouteTable | routes/api.php:6-8 | the registration yields five routes, in this order: `GET/HEAD users` → index, `POST users` → store, `GET/HEAD users/{user}` → show, `PUT/PATCH users/{user}` → update, `DELETE users/{user}` → destroy, each with `auth:sanctum` alone |
| Routes.RoutedMethods | routes/api.php:7 | the routed methods are exactly index, store, show, update and destroy of the users controller |
| Routes.Unrouted | routes/api.php:6-8 | `create`, `edit`, `userAuthenticated` and the roles controller have no route, and every route names an action the controller has |
| Routes.AllAuthenticated | routes/api.php:6 | every route carries `auth:sanctum` |
| Routes.Numeral | routes/api.php:7 | the decimal writing of an id is a non-empty string of digits |
| Routes.IdOf | routes/api.php:7 | the `{user}` parameter a numeral selects; any other text selects no row |
| Routes.DecimalOfNumeral | routes/api.php:7 | reading the decimal writing of a number gives the number back |
| Routes.IdRoundTrip | routes/api.php:7 | the id written into a URI is the id the route parameter selects |
| Routes.HandlerFor | routes/api.php:7 | only a route naming the users controller reaches one of its actions |
| Routes.TargetOf | routes/api.php:6-8 | a request with no matching route reaches nothing; any other reaches a controller action behind `auth:sanctum`, and never `userAuthenticated` |
| Routes.Request | routes/api.php:6-8 | an unmatched request gets no handler; an unauthenticated one that matches is refused with nothing changed; the store changes only for an `admin` caller and keeps its invariant |
| Routes.CreatePathIsShow | routes/api.php:7 | `GET users/create` is taken by `show`, with `create` as the user parameter |
| Routes.CreatePathTarget | routes/api.php:7 | `GET users/create` reaches `show` of an id no user has |
| Routes.CreatePathShowsNobody | routes/api.php:7 | `GET users/create` answers 200 with no user to any authenticated caller and changes nothing |
| Routes.EditPathUnrouted | routes/api.php:7 | `GET users/{id}/edit` matches no route |
| Routes.DeletePathIsDestroy | routes/api.php:7 | `DELETE users/n` reaches `destroy` of user `n`, behind `auth:sanctum` |

## Left out

- Hashing, the email-syntax check, the `Password::defaults()` policy and the framework's default messages are parameters, not implementations. A hash is a value `Hashed(secret, salt)` whose salt the store draws afresh, never the plain text.
- Authentication mechanics: Sanctum's session and token resolution become the optional caller of a request.
- How the framework reads the `$middleware` property: the base `Controller` class is not part of this model. The model assumes a base class that takes each entry as `role:<names> => ['only' => actions]` and runs the entries in order. The stock `Illuminate\Routing\Controller` reads `middleware` and `options` keys, which these entries lack, so under it every request to the controller would end in an error. A base class that ignores the property would apply no role gate at all.
- Validation.Errors: keeps only the first failing rule's message per field. Laravel without `bail` goes on to collect the messages of later rules of the same field.
- Request fields are taken after the framework's global input middleware, which trims strings (passwords excepted) and turns empty strings into null. An empty JSON array or object is its own case, which `required` rejects. Non-empty arrays, numbers and booleans are one opaque case, which `required` accepts and which is never a string.
- The `api` URI prefix and the `api` middleware group are added by the application's route service provider, which is not part of this model; paths here start at `users`.
- Routes.Resolve: URLs arrive already split into segments; percent-decoding, trailing slashes and the `[^/]+` pattern details of parameters are not modelled.
- Routes.IdOf: reads only a plain numeral. The database's lenient conversion of other text (a leading-digit prefix such as `5abc`) is written as selecting no row.
- Routes.ApiRoutes: the singular parameter name `user` is given, not derived from `users` by the framework's inflector.
- The database's case-insensitive collation, both for the `unique` check and for the role package's lookup of a role by name: emails and role names compare as exact strings, so "Admin" is an unknown role here.
- Spatie's role lookup by id or by an array of names: a role is one string looked up by name. A number or boolean role value is treated as an unknown role; the package skips `0` and `false` and looks other numbers up by id.
- Concurrency and transactions, including two concurrent stores racing past the uniqueness check.
- JSON serialisation of responses and the model's hidden attributes; a body is an abstract value.
- The CORS configuration, the database seeder (only its two role names are used), `RoleController` (a plain select) and the `last_name` column, which the controller never reads or writes.
- The controller's namespace: `routes/api.php` names `UserController::class` without a `use` line, so the class name is the global `UserController`. The model assumes the route service provider, which is not part of this model, prefixes `App\Http\Controllers` to controller names, and `Routes.HandlerFor` maps that name to this controller. Without that prefix the framework could not build the controller, and every routed request would end in a server error.
- Spatie's `syncRoles` on update is assumed to look up the new role before it detaches the old ones, so an unknown role fails with the roles unchanged (`Handlers.UpdateStep`). A release that detaches first would leave the user with no role. The package version is not part of this model.
- Handlers.StoreStep, Handlers.UpdateStep, Handlers.Dispatch, the `Controller.UserController` methods and Routes.Request model lines 60 and 102 with `Illuminate\Validation\Rules` imported, as intended. Only `Handlers.StoreAsWritten` and `Handlers.UpdateAsWritten` model the rule class as written (see "## Findings").
- A description of `update` as excluding the edited record from the email uniqueness check disagrees with line 101. The model follows the code: `Handlers.UpdateOwnEmailRejected` shows the own email rejected.

## Findings

| source | as written | input that shows it | evidently intended | confidence | as-written member | corrected member |
|---|---|---|---|---|---|---|
| app/Http/Controllers/UserController.php:60 | the store and update rule lists name `Rules\Password`, but the file imports no `Rules` namespace, so PHP looks for `App\Http\Controllers\Rules\Password`, which does not appear among the application's classes; building the rule array fails before validation runs (line 102 does the same on update, `Handlers.UpdateAsWritten`) | any store request, for example Ana's (`name` "Ana", `email` "ana@x.com", `password` and confirmation "Secret123", `role` "reviewer") | `use Illuminate\Validation\Rules;`, so that the rule is the framework's password rule | medium, not executed | Handlers.AnaFailsAsWritten | Handlers.StoreAna |
| app/Http/Controllers/UserController.php:61 | the only rule on `role` is `required`, which the string "0" passes; the role package skips any role PHP's `empty()` holds for, so `assignRole("0")` (line 85) assigns nothing and the request succeeds (line 130 on update: next row) | Ana's request with `role` "0": 201 and a user with no role | every stored user holds exactly one catalog role, so a role outside the catalog is rejected on `role` | medium, not executed; rests on the role package's skipping of empty roles | Handlers.StoreZeroRoleRoleless | Handlers.StoreIntended |
| app/Http/Controllers/UserController.php:130 | on update, `required` likewise lets "0" through (line 103) and `syncRoles("0")` detaches every role and assigns none, and the request succeeds | an accepted update of any stored user with `role` "0": 200 and the user left with no role | an updated user holds exactly one catalog role, so a role outside the catalog is rejected on `role` | medium, not executed; rests on the role package's skipping of empty roles | Handlers.UpdateZeroRoleRoleless | Handlers.UpdateIntended |
| app/Http/Controllers/UserController.php:12-13 | `index` carries two role entries, `role:reviewer` and `role:admin`, and each must pass, so only a caller holding both roles may list; no stored user holds two roles | any stored user, for example an administrator, asking for `GET users`: 403 | `role:reviewer\|admin` on `index`, so that either role may list | medium, not executed | Handlers.NoStoredUserLists | Access.IntendedGate |

For the password rule the rest of the model uses the intended rule. For the role "0" and the role stack it keeps the behaviour as written, because those requests do reach the handlers: `Handlers.StoreStep`, `Handlers.UpdateStep`, `Handlers.Dispatch` and the `Controller.UserController` methods skip the role "0" and gate `index` on both roles, and `Handlers.StoreIntended`, `Handlers.UpdateIntended` and `Access.IntendedGate` state the intended behaviour beside them.
