/**
 * The validation of the users controller's `store` and `update` requests.
 *
 * The controller declares, per field, an ordered list of rules and a table of
 * custom messages keyed by field and rule. `Errors` interprets those tables the
 * way the framework does: for each field the message of the first failing rule.
 * The `…Error` functions further down say the same thing case by case, and the
 * lemmas `StoreErrorsByField` and `UpdateErrorsByField` prove the two agree.
 */
module Validation {
  import opened Optional

  /**
   * A request field as the controller sees it, after the framework's global
   * input middleware (surrounding whitespace is trimmed except on password
   * fields, and an empty string becomes null): not sent at all, null, a string,
   * an empty JSON array or object, or some other JSON value (a number, a
   * boolean, a non-empty array), kept as its text.
   */
  datatype Value = Absent | Null | Text(s: string) | EmptyList | Other(json: string)

  /** The request body fields the two handlers read (`last_name` is never read). */
  datatype Input = Input(name: Value, email: Value, password: Value, passwordConfirmation: Value, role: Value)

  /** The fields that carry rules. */
  datatype Field = Name | Email | Password | Role

  const AllFields: set<Field> := {Name, Email, Password, Role}

  function Get(input: Input, f: Field): Value
  {
    match f
    case Name => input.name
    case Email => input.email
    case Password => input.password
    case Role => input.role
  }

  /** The `<field>_confirmation` field that the `confirmed` rule compares with. */
  function Confirmation(input: Input, f: Field): Value
  {
    if f == Password then input.passwordConfirmation else Absent
  }

  /** The rules the two handlers use: `max:<n>`, `unique:users` and `Password::defaults()` included. */
  datatype Rule = Required | IsString | IsEmail | Max(limit: nat) | UniqueInUsers | Confirmed | PasswordDefaults

  /**
   * What the framework decides and this model does not look into: the syntax
   * check of the `email` rule, the strength policy of `Password::defaults()`
   * (None when a string passes, otherwise the policy's message), and the
   * framework's own message for a rule that has no custom message.
   */
  datatype Library = Library(
    isEmail: string -> bool,
    passwordStrength: string -> Option<string>,
    translation: (Field, Rule) -> string)

  /** The characters PHP's `trim` removes. */
  const TrimChars: set<char> := {' ', '\t', '\n', '\r', '\0', '\U{B}'}

  predicate Blank(s: string)
  {
    forall i :: 0 <= i < |s| ==> s[i] in TrimChars
  }

  /** The `required` rule: the value is there and is not null, a blank string or an empty array. */
  predicate Filled(v: Value)
  {
    v.Other? || (v.Text? && !Blank(v.s))
  }

  /**
   * A rule other than `required` is skipped when its field was not sent or is a
   * blank string; it does run on a field sent as null.
   */
  predicate Validatable(r: Rule, v: Value)
  {
    r.Required? || (!v.Absent? && !(v.Text? && Blank(v.s)))
  }

  /** The value PHP sees: a field that was not sent reads as null. */
  function AsPhp(v: Value): Value
  {
    if v.Absent? then Null else v
  }

  /** `Password::defaults()`: it requires a string, then applies the strength policy. */
  function PasswordCheck(lib: Library, v: Value): Option<string>
  {
    if v.Text? then lib.passwordStrength(v.s) else Some(lib.translation(Password, IsString))
  }

  /** Whether rule `r` on field `f` fails; `emails` are the addresses already stored. */
  predicate Fails(lib: Library, emails: set<string>, input: Input, f: Field, r: Rule)
  {
    var v := Get(input, f);
    Validatable(r, v) &&
    match r
    case Required => !Filled(v)
    case IsString => !v.Text?
    case IsEmail => !(v.Text? && lib.isEmail(v.s))
    case Max(n) => v.Text? && |v.s| > n
    case UniqueInUsers => v.Text? && v.s in emails
    case Confirmed => AsPhp(v) != AsPhp(Confirmation(input, f))
    case PasswordDefaults => PasswordCheck(lib, v).Some?
  }

  /** Custom messages, keyed by field and rule. */
  type Messages = map<(Field, Rule), string>

  /** The message reported when rule `r` fails on field `f`. */
  function MessageFor(lib: Library, messages: Messages, input: Input, f: Field, r: Rule): string
  {
    if (f, r) in messages then messages[(f, r)]
    else if r.PasswordDefaults? && PasswordCheck(lib, Get(input, f)).Some? then PasswordCheck(lib, Get(input, f)).value
    else lib.translation(f, r)
  }

  /** Rule `r` is the first of `rules` to fail at position `i`. */
  ghost predicate FirstFailingAt(lib: Library, emails: set<string>, input: Input, f: Field, rules: seq<Rule>, i: int)
  {
    0 <= i < |rules| && Fails(lib, emails, input, f, rules[i]) &&
    forall j :: 0 <= j < i ==> !Fails(lib, emails, input, f, rules[j])
  }

  /** The message of the first rule of `rules` that fails on field `f`, if any. */
  function FirstFailure(lib: Library, emails: set<string>, messages: Messages, input: Input, f: Field, rules: seq<Rule>): Option<string>
    decreases |rules|
  {
    if rules == [] then None
    else if Fails(lib, emails, input, f, rules[0]) then Some(MessageFor(lib, messages, input, f, rules[0]))
    else FirstFailure(lib, emails, messages, input, f, rules[1..])
  }

  /** No message exactly when no rule fails; otherwise the message is that of the first failing rule. */
  lemma {:induction false} FirstFailureSpec(lib: Library, emails: set<string>, messages: Messages, input: Input, f: Field, rules: seq<Rule>)
    ensures var m := FirstFailure(lib, emails, messages, input, f, rules);
      && (m.None? <==> forall j :: 0 <= j < |rules| ==> !Fails(lib, emails, input, f, rules[j]))
      && (m.Some? ==> exists i :: FirstFailingAt(lib, emails, input, f, rules, i) && m.value == MessageFor(lib, messages, input, f, rules[i]))
    decreases |rules|
  {
    if rules == [] {
    } else if Fails(lib, emails, input, f, rules[0]) {
      assert FirstFailingAt(lib, emails, input, f, rules, 0);
    } else {
      FirstFailureSpec(lib, emails, messages, input, f, rules[1..]);
      var m := FirstFailure(lib, emails, messages, input, f, rules[1..]);
      assert forall j :: 1 <= j < |rules| ==> rules[j] == rules[1..][j - 1];
      if m.Some? {
        var i :| FirstFailingAt(lib, emails, input, f, rules[1..], i) && m.value == MessageFor(lib, messages, input, f, rules[1..][i]);
        assert FirstFailingAt(lib, emails, input, f, rules, i + 1);
      }
    }
  }

  /** One line of a rule table: a field and its rules in declaration order. */
  datatype FieldRules = FieldRules(field: Field, rules: seq<Rule>)

  /** The rules a table declares for field `f` (none when it names no such field). */
  function RulesOf(table: seq<FieldRules>, f: Field): seq<Rule>
  {
    if table == [] then []
    else if table[0].field == f then table[0].rules
    else RulesOf(table[1..], f)
  }

  /** The validation errors: for each field whose rules fail, the message of the first failing rule. */
  function Errors(lib: Library, emails: set<string>, messages: Messages, table: seq<FieldRules>, input: Input): map<Field, string>
  {
    map f | f in AllFields && FirstFailure(lib, emails, messages, input, f, RulesOf(table, f)).Some? ::
      FirstFailure(lib, emails, messages, input, f, RulesOf(table, f)).value
  }

  // ---------------------------------------------------------------- store

  const StoreRules: seq<FieldRules> := [
    FieldRules(Name, [Required, IsString, Max(100)]),
    FieldRules(Email, [Required, IsString, IsEmail, Max(100), UniqueInUsers]),
    FieldRules(Password, [Required, Confirmed, PasswordDefaults]),
    FieldRules(Role, [Required])
  ]

  const StoreMessages: Messages := map[
    (Name, Required) := "El nombre es obligatorio",
    (Name, IsString) := "El nombre debe ser una cadena de caracteres",
    (Name, Max(100)) := "El nombre no debe superar los 100 caracteres",
    (Email, Required) := "El email es obligatorio",
    (Email, IsString) := "El email debe ser una cadena de caracteres",
    (Email, IsEmail) := "El email debe ser un correo electro\U{301}nico va\U{301}lido",
    (Email, Max(100)) := "El email no debe superar los 100 caracteres",
    (Email, UniqueInUsers) := "El email ya se encuentra en uso",
    (Password, Required) := "La contrasen\U{303}a es obligatoria",
    (Password, Confirmed) := "Las contrasen\U{303}as no coinciden",
    (Role, Required) := "Debe elegir un rol"
  ]

  function StoreErrors(lib: Library, emails: set<string>, input: Input): map<Field, string>
  {
    Errors(lib, emails, StoreMessages, StoreRules, input)
  }

  // ---------------------------------------------------------------- update

  const UpdateRules: seq<FieldRules> := [
    FieldRules(Name, [Required, IsString, Max(100)]),
    FieldRules(Email, [Required, IsString, IsEmail, Max(100), UniqueInUsers]),
    FieldRules(Password, [Confirmed, PasswordDefaults]),
    FieldRules(Role, [Required])
  ]

  const UpdateMessages: Messages := map[
    (Name, Required) := "El nombre es obligatorio",
    (Name, IsString) := "El nombre debe ser una cadena de caracteres",
    (Name, Max(100)) := "El nombre no debe superar los 100 caracteres",
    (Email, Required) := "El email es obligatorio",
    (Email, IsString) := "El email debe ser una cadena de caracteres",
    (Email, IsEmail) := "El email debe ser un correo electro\U{301}nico va\U{301}lido",
    (Email, Max(100)) := "El email no debe superar los 100 caracteres",
    (Email, UniqueInUsers) := "El email ya se encuentra en uso",
    (Password, Confirmed) := "Las contrasen\U{303}as no coinciden",
    (Role, Required) := "Debe elegir un rol"
  ]

  function UpdateErrors(lib: Library, emails: set<string>, input: Input): map<Field, string>
  {
    Errors(lib, emails, UpdateMessages, UpdateRules, input)
  }

  // ---------------------------------------------------------------- field by field

  function NameError(v: Value): Option<string>
  {
    if !Filled(v) then Some("El nombre es obligatorio")
    else if !v.Text? then Some("El nombre debe ser una cadena de caracteres")
    else if |v.s| > 100 then Some("El nombre no debe superar los 100 caracteres")
    else None
  }

  /** `emails` holds every stored address: the record being updated is not excluded. */
  function EmailError(lib: Library, emails: set<string>, v: Value): Option<string>
  {
    if !Filled(v) then Some("El email es obligatorio")
    else if !v.Text? then Some("El email debe ser una cadena de caracteres")
    else if !lib.isEmail(v.s) then Some("El email debe ser un correo electro\U{301}nico va\U{301}lido")
    else if |v.s| > 100 then Some("El email no debe superar los 100 caracteres")
    else if v.s in emails then Some("El email ya se encuentra en uso")
    else None
  }

  /** On store the password is required, must equal its confirmation and must meet the policy. */
  function StorePasswordError(lib: Library, v: Value, confirmation: Value): Option<string>
  {
    if !Filled(v) then Some("La contrasen\U{303}a es obligatoria")
    else if AsPhp(v) != AsPhp(confirmation) then Some("Las contrasen\U{303}as no coinciden")
    else PasswordCheck(lib, v)
  }

  /** On update a password that was not sent, or is blank, is not checked at all. */
  function UpdatePasswordError(lib: Library, v: Value, confirmation: Value): Option<string>
  {
    if v.Absent? || (v.Text? && Blank(v.s)) then None
    else if AsPhp(v) != AsPhp(confirmation) then Some("Las contrasen\U{303}as no coinciden")
    else PasswordCheck(lib, v)
  }

  function RoleError(v: Value): Option<string>
  {
    if !Filled(v) then Some("Debe elegir un rol") else None
  }

  function StoreFieldError(lib: Library, emails: set<string>, input: Input, f: Field): Option<string>
  {
    match f
    case Name => NameError(input.name)
    case Email => EmailError(lib, emails, input.email)
    case Password => StorePasswordError(lib, input.password, input.passwordConfirmation)
    case Role => RoleError(input.role)
  }

  function UpdateFieldError(lib: Library, emails: set<string>, input: Input, f: Field): Option<string>
  {
    match f
    case Name => NameError(input.name)
    case Email => EmailError(lib, emails, input.email)
    case Password => UpdatePasswordError(lib, input.password, input.passwordConfirmation)
    case Role => RoleError(input.role)
  }

  lemma {:induction false} NameRules(lib: Library, emails: set<string>, messages: Messages, input: Input)
    requires (Name, Required) in messages && messages[(Name, Required)] == "El nombre es obligatorio"
    requires (Name, IsString) in messages && messages[(Name, IsString)] == "El nombre debe ser una cadena de caracteres"
    requires (Name, Max(100)) in messages && messages[(Name, Max(100))] == "El nombre no debe superar los 100 caracteres"
    ensures FirstFailure(lib, emails, messages, input, Name, [Required, IsString, Max(100)]) == NameError(input.name)
  {
    var rs := [Required, IsString, Max(100)];
    assert rs[1..] == [IsString, Max(100)];
    assert rs[1..][1..] == [Max(100)];
    assert rs[1..][1..][1..] == [];
  }

  lemma {:induction false} EmailRules(lib: Library, emails: set<string>, messages: Messages, input: Input)
    requires (Email, Required) in messages && messages[(Email, Required)] == "El email es obligatorio"
    requires (Email, IsString) in messages && messages[(Email, IsString)] == "El email debe ser una cadena de caracteres"
    requires (Email, IsEmail) in messages && messages[(Email, IsEmail)] == "El email debe ser un correo electro\U{301}nico va\U{301}lido"
    requires (Email, Max(100)) in messages && messages[(Email, Max(100))] == "El email no debe superar los 100 caracteres"
    requires (Email, UniqueInUsers) in messages && messages[(Email, UniqueInUsers)] == "El email ya se encuentra en uso"
    ensures FirstFailure(lib, emails, messages, input, Email, [Required, IsString, IsEmail, Max(100), UniqueInUsers])
         == EmailError(lib, emails, input.email)
  {
    var e := input.email;
    var ff := (rs: seq<Rule>) => FirstFailure(lib, emails, messages, input, Email, rs);
    assert ff([]) == None;
    assert ff([UniqueInUsers]) == if Fails(lib, emails, input, Email, UniqueInUsers) then Some("El email ya se encuentra en uso") else None by {
      assert [UniqueInUsers][1..] == [];
    }
    assert ff([Max(100), UniqueInUsers]) == if Fails(lib, emails, input, Email, Max(100)) then Some("El email no debe superar los 100 caracteres") else ff([UniqueInUsers]) by {
      assert [Max(100), UniqueInUsers][1..] == [UniqueInUsers];
    }
    assert ff([IsEmail, Max(100), UniqueInUsers]) == if Fails(lib, emails, input, Email, IsEmail) then Some("El email debe ser un correo electro\U{301}nico va\U{301}lido") else ff([Max(100), UniqueInUsers]) by {
      assert [IsEmail, Max(100), UniqueInUsers][1..] == [Max(100), UniqueInUsers];
    }
    assert ff([IsString, IsEmail, Max(100), UniqueInUsers]) == if Fails(lib, emails, input, Email, IsString) then Some("El email debe ser una cadena de caracteres") else ff([IsEmail, Max(100), UniqueInUsers]) by {
      assert [IsString, IsEmail, Max(100), UniqueInUsers][1..] == [IsEmail, Max(100), UniqueInUsers];
    }
    assert [Required, IsString, IsEmail, Max(100), UniqueInUsers][1..] == [IsString, IsEmail, Max(100), UniqueInUsers];
  }

  lemma RoleRules(lib: Library, emails: set<string>, messages: Messages, input: Input)
    requires (Role, Required) in messages && messages[(Role, Required)] == "Debe elegir un rol"
    ensures FirstFailure(lib, emails, messages, input, Role, [Required]) == RoleError(input.role)
  {
    assert [Required][1..] == [];
  }

  lemma StorePasswordRules(lib: Library, emails: set<string>, input: Input)
    ensures FirstFailure(lib, emails, StoreMessages, input, Password, [Required, Confirmed, PasswordDefaults])
         == StorePasswordError(lib, input.password, input.passwordConfirmation)
  {
    var rs := [Required, Confirmed, PasswordDefaults];
    assert rs[1..] == [Confirmed, PasswordDefaults];
    assert rs[1..][1..] == [PasswordDefaults];
    assert rs[1..][1..][1..] == [];
    assert (Password, PasswordDefaults) !in StoreMessages;
  }

  lemma UpdatePasswordRules(lib: Library, emails: set<string>, input: Input)
    ensures FirstFailure(lib, emails, UpdateMessages, input, Password, [Confirmed, PasswordDefaults])
         == UpdatePasswordError(lib, input.password, input.passwordConfirmation)
  {
    var rs := [Confirmed, PasswordDefaults];
    assert rs[1..] == [PasswordDefaults];
    assert rs[1..][1..] == [];
    assert (Password, PasswordDefaults) !in UpdateMessages;
  }

  /** The message table entries of store and update, as the two tables declare them. */
  lemma MessageTables()
    ensures StoreMessages[(Name, Required)] == UpdateMessages[(Name, Required)] == "El nombre es obligatorio"
    ensures StoreMessages[(Name, IsString)] == UpdateMessages[(Name, IsString)] == "El nombre debe ser una cadena de caracteres"
    ensures StoreMessages[(Name, Max(100))] == UpdateMessages[(Name, Max(100))] == "El nombre no debe superar los 100 caracteres"
    ensures StoreMessages[(Email, Required)] == UpdateMessages[(Email, Required)] == "El email es obligatorio"
    ensures StoreMessages[(Email, IsString)] == UpdateMessages[(Email, IsString)] == "El email debe ser una cadena de caracteres"
    ensures StoreMessages[(Email, IsEmail)] == UpdateMessages[(Email, IsEmail)] == "El email debe ser un correo electro\U{301}nico va\U{301}lido"
    ensures StoreMessages[(Email, Max(100))] == UpdateMessages[(Email, Max(100))] == "El email no debe superar los 100 caracteres"
    ensures StoreMessages[(Email, UniqueInUsers)] == UpdateMessages[(Email, UniqueInUsers)] == "El email ya se encuentra en uso"
    ensures StoreMessages[(Password, Confirmed)] == UpdateMessages[(Password, Confirmed)] == "Las contrasen\U{303}as no coinciden"
    ensures StoreMessages[(Role, Required)] == UpdateMessages[(Role, Required)] == "Debe elegir un rol"
    ensures (Password, Required) in StoreMessages && (Password, Required) !in UpdateMessages
    ensures (Password, PasswordDefaults) !in StoreMessages && (Password, PasswordDefaults) !in UpdateMessages
  {
  }

  /**
   * The errors map holds field `f` exactly when one of its rules fails, and then
   * its message is that of the first rule that fails.
   */
  lemma ErrorsAt(lib: Library, emails: set<string>, messages: Messages, table: seq<FieldRules>, input: Input, f: Field)
    ensures var rules := RulesOf(table, f); var errs := Errors(lib, emails, messages, table, input);
      && (f in errs <==> exists j :: 0 <= j < |rules| && Fails(lib, emails, input, f, rules[j]))
      && (forall i :: FirstFailingAt(lib, emails, input, f, rules, i) ==>
            f in errs && errs[f] == MessageFor(lib, messages, input, f, rules[i]))
    ensures var m := FirstFailure(lib, emails, messages, input, f, RulesOf(table, f));
      && (f in Errors(lib, emails, messages, table, input) <==> m.Some?)
      && (f in Errors(lib, emails, messages, table, input) ==> Errors(lib, emails, messages, table, input)[f] == m.value)
  {
    assert f in AllFields by {
      match f { case Name => case Email => case Password => case Role => }
    }
    var rules := RulesOf(table, f);
    FirstFailureSpec(lib, emails, messages, input, f, rules);
    var m := FirstFailure(lib, emails, messages, input, f, rules);
    forall i | FirstFailingAt(lib, emails, input, f, rules, i)
      ensures m.Some? && m.value == MessageFor(lib, messages, input, f, rules[i])
    {
      assert Fails(lib, emails, input, f, rules[i]);
      var k :| FirstFailingAt(lib, emails, input, f, rules, k) && m.value == MessageFor(lib, messages, input, f, rules[k]);
      assert k == i;
    }
  }

  /** Store validation, field by field: the field is in error exactly when its case-by-case check fails, with that message. */
  lemma StoreErrorsByField(lib: Library, emails: set<string>, input: Input, f: Field)
    ensures f in StoreErrors(lib, emails, input) <==> StoreFieldError(lib, emails, input, f).Some?
    ensures f in StoreErrors(lib, emails, input) ==> StoreErrors(lib, emails, input)[f] == StoreFieldError(lib, emails, input, f).value
  {
    ErrorsAt(lib, emails, StoreMessages, StoreRules, input, f);
    MessageTables();
    match f
    case Name =>
      NameRules(lib, emails, StoreMessages, input);
    case Email =>
      assert RulesOf(StoreRules, Email) == [Required, IsString, IsEmail, Max(100), UniqueInUsers];
      EmailRules(lib, emails, StoreMessages, input);
    case Password =>
      assert RulesOf(StoreRules, Password) == [Required, Confirmed, PasswordDefaults];
      StorePasswordRules(lib, emails, input);
    case Role =>
      assert RulesOf(StoreRules, Role) == [Required];
      RoleRules(lib, emails, StoreMessages, input);
  }

  /** Update validation, field by field. */
  lemma UpdateErrorsByField(lib: Library, emails: set<string>, input: Input, f: Field)
    ensures f in UpdateErrors(lib, emails, input) <==> UpdateFieldError(lib, emails, input, f).Some?
    ensures f in UpdateErrors(lib, emails, input) ==> UpdateErrors(lib, emails, input)[f] == UpdateFieldError(lib, emails, input, f).value
  {
    ErrorsAt(lib, emails, UpdateMessages, UpdateRules, input, f);
    MessageTables();
    match f
    case Name =>
      NameRules(lib, emails, UpdateMessages, input);
    case Email =>
      assert RulesOf(UpdateRules, Email) == [Required, IsString, IsEmail, Max(100), UniqueInUsers];
      EmailRules(lib, emails, UpdateMessages, input);
    case Password =>
      assert RulesOf(UpdateRules, Password) == [Confirmed, PasswordDefaults];
      UpdatePasswordRules(lib, emails, input);
    case Role =>
      assert RulesOf(UpdateRules, Role) == [Required];
      RoleRules(lib, emails, UpdateMessages, input);
  }

  // ---------------------------------------------------------------- accepted requests

  /** A name that passes: a non-blank string of at most 100 characters. */
  predicate NameOk(v: Value)
  {
    v.Text? && !Blank(v.s) && |v.s| <= 100
  }

  /** An email that passes: a non-blank, syntactically valid string of at most 100 characters not yet stored. */
  predicate EmailOk(lib: Library, emails: set<string>, v: Value)
  {
    v.Text? && !Blank(v.s) && lib.isEmail(v.s) && |v.s| <= 100 && v.s !in emails
  }

  /** A store password that passes: a non-blank string equal to its confirmation and meeting the policy. */
  predicate StorePasswordOk(lib: Library, v: Value, confirmation: Value)
  {
    v.Text? && !Blank(v.s) && confirmation == v && lib.passwordStrength(v.s).None?
  }

  /** An update password that passes: not sent, blank, or as on store. */
  predicate UpdatePasswordOk(lib: Library, v: Value, confirmation: Value)
  {
    v.Absent? || (v.Text? && Blank(v.s)) || StorePasswordOk(lib, v, confirmation)
  }

  lemma NameAccepted(v: Value)
    ensures NameError(v).None? <==> NameOk(v)
  {
  }

  lemma EmailAccepted(lib: Library, emails: set<string>, v: Value)
    ensures EmailError(lib, emails, v).None? <==> EmailOk(lib, emails, v)
  {
  }

  lemma StorePasswordAccepted(lib: Library, v: Value, confirmation: Value)
    ensures StorePasswordError(lib, v, confirmation).None? <==> StorePasswordOk(lib, v, confirmation)
  {
  }

  lemma UpdatePasswordAccepted(lib: Library, v: Value, confirmation: Value)
    ensures UpdatePasswordError(lib, v, confirmation).None? <==> UpdatePasswordOk(lib, v, confirmation)
  {
  }

  /** A store request that passes validation, field by field. */
  predicate StoreAccepts(lib: Library, emails: set<string>, input: Input)
  {
    && NameOk(input.name)
    && EmailOk(lib, emails, input.email)
    && StorePasswordOk(lib, input.password, input.passwordConfirmation)
    && Filled(input.role)
  }

  /** An update request that passes validation, field by field. */
  predicate UpdateAccepts(lib: Library, emails: set<string>, input: Input)
  {
    && NameOk(input.name)
    && EmailOk(lib, emails, input.email)
    && UpdatePasswordOk(lib, input.password, input.passwordConfirmation)
    && Filled(input.role)
  }

  /** Store validation reports no error exactly when every field passes. */
  lemma StoreAccepted(lib: Library, emails: set<string>, input: Input)
    ensures StoreErrors(lib, emails, input) == map[] <==> StoreAccepts(lib, emails, input)
  {
    var errs := StoreErrors(lib, emails, input);
    StoreErrorsByField(lib, emails, input, Name);
    StoreErrorsByField(lib, emails, input, Email);
    StoreErrorsByField(lib, emails, input, Password);
    StoreErrorsByField(lib, emails, input, Role);
    NameAccepted(input.name);
    EmailAccepted(lib, emails, input.email);
    StorePasswordAccepted(lib, input.password, input.passwordConfirmation);
    if StoreAccepts(lib, emails, input) {
      assert errs.Keys == {};
    }
  }

  /** Update validation reports no error exactly when every field passes. */
  lemma UpdateAccepted(lib: Library, emails: set<string>, input: Input)
    ensures UpdateErrors(lib, emails, input) == map[] <==> UpdateAccepts(lib, emails, input)
  {
    var errs := UpdateErrors(lib, emails, input);
    UpdateErrorsByField(lib, emails, input, Name);
    UpdateErrorsByField(lib, emails, input, Email);
    UpdateErrorsByField(lib, emails, input, Password);
    UpdateErrorsByField(lib, emails, input, Role);
    NameAccepted(input.name);
    EmailAccepted(lib, emails, input.email);
    UpdatePasswordAccepted(lib, input.password, input.passwordConfirmation);
    if UpdateAccepts(lib, emails, input) {
      assert errs.Keys == {};
    }
  }

  /** On update a password that was not sent is not an error, whatever the confirmation. */
  lemma UpdatePasswordOptional(lib: Library, emails: set<string>, input: Input)
    requires input.password.Absent?
    ensures Password !in UpdateErrors(lib, emails, input)
  {
    UpdateErrorsByField(lib, emails, input, Password);
  }

  /** A password sent as null (an empty field) is checked on update, and the policy rejects it. */
  lemma UpdateNullPasswordRejected(lib: Library, emails: set<string>, input: Input)
    requires input.password.Null? && AsPhp(input.passwordConfirmation) == Null
    ensures Password in UpdateErrors(lib, emails, input)
    ensures UpdateErrors(lib, emails, input)[Password] == lib.translation(Password, IsString)
  {
    UpdateErrorsByField(lib, emails, input, Password);
  }
}
