/** The client-side form schemas (`registerFormSchema`, `loginFormSchema`),
    as zod checks them: every check of every field runs, and each failure is
    an issue on that field's path. The form library shows the first issue of
    each field. Email syntax is a parameter, independent of the server's. */
module ZodForms {
  import opened Wrappers
  import Joi
  import RequestSchemas

  /** `.email(message)` and `.min(limit, message)` on a string. */
  datatype Check = EmailCheck(message: string) | MinCheck(limit: nat, message: string)

  datatype FormSchema = FormSchema(email: seq<Check>, password: seq<Check>)

  /** What the two inputs of a sign-in form hold. */
  datatype FormInput = FormInput(email: string, password: string)

  datatype Issue = Issue(path: string, message: string)

  const InvalidEmail := "Invalid email address"
  const EmailRequired := "Email is required."
  const PasswordTooShort := "Password must be at least 6 characters."
  const PasswordRequired := "Password is required."

  /** `registerFormSchema`. */
  const RegisterFormSchema := FormSchema(
    [EmailCheck(InvalidEmail), MinCheck(1, EmailRequired)],
    [MinCheck(6, PasswordTooShort), MinCheck(1, PasswordRequired)])

  /** `loginFormSchema`, written out separately in the source. */
  const LoginFormSchema := FormSchema(
    [EmailCheck(InvalidEmail), MinCheck(1, EmailRequired)],
    [MinCheck(6, PasswordTooShort), MinCheck(1, PasswordRequired)])

  predicate Passes(isEmail: string -> bool, c: Check, s: string) {
    match c
    case EmailCheck(_) => isEmail(s)
    case MinCheck(n, _) => |s| >= n
  }

  /** The failed checks of one field, in chain order. */
  function FieldIssues(isEmail: string -> bool, path: string, checks: seq<Check>, s: string): (r: seq<Issue>)
    ensures |r| <= |checks|
    ensures forall k :: 0 <= k < |r| ==> r[k].path == path
    ensures r == [] <==> forall i :: 0 <= i < |checks| ==> Passes(isEmail, checks[i], s)
    ensures forall i :: 0 <= i < |checks| && !Passes(isEmail, checks[i], s) ==> Issue(path, checks[i].message) in r
  {
    if |checks| == 0 then []
    else
      var rest := FieldIssues(isEmail, path, checks[1..], s);
      assert forall i :: 1 <= i < |checks| ==> checks[i] == checks[1..][i - 1];
      (if Passes(isEmail, checks[0], s) then [] else [Issue(path, checks[0].message)]) + rest
  }

  /** `schema.safeParse(input)`'s issues: the email field's, then the
      password field's. */
  function Issues(isEmail: string -> bool, schema: FormSchema, input: FormInput): seq<Issue> {
    FieldIssues(isEmail, "email", schema.email, input.email)
    + FieldIssues(isEmail, "password", schema.password, input.password)
  }

  /** The message shown under a field: its first issue. */
  function Shown(issues: seq<Issue>, path: string): (r: Option<string>)
    ensures r.None? <==> forall k :: 0 <= k < |issues| ==> issues[k].path != path
    ensures r.Some? ==> Issue(path, r.value) in issues
  {
    if |issues| == 0 then None
    else if issues[0].path == path then Some(issues[0].message)
    else Shown(issues[1..], path)
  }

  /** The two schemas impose the same rules on every input. */
  lemma LoginSameAsRegister(isEmail: string -> bool, input: FormInput)
    ensures Issues(isEmail, LoginFormSchema, input) == Issues(isEmail, RegisterFormSchema, input)
  {
  }

  /** A form is accepted exactly when its email is non-empty and well formed
      and its password has at least six characters. */
  lemma FormAccepts(isEmail: string -> bool, input: FormInput)
    ensures Issues(isEmail, RegisterFormSchema, input) == []
        <==> input.email != "" && isEmail(input.email) && |input.password| >= 6
  {
    var s := RegisterFormSchema;
    assert s.email[0] == EmailCheck(InvalidEmail) && s.email[1] == MinCheck(1, EmailRequired);
    assert s.password[0] == MinCheck(6, PasswordTooShort) && s.password[1] == MinCheck(1, PasswordRequired);
  }

  /** The one-character minimum adds nothing: whenever it fails the
      six-character one fails too, before it, so the message shown for the
      password is never "Password is required.". */
  lemma {:induction false} RequiredPasswordNeverShown(isEmail: string -> bool, input: FormInput)
    ensures Issue("password", PasswordRequired) in Issues(isEmail, RegisterFormSchema, input)
        ==> Issue("password", PasswordTooShort) in Issues(isEmail, RegisterFormSchema, input)
    ensures Shown(Issues(isEmail, RegisterFormSchema, input), "password") != Some(PasswordRequired)
  {
    var e := FieldIssues(isEmail, "email", RegisterFormSchema.email, input.email);
    var p := FieldIssues(isEmail, "password", RegisterFormSchema.password, input.password);
    var checks := RegisterFormSchema.password;
    assert checks[1..][1..] == [];
    ShownAfter(e, p, "password");
    if |input.password| < 6 {
      assert p[0] == Issue("password", PasswordTooShort);
    } else {
      assert p == [];
    }
  }

  /** Issues of other fields in front do not change what a field shows. */
  lemma {:induction false} ShownAfter(front: seq<Issue>, back: seq<Issue>, path: string)
    requires forall k :: 0 <= k < |front| ==> front[k].path != path
    ensures Shown(front + back, path) == Shown(back, path)
  {
    if |front| > 0 {
      assert (front + back)[1..] == front[1..] + back;
      ShownAfter(front[1..], back, path);
    } else {
      assert front + back == back;
    }
  }

  /** A form the client accepts is also accepted by the server's registration
      schema, provided every address the client's email check admits is one
      the server's admits. */
  lemma AcceptedFormRegisters(zodEmail: string -> bool, joiEmail: string -> bool, input: FormInput)
    requires forall s :: zodEmail(s) ==> joiEmail(s)
    requires Issues(zodEmail, RegisterFormSchema, input) == []
    ensures Joi.Errors(joiEmail, RequestSchemas.RegisterSchema,
                       RequestSchemas.Pair("email", input.email, "password", input.password)) == []
  {
    FormAccepts(zodEmail, input);
    RequestSchemas.RegisterAccepts(joiEmail, input.email, input.password);
  }

  /** The login form is stricter than the server: a password of one to five
      characters, which the server's login schema accepts, never leaves the
      form. */
  lemma LoginFormStricterThanServer(isEmail: string -> bool, input: FormInput)
    requires input.email != "" && isEmail(input.email) && 1 <= |input.password| < 6
    ensures Issues(isEmail, LoginFormSchema, input) == [Issue("password", PasswordTooShort)]
    ensures Joi.Errors(isEmail, RequestSchemas.LoginSchema,
                       RequestSchemas.Pair("email", input.email, "password", input.password)) == []
  {
    ShortPasswordIssue(isEmail, input);
    RequestSchemas.LoginAccepts(isEmail, input.email, input.password);
  }

  /** A well-formed email with a one-to-five-character password: the one
      issue is the password's length. */
  lemma ShortPasswordIssue(isEmail: string -> bool, input: FormInput)
    requires input.email != "" && isEmail(input.email) && 1 <= |input.password| < 6
    ensures Issues(isEmail, LoginFormSchema, input) == [Issue("password", PasswordTooShort)]
  {
    var s := LoginFormSchema;
    assert s.email[1..][1..] == [] && s.password[1..][1..] == [];
  }
}
