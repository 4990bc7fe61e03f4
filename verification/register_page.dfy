/**
 The registration page: it checks that the two passwords match and that the
 password has at least six UTF-16 code units before calling the context's
 `register`, shows the thrown message on failure, and goes home on success.
 */
module RegisterPage {
  import opened JsCore
  import opened Entities
  import opened HttpClient
  import Session

  const PasswordsMismatch: string := "Passwords do not match"
  const PasswordTooShort: string := "Password must be at least 6 characters"
  const MinPasswordLength: nat := 6

  datatype RegisterForm = RegisterForm(username: string, email: string, password: string, confirmPassword: string)

  /** The page state: the form, the error line ("" shows nothing) and the loading flag. */
  datatype RegisterPageState = RegisterPageState(form: RegisterForm, error: string, loading: bool)

  datatype FormField = Username | Email | Password | ConfirmPassword

  /** `handleChange`: update one field and clear the error. */
  function Change(p: RegisterPageState, field: FormField, value: string): (r: RegisterPageState)
    ensures r.error == "" && r.loading == p.loading
    ensures field == Username ==> r.form == p.form.(username := value)
    ensures field == Email ==> r.form == p.form.(email := value)
    ensures field == Password ==> r.form == p.form.(password := value)
    ensures field == ConfirmPassword ==> r.form == p.form.(confirmPassword := value)
  {
    var form := match field
      case Username => p.form.(username := value)
      case Email => p.form.(email := value)
      case Password => p.form.(password := value)
      case ConfirmPassword => p.form.(confirmPassword := value);
    RegisterPageState(form, "", p.loading)
  }

  /** The client-side checks, in order: the mismatch is reported before the length. */
  function Validate(f: RegisterForm): (r: Option<string>)
    ensures r == Some(PasswordsMismatch) <==> f.password != f.confirmPassword
    ensures r == Some(PasswordTooShort) <==>
      f.password == f.confirmPassword && Utf16Length(f.password) < MinPasswordLength
    ensures r.None? <==> f.password == f.confirmPassword && Utf16Length(f.password) >= MinPasswordLength
  {
    if f.password != f.confirmPassword then Some(PasswordsMismatch)
    else if Utf16Length(f.password) < MinPasswordLength then Some(PasswordTooShort)
    else None
  }

  /** A submission: the page afterwards, the arguments passed to `register` (if called), and the navigation. */
  datatype RegisterStep = RegisterStep(page: RegisterPageState, sent: Option<(string, string, string)>, redirect: Option<Route>)

  /** `handleSubmit`; `registered` is how the context's `register` settles. */
  function Submit(p: RegisterPageState, registered: Outcome<User>): (r: RegisterStep)
    ensures !r.page.loading && r.page.form == p.form
    ensures Validate(p.form).Some? ==>
      r.sent.None? && r.redirect.None? && r.page.error == Validate(p.form).value
    ensures Validate(p.form).None? ==>
      r.sent == Some((p.form.username, p.form.email, p.form.password))
    ensures Validate(p.form).None? && registered.Returned? ==>
      r.redirect == Some(HomeRoute) && r.page.error == ""
    ensures Validate(p.form).None? && registered.Threw? ==>
      r.redirect.None? && r.page.error == Or(registered.message, Session.RegistrationFailed)
  {
    match Validate(p.form)
    case Some(message) => RegisterStep(RegisterPageState(p.form, message, false), None, None)
    case None =>
      var sent := Some((p.form.username, p.form.email, p.form.password));
      match registered
      case Returned(_) => RegisterStep(RegisterPageState(p.form, "", false), sent, Some(HomeRoute))
      case Threw(message) =>
        RegisterStep(RegisterPageState(p.form, Or(message, Session.RegistrationFailed), false), sent, None)
  }

  /** The page's own fallback never shows: the context always throws a non-empty message, and the page displays the same text the context stored. */
  lemma PageShowsContextMessage(p: RegisterPageState, st: Session.AuthState, reply: Reply<Session.AuthData>)
    requires Validate(p.form).None? && reply.Failure?
    ensures var ctx := Session.Register(st, reply);
      Submit(p, ctx.outcome).page.error == DetailOrMessageOr(reply.error, Session.RegistrationFailed)
      && Some(Submit(p, ctx.outcome).page.error) == ctx.state.error
  {
  }

  /** A matching password shorter than six characters, none of them outside the Basic Multilingual Plane, is rejected as too short. */
  lemma ShortPasswordNeverSent(f: RegisterForm)
    requires f.password == f.confirmPassword && |f.password| < MinPasswordLength
    requires forall i :: 0 <= i < |f.password| ==> f.password[i] as int < 0x1_0000
    ensures Validate(f) == Some(PasswordTooShort)
  {
    BasicPlaneLength(f.password);
  }

  lemma {:induction false} BasicPlaneLength(s: string)
    requires forall i :: 0 <= i < |s| ==> s[i] as int < 0x1_0000
    ensures Utf16Length(s) == |s|
  {
    if s != [] {
      BasicPlaneLength(s[1..]);
    }
  }
}
