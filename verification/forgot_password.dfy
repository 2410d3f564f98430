/** The password-recovery page (`src/pages/ForgotPassword.js`). Without a
    `token` in the query string it asks for an email address and requests a
    reset link; with one it asks for a new password and submits the reset.
    Modelled here: the mode decision, the connectivity check's effect, the
    per-field edit, both validators, and where each submission goes. */
module ForgotPasswordPage {
  import opened Text
  import opened EmailPattern
  import opened Forms

  /** The `name` attributes of the page's inputs. */
  datatype Field = Email | Password | ConfirmPassword

  /** `formData`. */
  datatype ResetForm = ResetForm(email: string, password: string, confirmPassword: string)
  {
    /** `formData[field]`. */
    function Get(f: Field): string {
      match f
      case Email => email
      case Password => password
      case ConfirmPassword => confirmPassword
    }

    /** `{ ...formData, [field]: v }`: the edited field reads back `v` and
        the others are unchanged. */
    function Set(f: Field, v: string): (r: ResetForm)
      ensures r.Get(f) == v
      ensures forall g :: g != f ==> r.Get(g) == Get(g)
    {
      match f
      case Email => this.(email := v)
      case Password => this.(password := v)
      case ConfirmPassword => this.(confirmPassword := v)
    }
  }

  const InitialForm := ResetForm("", "", "")

  /** `searchParams.get('token')`: `null` when the parameter is absent. */
  datatype QueryValue = Absent | Present(value: string)

  const EmailInvalid := "Please enter a valid email address"
  const NewPasswordRequired := "New password is required"
  const PasswordTooShort := "Password must be at least 6 characters"
  const ConfirmRequired := "Please confirm your password"
  const PasswordsDiffer := "Passwords do not match"

  const MinPasswordLength := 6

  /** The page's state; the query token is fixed for the page's lifetime. */
  datatype PageState = PageState(
    token: QueryValue,
    form: ResetForm,
    errors: map<Field, string>,
    backend: BackendStatus,
    mockMode: bool)

  function InitialState(token: QueryValue): PageState {
    PageState(token, InitialForm, map[], Checking, false)
  }

  /** `isResetMode = !!token`: `null` and the empty string are the falsy
      values `get` can return, so the page resets a password exactly when
      the query carries a non-empty token. */
  function IsResetMode(token: QueryValue): (b: bool)
    ensures token == Absent || token == Present("") ==> !b
    ensures b <==> exists c :: token == Present(c) && c != ""
  {
    token.Present? && token.value != ""
  }

  /** `checkBackendConnection` once the connectivity test has settled: a
      successful test marks the backend connected and leaves the demo switch
      alone; a failed one marks it disconnected and switches demo mode on. */
  function CheckBackendConnection(s: PageState, reachable: bool): (r: PageState)
    ensures reachable ==> r.backend == Connected && r.mockMode == s.mockMode
    ensures !reachable ==> r.backend == Disconnected && r.mockMode
    ensures !reachable ==> UsesMock(r.mockMode, r.backend)
    ensures r.token == s.token && r.form == s.form && r.errors == s.errors
  {
    if reachable then s.(backend := Connected)
    else s.(backend := Disconnected, mockMode := true)
  }

  /** The demo-mode checkbox: the switch takes the box's state. With the box
      ticked every valid submission goes to the demo responder. The page
      shows the box only while the backend is disconnected, and then demo
      routing applies whatever the box says (`DemoSwitchNeverReachesApi`). */
  function SetMockMode(s: PageState, checked: bool): (r: PageState)
    ensures r.mockMode == checked
    ensures checked ==> UsesMock(r.mockMode, r.backend)
    ensures r.token == s.token && r.form == s.form && r.errors == s.errors && r.backend == s.backend
  {
    s.(mockMode := checked)
  }

  /** `handleChange`: the named field takes the new value, and that field's
      error message, if one is shown, is blanked. Nothing else changes. */
  function HandleChange(s: PageState, f: Field, v: string): (r: PageState)
    ensures r.form.Get(f) == v
    ensures forall g :: g != f ==> r.form.Get(g) == s.form.Get(g)
    ensures r.errors.Keys == s.errors.Keys
    ensures f in s.errors ==> r.errors[f] == ""
    ensures forall g :: g in s.errors && g != f ==> r.errors[g] == s.errors[g]
    ensures r.token == s.token && r.backend == s.backend && r.mockMode == s.mockMode
  {
    s.(form := s.form.Set(f, v), errors := ClearError(s.errors, f))
  }

  /** `validateEmail`'s error map: at most an entry for the email, which is
      "Email is required" for a blank address and the page's own message
      for one that fails the pattern. */
  function ValidateEmail(form: ResetForm): (errors: map<Field, string>)
    ensures errors.Keys <= {Email}
    ensures Blank(form.email) ==> Email in errors && errors[Email] == EmailRequired
    ensures !Blank(form.email) && !LooksLikeEmail(form.email) ==>
      Email in errors && errors[Email] == EmailInvalid
    ensures |errors| == 0 <==> LooksLikeEmail(form.email)
  {
    var m := EmailError(form.email, EmailInvalid);
    if m == "" then map[] else map[Email := m]
  }

  /** The message `validatePasswordReset` records for the new password, or
      "" for none; the length is counted in UTF-16 code units, as `.length`
      counts it. */
  function PasswordMessage(form: ResetForm): (m: string)
    ensures m == "" <==> Utf16Length(form.password) >= MinPasswordLength
  {
    if form.password == "" then NewPasswordRequired
    else if Utf16Length(form.password) < MinPasswordLength then PasswordTooShort
    else ""
  }

  /** The message `validatePasswordReset` records for the confirmation, or
      "" for none. */
  function ConfirmMessage(form: ResetForm): (m: string)
    ensures m == "" <==> form.confirmPassword != "" && form.confirmPassword == form.password
  {
    if form.confirmPassword == "" then ConfirmRequired
    else if form.password != form.confirmPassword then PasswordsDiffer
    else ""
  }

  /** `validatePasswordReset`'s error map: an entry for each of the two
      password fields whose rule fails. */
  function ValidatePasswordReset(form: ResetForm): (errors: map<Field, string>)
    ensures Email !in errors
    ensures form.password == "" ==> Password in errors && errors[Password] == NewPasswordRequired
    ensures 0 < Utf16Length(form.password) < MinPasswordLength ==>
      Password in errors && errors[Password] == PasswordTooShort
    ensures Password !in errors <==> Utf16Length(form.password) >= MinPasswordLength
    ensures form.confirmPassword == "" ==>
      ConfirmPassword in errors && errors[ConfirmPassword] == ConfirmRequired
    ensures form.confirmPassword != "" && form.confirmPassword != form.password ==>
      ConfirmPassword in errors && errors[ConfirmPassword] == PasswordsDiffer
    ensures ConfirmPassword in errors && errors[ConfirmPassword] == PasswordsDiffer ==>
      form.confirmPassword != "" && form.confirmPassword != form.password
    ensures ConfirmPassword !in errors <==> form.confirmPassword != "" && form.confirmPassword == form.password
  {
    var p := PasswordMessage(form);
    var c := ConfirmMessage(form);
    var e1: map<Field, string> := if p == "" then map[] else map[Password := p];
    if c == "" then e1 else e1[ConfirmPassword := c]
  }

  /** The reset form is accepted exactly when the new password has at least
      six UTF-16 code units and the confirmation repeats it. */
  lemma ValidatePasswordResetIff(form: ResetForm)
    ensures |ValidatePasswordReset(form)| == 0 <==>
      Utf16Length(form.password) >= MinPasswordLength && form.confirmPassword == form.password
  {
    var e := ValidatePasswordReset(form);
    if |e| == 0 {
      // The empty map holds no key, so both rules pass.
      assert e == map[];
      assert Password !in e && ConfirmPassword !in e;
    } else {
      // Some key is present, and only the two password keys can be.
      var f :| f in e;
      assert f == Password || f == ConfirmPassword;
    }
  }

  /** What a submission sends: nothing, a simulated success, the reset-link
      request, or the reset with the query's token. */
  datatype Request =
    | NoRequest
    | MockForgot
    | ForgotPasswordCall(email: string)
    | MockReset
    | ResetPasswordCall(token: string, password: string)

  /** The form's submit handler up to the first network call: reset mode
      runs `handlePasswordResetSubmit`, the other mode
      `handleForgotPasswordSubmit`. Each replaces the error map with its
      validator's result, sends nothing when that map is non-empty, and
      otherwise goes to the demo responder exactly when demo mode is on or
      the backend is unreachable. */
  function HandleSubmit(s: PageState): (r: (PageState, Request))
    ensures !IsResetMode(s.token) ==>
      && r.0 == s.(errors := ValidateEmail(s.form))
      && (r.1.NoRequest? <==> !LooksLikeEmail(s.form.email))
      && (r.1.MockForgot? <==> LooksLikeEmail(s.form.email) && UsesMock(s.mockMode, s.backend))
      && (r.1.ForgotPasswordCall? <==> LooksLikeEmail(s.form.email) && !UsesMock(s.mockMode, s.backend))
      && (r.1.ForgotPasswordCall? ==> r.1.email == s.form.email)
    ensures IsResetMode(s.token) ==>
      var ok := Utf16Length(s.form.password) >= MinPasswordLength && s.form.confirmPassword == s.form.password;
      && r.0 == s.(errors := ValidatePasswordReset(s.form))
      && (r.1.NoRequest? <==> !ok)
      && (r.1.MockReset? <==> ok && UsesMock(s.mockMode, s.backend))
      && (r.1.ResetPasswordCall? <==> ok && !UsesMock(s.mockMode, s.backend))
      && (r.1.ResetPasswordCall? ==>
            r.1.token == s.token.value && r.1.token != "" && r.1.password == s.form.password)
  {
    ValidatePasswordResetIff(s.form);
    var mock := UsesMock(s.mockMode, s.backend);
    if !IsResetMode(s.token) then
      var errors := ValidateEmail(s.form);
      var s' := s.(errors := errors);
      if |errors| != 0 then (s', NoRequest)
      else if mock then (s', MockForgot)
      else (s', ForgotPasswordCall(s.form.email))
    else
      var errors := ValidatePasswordReset(s.form);
      var s' := s.(errors := errors);
      if |errors| != 0 then (s', NoRequest)
      else if mock then (s', MockReset)
      else (s', ResetPasswordCall(s.token.value, s.form.password))
  }

  /** A submission straight after the page opens sends nothing: the empty
      email and the empty password both fail their rules, and the errors
      name the empty field of the mode the page is in. */
  lemma FirstSubmitSendsNothing(token: QueryValue)
    ensures var (s, r) := HandleSubmit(InitialState(token));
      && r.NoRequest?
      && (!IsResetMode(token) ==> s.errors == map[Email := EmailRequired])
      && (IsResetMode(token) ==>
            s.errors == map[Password := NewPasswordRequired, ConfirmPassword := ConfirmRequired])
  {
    var s := InitialState(token);
    assert Blank(s.form.email);
    EmailIsNotBlank(s.form.email);
  }

  /** The checkbox is rendered only in the disconnected indicator, so
      unticking it cannot bring the API back: no setting of the switch
      reaches either API call. */
  lemma DemoSwitchNeverReachesApi(s: PageState, checked: bool)
    requires s.backend == Disconnected
    ensures var r := HandleSubmit(SetMockMode(s, checked)).1;
      !r.ForgotPasswordCall? && !r.ResetPasswordCall?
  {
  }

  /** Once the connectivity test has failed, no submission reaches the API:
      a valid one goes to the demo responder. */
  lemma UnreachableBackendNeverCallsApi(s: PageState)
    ensures var r := HandleSubmit(CheckBackendConnection(s, false)).1;
      !r.ForgotPasswordCall? && !r.ResetPasswordCall?
  {
  }
}
