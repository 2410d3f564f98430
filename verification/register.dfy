/** The registration page (`src/pages/Register.js`): its form record, the
    per-field edit with error clearing, the validation rules, and the
    decision a submission makes between the demo responder and the API. */
module RegisterPage {
  import opened Text
  import opened EmailPattern
  import opened Forms

  /** The `name` attributes of the page's inputs. */
  datatype Field = FirstName | LastName | Email | Password | ConfirmPassword | Role | Phone

  /** `formData`. */
  datatype RegisterForm = RegisterForm(
    firstName: string,
    lastName: string,
    email: string,
    password: string,
    confirmPassword: string,
    role: string,
    phone: string)
  {
    /** `formData[field]`. */
    function Get(f: Field): string {
      match f
      case FirstName => firstName
      case LastName => lastName
      case Email => email
      case Password => password
      case ConfirmPassword => confirmPassword
      case Role => role
      case Phone => phone
    }

    /** `{ ...formData, [field]: v }`: the edited field reads back `v` and
        every other field is unchanged. */
    function Set(f: Field, v: string): (r: RegisterForm)
      ensures r.Get(f) == v
      ensures forall g :: g != f ==> r.Get(g) == Get(g)
    {
      match f
      case FirstName => this.(firstName := v)
      case LastName => this.(lastName := v)
      case Email => this.(email := v)
      case Password => this.(password := v)
      case ConfirmPassword => this.(confirmPassword := v)
      case Role => this.(role := v)
      case Phone => this.(phone := v)
    }
  }

  const InitialForm := RegisterForm("", "", "", "", "", "doctor", "")

  const FirstNameRequired := "First name is required"
  const LastNameRequired := "Last name is required"
  const EmailInvalid := "Email format is invalid"
  const PasswordRequired := "Password is required"
  const PasswordTooShort := "Password must be at least 6 characters"
  const PasswordsDiffer := "Passwords do not match"
  const PhoneRequired := "Phone number is required"

  const MinPasswordLength := 6

  /** The page's state: the form, the error messages, the connectivity
      indicator and the demo-mode switch. Nothing on this page ever moves
      the last two away from their initial values; they are kept so the
      submission rule reads as the source writes it. */
  datatype PageState = PageState(
    form: RegisterForm,
    errors: map<Field, string>,
    backend: BackendStatus,
    mockMode: bool)

  const InitialState := PageState(InitialForm, map[], Checking, false)

  /** `handleChange`: the named field takes the new value, and that field's
      error message, if one is shown, is blanked. Nothing else changes. */
  function HandleChange(s: PageState, f: Field, v: string): (r: PageState)
    ensures r.form.Get(f) == v
    ensures forall g :: g != f ==> r.form.Get(g) == s.form.Get(g)
    ensures r.errors.Keys == s.errors.Keys
    ensures f in s.errors ==> r.errors[f] == ""
    ensures forall g :: g in s.errors && g != f ==> r.errors[g] == s.errors[g]
    ensures r.backend == s.backend && r.mockMode == s.mockMode
  {
    s.(form := s.form.Set(f, v), errors := ClearError(s.errors, f))
  }

  /** The message `validateForm` records for one field, or "" when it
      records none: each rule of the source writes only its own key, and
      the password length is counted in UTF-16 code units as `.length`
      counts it. */
  function FieldMessage(form: RegisterForm, f: Field): (m: string)
    ensures f == Role ==> m == ""
    ensures f == ConfirmPassword ==> (m != "" <==> form.password != form.confirmPassword)
  {
    match f
    case FirstName => RequiredError(form.firstName, FirstNameRequired)
    case LastName => RequiredError(form.lastName, LastNameRequired)
    case Email => EmailError(form.email, EmailInvalid)
    case Password =>
      if form.password == "" then PasswordRequired
      else if Utf16Length(form.password) < MinPasswordLength then PasswordTooShort
      else ""
    case ConfirmPassword => if form.password != form.confirmPassword then PasswordsDiffer else ""
    case Role => ""
    case Phone => RequiredError(form.phone, PhoneRequired)
  }

  const AllFields: set<Field> := {FirstName, LastName, Email, Password, ConfirmPassword, Role, Phone}

  /** `validateForm`'s error map. A name or phone that is empty or all
      whitespace is reported missing. A blank email is "Email is required";
      a non-blank one that fails the pattern is "Email format is invalid";
      the field passes exactly when the pattern matches. A missing password
      and a short one get different messages, and the password passes
      exactly at six UTF-16 code units or more. A confirmation that differs
      is reported whether or not a password was given. `role` is never
      checked. */
  function ValidateForm(form: RegisterForm): (errors: map<Field, string>)
    ensures FirstName in errors <==> Blank(form.firstName)
    ensures FirstName in errors ==> errors[FirstName] == FirstNameRequired
    ensures LastName in errors <==> Blank(form.lastName)
    ensures LastName in errors ==> errors[LastName] == LastNameRequired
    ensures Phone in errors <==> Blank(form.phone)
    ensures Phone in errors ==> errors[Phone] == PhoneRequired
    ensures Role !in errors
    ensures Blank(form.email) ==> Email in errors && errors[Email] == EmailRequired
    ensures !Blank(form.email) && !LooksLikeEmail(form.email) ==>
      Email in errors && errors[Email] == EmailInvalid
    ensures Email !in errors <==> LooksLikeEmail(form.email)
    ensures form.password == "" ==> Password in errors && errors[Password] == PasswordRequired
    ensures 0 < Utf16Length(form.password) < MinPasswordLength ==>
      Password in errors && errors[Password] == PasswordTooShort
    ensures Password !in errors <==> Utf16Length(form.password) >= MinPasswordLength
    ensures ConfirmPassword in errors <==> form.password != form.confirmPassword
    ensures ConfirmPassword in errors ==> errors[ConfirmPassword] == PasswordsDiffer
  {
    NamePhoneMessages(form);
    EmailMessage(form);
    PasswordMessages(form);
    map f | f in AllFields && FieldMessage(form, f) != "" :: FieldMessage(form, f)
  }

  /** The required-field rules, one field at a time. */
  lemma NamePhoneMessages(form: RegisterForm)
    ensures var m := FieldMessage(form, FirstName); (m != "" <==> Blank(form.firstName)) && (m != "" ==> m == FirstNameRequired)
    ensures var m := FieldMessage(form, LastName); (m != "" <==> Blank(form.lastName)) && (m != "" ==> m == LastNameRequired)
    ensures var m := FieldMessage(form, Phone); (m != "" <==> Blank(form.phone)) && (m != "" ==> m == PhoneRequired)
    ensures FieldMessage(form, Role) == ""
  {
  }

  /** The email rule on its own. */
  lemma EmailMessage(form: RegisterForm)
    ensures var m := FieldMessage(form, Email);
      && (Blank(form.email) ==> m == EmailRequired)
      && (!Blank(form.email) && !LooksLikeEmail(form.email) ==> m == EmailInvalid)
      && (m == "" <==> LooksLikeEmail(form.email))
  {
  }

  /** The password and confirmation rules on their own. */
  lemma PasswordMessages(form: RegisterForm)
    ensures var m := FieldMessage(form, Password);
      && (form.password == "" ==> m == PasswordRequired)
      && (0 < Utf16Length(form.password) < MinPasswordLength ==> m == PasswordTooShort)
      && (m == "" <==> Utf16Length(form.password) >= MinPasswordLength)
    ensures var m := FieldMessage(form, ConfirmPassword);
      (m != "" <==> form.password != form.confirmPassword) && (m != "" ==> m == PasswordsDiffer)
  {
  }

  /** `validateForm()`'s return value: no key in the error map. */
  predicate IsValid(form: RegisterForm) {
    |ValidateForm(form)| == 0
  }

  /** The form is accepted exactly when both names and the phone are not
      blank, the email passes the pattern, the password has at least six
      UTF-16 code units and the confirmation repeats it. */
  lemma IsValidIff(form: RegisterForm)
    ensures IsValid(form) <==>
      && !Blank(form.firstName) && !Blank(form.lastName)
      && LooksLikeEmail(form.email)
      && Utf16Length(form.password) >= MinPasswordLength
      && form.confirmPassword == form.password
      && !Blank(form.phone)
  {
    var e := ValidateForm(form);
    if |e| == 0 {
      // The empty map holds no key, so every rule passes.
      assert e == map[];
      assert FirstName !in e && LastName !in e && Email !in e;
      assert Password !in e && ConfirmPassword !in e && Phone !in e;
    } else {
      // Some key is present; its rule names the condition that fails.
      var f :| f in e;
      match f
      case FirstName => assert Blank(form.firstName);
      case LastName => assert Blank(form.lastName);
      case Email => assert !LooksLikeEmail(form.email);
      case Password => assert Utf16Length(form.password) < MinPasswordLength;
      case ConfirmPassword => assert form.password != form.confirmPassword;
      case Role => assert false;
      case Phone => assert Blank(form.phone);
    }
  }

  /** The fields of the registration request: everything but the
      confirmation. */
  datatype Registration = Registration(
    firstName: string,
    lastName: string,
    email: string,
    password: string,
    role: string,
    phone: string)

  /** What a submission sends: nothing, the whole form to the demo
      responder, or the registration request to the API. */
  datatype Request =
    | NoRequest
    | MockRegister(form: RegisterForm)
    | RealRegister(data: Registration)

  /** `handleSubmit` up to the first network call: the error map is
      replaced by the validation result; an invalid form sends nothing; a
      valid one goes to the demo responder when demo mode is on or the
      backend is unreachable, and to the API otherwise. */
  function HandleSubmit(s: PageState): (r: (PageState, Request))
    ensures r.0 == s.(errors := ValidateForm(s.form))
    ensures r.1.NoRequest? <==> !IsValid(s.form)
    ensures r.1.MockRegister? <==> IsValid(s.form) && UsesMock(s.mockMode, s.backend)
    ensures r.1.MockRegister? ==> r.1.form == s.form
    ensures r.1.RealRegister? ==>
      var d := r.1.data;
      && d.firstName == s.form.firstName && d.lastName == s.form.lastName
      && d.email == s.form.email && d.password == s.form.password
      && d.role == s.form.role && d.phone == s.form.phone
  {
    var errors := ValidateForm(s.form);
    var s' := s.(errors := errors);
    if |errors| != 0 then (s', NoRequest)
    else if UsesMock(s.mockMode, s.backend) then (s', MockRegister(s.form))
    else
      var f := s.form;
      (s', RealRegister(Registration(f.firstName, f.lastName, f.email, f.password, f.role, f.phone)))
  }

  /** This page has no connectivity check and no demo switch, so its state
      keeps `Checking` and `false` from the start: a valid form always goes
      to the API and the demo branch is never taken. */
  lemma DemoRouteUnused(s: PageState)
    requires s.backend == InitialState.backend && s.mockMode == InitialState.mockMode
    ensures !HandleSubmit(s).1.MockRegister?
    ensures IsValid(s.form) ==> HandleSubmit(s).1.RealRegister?
  {
  }

  /** Whatever reaches a responder has passed validation: a password of at
      least six UTF-16 code units, confirmed, and an email matching the pattern. */
  lemma SubmittedFormIsValid(s: PageState)
    ensures !HandleSubmit(s).1.NoRequest? ==>
      && Utf16Length(s.form.password) >= MinPasswordLength
      && s.form.confirmPassword == s.form.password
      && LooksLikeEmail(s.form.email)
      && !Blank(s.form.firstName) && !Blank(s.form.lastName) && !Blank(s.form.phone)
  {
    IsValidIff(s.form);
  }
}
