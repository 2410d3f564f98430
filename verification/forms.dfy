/** State shared by the registration and password-recovery pages: the
    backend connectivity indicator, the demo-mode routing decision, and the
    per-field error map a `handleChange` clears. */
module Forms {
  import opened Text
  import opened EmailPattern

  /** The `backendStatus` state: `'checking'` until a connectivity test
      settles it. */
  datatype BackendStatus = Checking | Connected | Disconnected

  /** Both pages send a submission to the demo responder instead of the API
      when demo mode is switched on or the backend was found unreachable.
      The API is used only with the switch off and the backend connected or
      still being checked: a test that has not settled counts as reachable. */
  function UsesMock(mockMode: bool, backend: BackendStatus): (b: bool)
    ensures mockMode ==> b
    ensures !b <==> !mockMode && (backend == Checking || backend == Connected)
  {
    mockMode || backend == Disconnected
  }

  /** The error update of `handleChange` for the edited field: a message
      that is present and non-empty (truthy) is replaced by the empty string;
      the key is kept and no other entry is touched. */
  function ClearError<F>(errors: map<F, string>, field: F): (r: map<F, string>)
    ensures r.Keys == errors.Keys
    ensures field in errors ==> r[field] == ""
    ensures forall g :: g in errors && g != field ==> r[g] == errors[g]
  {
    if field in errors && errors[field] != "" then errors[field := ""] else errors
  }

  /** The required-field rule `if (!value.trim()) newErrors[f] = message`:
      the message for a blank value, and no message ("") otherwise. */
  function RequiredError(value: string, message: string): (m: string)
    requires message != ""
    ensures m != "" <==> Blank(value)
    ensures m != "" ==> m == message
  {
    TrimEmptyIffBlank(value);
    if Trim(value) == "" then message else ""
  }

  const EmailRequired := "Email is required"

  /** The email rule both pages share: a blank address is missing, any
      other address must match `/\S+@\S+\.\S+/` or gets the page's
      `invalid` message; "" means the address is accepted. */
  function EmailError(email: string, invalid: string): (m: string)
    requires invalid != "" && invalid != EmailRequired
    ensures Blank(email) ==> m == EmailRequired
    ensures !Blank(email) && !LooksLikeEmail(email) ==> m == invalid
    ensures m == "" <==> LooksLikeEmail(email)
  {
    TrimEmptyIffBlank(email);
    EmailIsNotBlank(email);
    if Trim(email) == "" then EmailRequired
    else if !LooksLikeEmail(email) then invalid
    else ""
  }
}
