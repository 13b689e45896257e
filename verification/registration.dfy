/** The Registration form: an email check, then a minimum password length,
    before the credentials are handed to the application's `onRegister`. */
module Registration {
  import opened Wrappers

  datatype Credentials = Credentials(email: string, password: string)

  datatype RegistrationForm = RegistrationForm(email: string, password: string, error: string)

  /** One submit: the form after it, and the `onRegister` call it made, if any. */
  datatype RegisterStep = RegisterStep(next: RegistrationForm, registered: Option<Credentials>)

  const EmailError: string := "Please enter a valid email address."
  const PasswordError: string := "Password must be at least 6 characters."
  const MinPasswordLength: nat := 6

  /** `handleRegister`: the email must contain '@', then the password must
      have at least six characters; the email error wins when both fail. */
  function HandleRegister(f: RegistrationForm): (r: RegisterStep)
    ensures r.next.email == f.email && r.next.password == f.password
    ensures r.registered.Some? <==> '@' in f.email && |f.password| >= MinPasswordLength
    ensures r.registered.Some? ==> r.registered.value == Credentials(f.email, f.password) && r.next.error == ""
    ensures '@' !in f.email ==> r.next.error == EmailError
    ensures '@' in f.email && |f.password| < MinPasswordLength ==> r.next.error == PasswordError
  {
    if '@' !in f.email then RegisterStep(f.(error := EmailError), None)
    else if |f.password| < MinPasswordLength then RegisterStep(f.(error := PasswordError), None)
    else RegisterStep(f.(error := ""), Some(Credentials(f.email, f.password)))
  }

  /** `handleClear`. */
  function Clear(f: RegistrationForm): (r: RegistrationForm)
    ensures r.email == "" && r.password == "" && r.error == ""
  {
    RegistrationForm("", "", "")
  }
}
