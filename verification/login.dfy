/** The Login form: an email check, then a password policy check, before
    the credentials are handed to the application's `onLogin`. */
module Login {
  import opened Wrappers
  import opened Text

  datatype Credentials = Credentials(email: string, password: string)

  /** The form's state; `error` is the message shown above the fields. */
  datatype LoginForm = LoginForm(email: string, password: string, error: string, showPassword: bool)

  /** One submit: the form after it, and the `onLogin` call it made, if any. */
  datatype LoginStep = LoginStep(next: LoginForm, signedIn: Option<Credentials>)

  const EmailError: string := "Please enter a valid email address."
  const PasswordError: string :=
    "Password must be at least 8 characters long, include at least one number and one special character."

  /** The special characters the policy accepts: `!@#$%^&*`. */
  predicate IsSpecial(c: char) {
    c == '!' || c == '@' || c == '#' || c == '$' || c == '%' || c == '^' || c == '&' || c == '*'
  }

  /** The character class `[A-Za-z0-9!@#$%^&*]`. */
  predicate Allowed(c: char) {
    ('A' <= c <= 'Z') || ('a' <= c <= 'z') || IsDigit(c) || IsSpecial(c)
  }

  /** What `^(?=.*[0-9])(?=.*[!@#$%^&*])[A-Za-z0-9!@#$%^&*]{8,}$` accepts:
      eight or more allowed characters, among them a digit and a special
      character. (The look-aheads' `.` cannot meet a line break, as the body
      already refuses one.) */
  ghost predicate PasswordPolicy(p: string) {
    && |p| >= 8
    && (forall i :: 0 <= i < |p| ==> Allowed(p[i]))
    && (exists i :: 0 <= i < |p| && IsDigit(p[i]))
    && (exists i :: 0 <= i < |p| && IsSpecial(p[i]))
  }

  function AllAllowed(p: string): (b: bool)
    ensures b <==> forall i :: 0 <= i < |p| ==> Allowed(p[i])
  {
    if p == [] then true
    else
      assert forall i :: 1 <= i < |p| ==> p[i] == p[1..][i - 1];
      Allowed(p[0]) && AllAllowed(p[1..])
  }

  function HasDigit(p: string): (b: bool)
    ensures b <==> exists i :: 0 <= i < |p| && IsDigit(p[i])
  {
    if p == [] then false
    else
      assert forall i :: 1 <= i < |p| ==> p[i] == p[1..][i - 1];
      IsDigit(p[0]) || HasDigit(p[1..])
  }

  function HasSpecial(p: string): (b: bool)
    ensures b <==> exists i :: 0 <= i < |p| && IsSpecial(p[i])
  {
    if p == [] then false
    else
      assert forall i :: 1 <= i < |p| ==> p[i] == p[1..][i - 1];
      IsSpecial(p[0]) || HasSpecial(p[1..])
  }

  /** `passwordRegex.test(password)`. */
  function PasswordOk(p: string): (b: bool)
    ensures b <==> PasswordPolicy(p)
  {
    |p| >= 8 && AllAllowed(p) && HasDigit(p) && HasSpecial(p)
  }

  /** `handleLogin`: the email check runs first, then the password policy;
      only when both pass is the error cleared and `onLogin` called with the
      credentials as typed. The fields themselves are never changed. */
  function HandleLogin(f: LoginForm): (r: LoginStep)
    ensures r.next.email == f.email && r.next.password == f.password && r.next.showPassword == f.showPassword
    ensures r.signedIn.Some? <==> '@' in f.email && PasswordPolicy(f.password)
    ensures r.signedIn.Some? ==> r.signedIn.value == Credentials(f.email, f.password) && r.next.error == ""
    ensures '@' !in f.email ==> r.next.error == EmailError
    ensures '@' in f.email && !PasswordPolicy(f.password) ==> r.next.error == PasswordError
  {
    if '@' !in f.email then LoginStep(f.(error := EmailError), None)
    else if !PasswordOk(f.password) then LoginStep(f.(error := PasswordError), None)
    else LoginStep(f.(error := ""), Some(Credentials(f.email, f.password)))
  }

  /** With neither field valid, the email error is the one shown. */
  lemma EmailCheckedFirst(f: LoginForm)
    requires '@' !in f.email && !PasswordPolicy(f.password)
    ensures HandleLogin(f).next.error == EmailError
  {
  }

  /** `handleReset`: everything empty and the password hidden again. */
  function Reset(f: LoginForm): (r: LoginForm)
    ensures r.email == "" && r.password == "" && r.error == "" && !r.showPassword
  {
    LoginForm("", "", "", false)
  }

  /** A password with a digit and a special character is accepted. */
  lemma AcceptedExample()
    ensures PasswordOk("abcdef1!")
  {
    var p := "abcdef1!";
    assert IsDigit(p[6]) && IsSpecial(p[7]);
  }

  /** A space is outside the character class, so it fails the policy. */
  lemma SpaceRejectedExample()
    ensures !PasswordOk("abcdef1! ")
  {
    assert !Allowed("abcdef1! "[8]);
  }

  /** Eight letters and digits without a special character are refused. */
  lemma NoSpecialRejectedExample()
    ensures !PasswordPolicy("abcdefg1")
  {
    var p := "abcdefg1";
    forall i | 0 <= i < |p|
      ensures !IsSpecial(p[i])
    {
      assert 'a' <= p[i] <= 'z' || IsDigit(p[i]);
    }
  }
}
