/**
 * The sign-up serializer of the second backend: four required fields, a
 * password-confirmation check keyed on `password`, and the account record
 * that `create` saves.
 */
module Registration {
  import opened Wrappers
  import opened Text
  import opened Fields
  import opened Models

  /** The request body of a sign-up, each field possibly missing. */
  datatype RegisterForm = RegisterForm(
    email: Option<string>,
    username: Option<string>,
    password: Option<string>,
    password2: Option<string>)

  /** The validated data of a sign-up. */
  datatype SignUp = SignUp(email: string, username: string, password: string, password2: string)

  /** The record `create` saves: there is no column for the confirmation. */
  datatype Account = Account(username: string, email: string, credential: Credential)

  /** `validate`: a mismatch is an error on the `password` key; matching data is passed on unchanged. */
  function ValidateSignUp(d: SignUp): (r: Result<SignUp, Invalid>)
    ensures r.Success? <==> d.password == d.password2
    ensures r.Success? ==> r.value == d
    ensures r.Failure? ==> r.error == Invalid({"password"})
  {
    if d.password != d.password2 then Failure(Invalid({"password"})) else Success(d)
  }

  /** The field-level checks; `passwordPolicy` stands for Django's configured password validators. */
  function SignUpFieldErrors(f: RegisterForm, passwordPolicy: string -> bool): set<string> {
    FailedFields("email", CleanText(f.email, 0, AnyText))
      + FailedFields("username", CleanText(f.username, 0, AnyText))
      + FailedFields("password", CleanText(f.password, 5, passwordPolicy))
      + FailedFields("password2", CleanText(f.password2, 5, AnyText))
  }

  /** `is_valid()`: every field clean, then `validate`. */
  function CheckSignUp(f: RegisterForm, passwordPolicy: string -> bool): (r: Result<SignUp, Invalid>)
    ensures r.Success? <==>
      && CleanText(f.email, 0, AnyText).Success?
      && CleanText(f.username, 0, AnyText).Success?
      && f.password.Some? && f.password2.Some?
      && |Trim(f.password.value)| >= 5 && '\0' !in Trim(f.password.value) && passwordPolicy(Trim(f.password.value))
      && Trim(f.password.value) == Trim(f.password2.value)
    ensures r.Success? ==>
      && r.value.email == Trim(f.email.value)
      && r.value.username == Trim(f.username.value)
      && r.value.password == r.value.password2 == Trim(f.password.value)
    ensures r.Failure? && SignUpFieldErrors(f, passwordPolicy) == {} ==> r.error == Invalid({"password"})
    ensures r.Failure? && SignUpFieldErrors(f, passwordPolicy) != {} ==> r.error == Invalid(SignUpFieldErrors(f, passwordPolicy))
  {
    var email := CleanText(f.email, 0, AnyText);
    var username := CleanText(f.username, 0, AnyText);
    var password := CleanText(f.password, 5, passwordPolicy);
    var password2 := CleanText(f.password2, 5, AnyText);
    if SignUpFieldErrors(f, passwordPolicy) != {} then
      Failure(Invalid(SignUpFieldErrors(f, passwordPolicy)))
    else
      ValidateSignUp(SignUp(email.value, username.value, password.value, password2.value))
  }

  /** `create`: the account gets the submitted username and email and the hash of the password. */
  function CreateAccount(d: SignUp): (a: Account)
    ensures a.username == d.username && a.email == d.email
    ensures a.credential == Hashed(d.password)
  {
    Account(d.username, d.email, Hashed(d.password))
  }

  /** The confirmation field never reaches the saved record. */
  lemma ConfirmationNotStored(d: SignUp, other: string)
    ensures CreateAccount(d) == CreateAccount(d.(password2 := other))
  {
  }

  /** An accepted sign-up saves the typed username and email, and the password typed twice. */
  lemma AcceptedSignUpAccount(f: RegisterForm, passwordPolicy: string -> bool)
    requires CheckSignUp(f, passwordPolicy).Success?
    ensures CreateAccount(CheckSignUp(f, passwordPolicy).value)
         == Account(Trim(f.username.value), Trim(f.email.value), Hashed(Trim(f.password2.value)))
  {
  }
}
