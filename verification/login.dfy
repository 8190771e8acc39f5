/** The sign-in page (app/login/page.tsx): client-side checks of the form
    before the customer login is attempted, and the demo owner button. */
module LoginPage {

  import opened Wrappers
  import opened Store
  import Auth

  const InvalidEmailMessage: string := "Please enter a valid email address"
  const ShortPasswordMessage: string := "Password must be at least 8 characters"
  const LoginFailedMessage: string := "Invalid email or password"
  const OwnerLoginFailedMessage: string := "Owner login failed"

  /** The credentials the demo owner button sends. */
  const DemoOwnerEmail: string := "owner@15palle.it"
  const DemoOwnerPassword: string := "owner123456"

  /** What the page does after a submit: show an error or navigate. */
  datatype Outcome = ShowError(message: string) | GoTo(path: string)

  /** The form checks, in order: the email must be non-empty and contain
      `@`; then the password must have at least eight characters. */
  function Validate(email: string, password: string): (r: Option<string>)
    ensures r == Some(InvalidEmailMessage) <==> '@' !in email
    ensures r == Some(ShortPasswordMessage) <==> '@' in email && |password| < Auth.MinPasswordLength
    ensures r.None? <==> '@' in email && |password| >= Auth.MinPasswordLength
  {
    if email == "" || '@' !in email then Some(InvalidEmailMessage)
    else if |password| < Auth.MinPasswordLength then Some(ShortPasswordMessage)
    else None
  }

  /** `handleSubmit`: validate, then try the customer login; any rejection
      shows one generic message. */
  function HandleSubmit(st: Storage, email: string, password: string): (r: (Storage, Outcome))
    ensures Validate(email, password).Some? ==>
              r == (st, ShowError(Validate(email, password).value))
    ensures Validate(email, password).None? ==>
              r.0 == Auth.LoginCustomer(st, email, password).storage
    ensures Validate(email, password).None? ==>
              (r.1 == GoTo("/customer/profile") <==> Auth.LoginCustomer(st, email, password).result.Ok?)
    ensures r.1.ShowError? ==>
              r.1.message in {InvalidEmailMessage, ShortPasswordMessage, LoginFailedMessage}
  {
    match Validate(email, password)
    case Some(message) => (st, ShowError(message))
    case None =>
      var resp := Auth.LoginCustomer(st, email, password);
      if resp.result.Ok? then (resp.storage, GoTo("/customer/profile"))
      else (resp.storage, ShowError(LoginFailedMessage))
  }

  /** The email check wins: with both fields wrong only the email error
      shows, and neither check touches storage. */
  lemma EmailCheckFirst(st: Storage, email: string, password: string)
    requires '@' !in email && |password| < Auth.MinPasswordLength
    ensures HandleSubmit(st, email, password) == (st, ShowError(InvalidEmailMessage))
  {
  }

  /** Past the form checks the password is long enough, so the only way
      the login can still fail is an email no customer has. */
  lemma SubmitFailsOnlyOnUnknownEmail(st: Storage, email: string, password: string)
    requires Validate(email, password).None?
    ensures HandleSubmit(st, email, password).1 == ShowError(LoginFailedMessage) <==>
            forall j :: 0 <= j < |Load(st)| ==> Load(st)[j].email != email
  {
  }

  /** `handleOwnerLogin`: sign in with the demo owner credentials. */
  function HandleOwnerLogin(st: Storage): (r: (Storage, Outcome))
    ensures r.1 == GoTo("/owner/dashboard") <==>
            Auth.LoginOwner(st, DemoOwnerEmail, DemoOwnerPassword).result.Ok?
    ensures r.0 == Auth.LoginOwner(st, DemoOwnerEmail, DemoOwnerPassword).storage
  {
    var resp := Auth.LoginOwner(st, DemoOwnerEmail, DemoOwnerPassword);
    if resp.result.Ok? then (resp.storage, GoTo("/owner/dashboard"))
    else (resp.storage, ShowError(OwnerLoginFailedMessage))
  }

  /** The demo credentials meet the owner check, so the button always
      signs in as the owner and never shows its error. */
  lemma OwnerButtonAlwaysSucceeds(st: Storage)
    ensures HandleOwnerLogin(st) == (st.(authUser := Some(Auth.OwnerUser)), GoTo("/owner/dashboard"))
    ensures Auth.Me(HandleOwnerLogin(st).0) == Some(Auth.OwnerUser)
  {
    assert |DemoOwnerPassword| == 11;
  }
}
