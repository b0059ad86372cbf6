/**
 The account API controller: `Login`, `Create` and `Logout`.

 Each endpoint is a pure function of the request body and of the injected
 collaborators. Besides the reply it returns the list of collaborator calls
 it made, in order, with their arguments, so that contracts can say which
 calls happen on which paths.
 */
module AccountController {
  import opened Wrappers
  import opened Identity
  import opened Http
  import Text

  /** The request body shared by all three endpoints (`LoginCredentials`). */
  datatype LoginCredentials = LoginCredentials(
    email: string,
    username: string,
    password: string,
    confirmPassword: string,
    restrictedAccessCode: string)

  /** One call into a collaborator, with the arguments it was given. */
  datatype Call =
    | FindByEmail(email: string)
    | PasswordSignIn(user: ApplicationUser, password: string)
    | IsEmailConfirmed(user: ApplicationUser)
    | GetRoles(user: ApplicationUser)
    | ValidateAndUseAccessCode(code: string)
    | CreateUser(user: ApplicationUser, password: string)
    | SignOut

  /** What handling one request produced: the reply and the calls made on the way. */
  datatype Handled = Handled(response: Response, calls: seq<Call>)

  const MaxUsernameLength: nat := 16

  const AccountNotFound: string := "Account with that email could not be found"
  const EmailNotVerified: string := "Email is not verified - click link in email"
  const UsernameTooLong: string := "Username must be 16 characters or less"

  // ---------------------------------------------------------------------------
  // Login

  /** The sign-in attempt for the account registered under the request's email succeeded. */
  predicate SignedIn(creds: LoginCredentials, svc: Services) {
    match svc.findByEmail(creds.email)
    case None => false
    case Some(user) =>
      var res := svc.passwordSignIn(user, creds.password);
      res.Some? && res.value.succeeded
  }

  function Login(creds: LoginCredentials, svc: Services): (h: Handled)
    // The account is always looked up first, by the request's email.
    ensures |h.calls| > 0 && h.calls[0] == FindByEmail(creds.email)
    // Unknown email: 400 with one message, and nothing else is asked.
    ensures svc.findByEmail(creds.email).None? ==>
              h.response == BadRequestMessage(AccountNotFound) && h.calls == [FindByEmail(creds.email)]
    // Known email: exactly three calls. The second is the one sign-in attempt, for the stored user
    // with the request's password; the third is the role lookup after a success, or the
    // email-confirmation check after a failure.
    ensures svc.findByEmail(creds.email).Some? ==>
              var user := svc.findByEmail(creds.email).value;
              && |h.calls| == 3
              && h.calls[1] == PasswordSignIn(user, creds.password)
              && h.calls[2] == if SignedIn(creds, svc) then GetRoles(user) else IsEmailConfirmed(user)
    // Login talks only to the user store and the sign-in manager: never to the access-code
    // service, never to account creation, never to sign-out.
    ensures forall c :: c in h.calls ==> c.FindByEmail? || c.PasswordSignIn? || c.IsEmailConfirmed? || c.GetRoles?
    ensures forall c :: c in h.calls && c.PasswordSignIn? ==>
              svc.findByEmail(creds.email).Some? && c == PasswordSignIn(svc.findByEmail(creds.email).value, creds.password)
    // Success: 200 with the stored user's email and its roles; roles are fetched on this path only.
    ensures SignedIn(creds, svc) ==>
              var user := svc.findByEmail(creds.email).value;
              h.response == Ok(LoggedIn(UserInfo(user.email, svc.getRoles(user)))) && GetRoles(user) in h.calls
    ensures forall c :: c in h.calls && c.GetRoles? ==> SignedIn(creds, svc)
    ensures h.response.Ok? <==> SignedIn(creds, svc)
    // Failure for a known account: 400 if the email is unconfirmed, otherwise 401 with no detail.
    ensures svc.findByEmail(creds.email).Some? && !SignedIn(creds, svc) ==>
              var user := svc.findByEmail(creds.email).value;
              IsEmailConfirmed(user) in h.calls &&
              h.response == (if svc.isEmailConfirmed(user) then Unauthorized(None) else BadRequestMessage(EmailNotVerified))
    ensures forall c :: c in h.calls && c.IsEmailConfirmed? ==> !SignedIn(creds, svc)
  {
    var lookup := FindByEmail(creds.email);
    match svc.findByEmail(creds.email)
    case None => Handled(BadRequestMessage(AccountNotFound), [lookup])
    case Some(user) =>
      var signIn := PasswordSignIn(user, creds.password);
      var res := svc.passwordSignIn(user, creds.password);
      if res.None? || !res.value.succeeded then
        var check := IsEmailConfirmed(user);
        if !svc.isEmailConfirmed(user) then
          Handled(BadRequestMessage(EmailNotVerified), [lookup, signIn, check])
        else
          Handled(Unauthorized(None), [lookup, signIn, check])
      else
        Handled(Ok(LoggedIn(UserInfo(user.email, svc.getRoles(user)))), [lookup, signIn, GetRoles(user)])
  }

  // ---------------------------------------------------------------------------
  // Create

  /** The access-code gate lets the request through: the deployment is open, or the service accepted the code. */
  predicate AccessCodeAccepted(creds: LoginCredentials, svc: Services) {
    !svc.restrictedEnvironment || svc.validateAndUseAccessCode(creds.restrictedAccessCode).None?
  }

  /** The username passes the length check, counted in UTF-16 code units as .NET does. */
  predicate UsernameFits(username: string) {
    Text.Utf16Length(username) <= MaxUsernameLength
  }

  /** Every check before the identity store is asked to create the account passes. */
  predicate PassesValidation(creds: LoginCredentials, svc: Services) {
    && AccessCodeAccepted(creds, svc)
    && UsernameFits(creds.username)
    && creds.password == creds.confirmPassword
  }

  /** The user record handed to the identity store: email and username straight from the request. */
  function NewUser(creds: LoginCredentials): (user: ApplicationUser) {
    ApplicationUser(creds.email, creds.username)
  }

  function Create(creds: LoginCredentials, svc: Services): (h: Handled)
    // The access-code service is consulted exactly when the deployment is restricted, first, with the request's code.
    ensures ValidateAndUseAccessCode(creds.restrictedAccessCode) in h.calls <==> svc.restrictedEnvironment
    ensures svc.restrictedEnvironment ==>
              |h.calls| > 0 && h.calls[0] == ValidateAndUseAccessCode(creds.restrictedAccessCode)
    // A rejected code: 400 carrying the service's error unchanged, and nothing else happens.
    ensures svc.restrictedEnvironment && svc.validateAndUseAccessCode(creds.restrictedAccessCode).Some? ==>
              && h.response == BadRequest(AccessCodeRejected(svc.validateAndUseAccessCode(creds.restrictedAccessCode).value))
              && h.calls == [ValidateAndUseAccessCode(creds.restrictedAccessCode)]
    // Past the gate, an over-long username: 400 with the single length message.
    ensures AccessCodeAccepted(creds, svc) && !UsernameFits(creds.username) ==>
              h.response == BadRequestMessage(UsernameTooLong)
    // Past the length check, mismatched passwords: 401 with no detail.
    ensures AccessCodeAccepted(creds, svc) && UsernameFits(creds.username) && creds.password != creds.confirmPassword ==>
              h.response == Unauthorized(None)
    // The identity store is asked to create the account exactly when every check passed,
    // with the request's email, username and password, and never otherwise.
    ensures CreateUser(NewUser(creds), creds.password) in h.calls <==> PassesValidation(creds, svc)
    ensures forall c :: c in h.calls ==> c.ValidateAndUseAccessCode? || c == CreateUser(NewUser(creds), creds.password)
    // Its outcome decides the reply: 200 with no body, or 401 wrapping the identity result.
    ensures PassesValidation(creds, svc) ==>
              var res := svc.createUser(NewUser(creds), creds.password);
              h.response == if res.succeeded then Ok(NoBody) else Unauthorized(Some(res))
  {
    var gate := if svc.restrictedEnvironment then [ValidateAndUseAccessCode(creds.restrictedAccessCode)] else [];
    if svc.restrictedEnvironment && svc.validateAndUseAccessCode(creds.restrictedAccessCode).Some? then
      Handled(BadRequest(AccessCodeRejected(svc.validateAndUseAccessCode(creds.restrictedAccessCode).value)), gate)
    else if Text.Utf16Length(creds.username) > MaxUsernameLength then
      Handled(BadRequestMessage(UsernameTooLong), gate)
    else if creds.password != creds.confirmPassword then
      Handled(Unauthorized(None), gate)
    else
      var user := NewUser(creds);
      var res := svc.createUser(user, creds.password);
      var calls := gate + [CreateUser(user, creds.password)];
      if !res.succeeded then Handled(Unauthorized(Some(res)), calls)
      else Handled(Ok(NoBody), calls)
  }

  // ---------------------------------------------------------------------------
  // Logout

  function Logout(): (h: Handled)
    ensures h.response.Ok? && h.response.body.NoBody?
    ensures h.calls == [SignOut]
  {
    Handled(Ok(NoBody), [SignOut])
  }
}
