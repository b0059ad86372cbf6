/**
 Properties of the account endpoints that relate several requests or
 several collaborator configurations, and the status-code view of each
 endpoint's decision flow.
 */
module AccountProperties {
  import opened Wrappers
  import opened Identity
  import opened Http
  import opened AccountController
  import Text

  // ---------------------------------------------------------------------------
  // Create: the access-code gate

  /** In an open deployment neither the submitted access code nor the access-code service has any effect. */
  lemma OpenDeploymentIgnoresAccessCode(creds: LoginCredentials, svc: Services,
                                        code: string, service: string -> Option<AccessCodeError>)
    requires !svc.restrictedEnvironment
    ensures Create(creds.(restrictedAccessCode := code), svc.(validateAndUseAccessCode := service)) == Create(creds, svc)
    ensures forall c :: c in Create(creds, svc).calls ==> !c.ValidateAndUseAccessCode?
  {
  }

  /** A restricted deployment creates an account only after the service accepted the request's code,
      and that acceptance is the first thing that happened. */
  lemma RestrictedCreationNeedsAcceptedCode(creds: LoginCredentials, svc: Services, c: Call)
    requires svc.restrictedEnvironment
    requires c in Create(creds, svc).calls && c.CreateUser?
    ensures svc.validateAndUseAccessCode(creds.restrictedAccessCode).None?
    ensures Create(creds, svc).calls == [ValidateAndUseAccessCode(creds.restrictedAccessCode), c]
  {
  }

  /** The code is redeemed before the username and password are looked at, so a request that
      fails those checks still spends an accepted code, without creating an account. */
  lemma CodeSpentOnRejectedRequest(creds: LoginCredentials, svc: Services)
    requires svc.restrictedEnvironment
    requires svc.validateAndUseAccessCode(creds.restrictedAccessCode).None?
    requires !UsernameFits(creds.username) || creds.password != creds.confirmPassword
    ensures Create(creds, svc).calls == [ValidateAndUseAccessCode(creds.restrictedAccessCode)]
    ensures !Create(creds, svc).response.Ok?
  {
  }

  // ---------------------------------------------------------------------------
  // Create: the username length check

  /** For a username of single-code-unit characters the check is `|username| <= 16`:
      16 characters pass and 17 do not. */
  lemma UsernameBoundary(username: string)
    requires Text.AllBmp(username)
    ensures UsernameFits(username) <==> |username| <= MaxUsernameLength
  {
  }

  /** Whatever the characters, at most 8 always fit and more than 16 never do. */
  lemma UsernameBounds(username: string)
    ensures |username| <= MaxUsernameLength / 2 ==> UsernameFits(username)
    ensures |username| > MaxUsernameLength ==> !UsernameFits(username)
  {
  }

  /** A username of characters outside the Basic Multilingual Plane is measured in surrogate pairs:
      it fits exactly when it has at most 8 characters. */
  lemma AstralUsername(username: string)
    requires forall i :: 0 <= i < |username| ==> !Text.IsBmp(username[i])
    ensures UsernameFits(username) <==> |username| <= MaxUsernameLength / 2
  {
    Text.Utf16LengthAstral(username);
  }

  /** A username of single-unit characters followed by characters outside the Basic Multilingual
      Plane fits exactly when the former plus twice the latter is at most 16; two ASCII letters
      and seven such characters (16 code units) fit, eight (18) do not. */
  lemma MixedUsername(bmp: string, astral: string)
    requires Text.AllBmp(bmp)
    requires forall i :: 0 <= i < |astral| ==> !Text.IsBmp(astral[i])
    ensures UsernameFits(bmp + astral) <==> |bmp| + 2 * |astral| <= MaxUsernameLength
  {
    Text.Utf16LengthAppend(bmp, astral);
    Text.Utf16LengthAstral(astral);
  }

  /** At the endpoint: past the gate, 17 single-unit characters get the length message and no account,
      16 never get the length message. */
  lemma CreateUsernameBoundary(creds: LoginCredentials, svc: Services)
    requires AccessCodeAccepted(creds, svc) && Text.AllBmp(creds.username)
    ensures |creds.username| == MaxUsernameLength + 1 ==>
              && Create(creds, svc).response == BadRequestMessage(UsernameTooLong)
              && forall c :: c in Create(creds, svc).calls ==> !c.CreateUser?
    ensures |creds.username| == MaxUsernameLength ==>
              Create(creds, svc).response != BadRequestMessage(UsernameTooLong)
  {
    UsernameBoundary(creds.username);
  }

  // ---------------------------------------------------------------------------
  // Create: status mapping

  /** Mismatched passwords never create an account and, once the earlier checks pass, give a bare 401. */
  lemma PasswordMismatchIsUnauthorized(creds: LoginCredentials, svc: Services)
    requires creds.password != creds.confirmPassword
    ensures forall c :: c in Create(creds, svc).calls ==> !c.CreateUser?
    ensures !Create(creds, svc).response.Ok?
    ensures AccessCodeAccepted(creds, svc) && UsernameFits(creds.username) ==>
              Create(creds, svc).response == Unauthorized(None)
  {
  }

  /** Which failures of `Create` are 400s, which are 401s, and when it answers 200. */
  lemma CreateStatus(creds: LoginCredentials, svc: Services)
    ensures var status := StatusCode(Create(creds, svc).response);
            && (status == 400 <==> !AccessCodeAccepted(creds, svc) || !UsernameFits(creds.username))
            && (status == 401 <==>
                  && AccessCodeAccepted(creds, svc) && UsernameFits(creds.username)
                  && (creds.password != creds.confirmPassword
                      || !svc.createUser(NewUser(creds), creds.password).succeeded))
            && (status == 200 <==>
                  PassesValidation(creds, svc) && svc.createUser(NewUser(creds), creds.password).succeeded)
  {
  }

  // ---------------------------------------------------------------------------
  // Login

  /** Which outcomes of `Login` are 400s, which are 401s, and when it answers 200. */
  lemma LoginStatus(creds: LoginCredentials, svc: Services)
    ensures var status := StatusCode(Login(creds, svc).response);
            var found := svc.findByEmail(creds.email);
            && (status == 400 <==>
                  found.None? || (!SignedIn(creds, svc) && !svc.isEmailConfirmed(found.value)))
            && (status == 401 <==>
                  found.Some? && !SignedIn(creds, svc) && svc.isEmailConfirmed(found.value))
            && (status == 200 <==> SignedIn(creds, svc))
  {
  }

  /** A 401 from `Login` never carries a detail, so it cannot tell a wrong password from anything else. */
  lemma LoginUnauthorizedHasNoDetail(creds: LoginCredentials, svc: Services)
    ensures Login(creds, svc).response.Unauthorized? ==> Login(creds, svc).response.detail.None?
  {
  }

  /** `Login` reads only the email and the password of the request, and none of the
      registration collaborators. */
  lemma LoginIgnoresRegistrationFields(creds: LoginCredentials, svc: Services,
                                       username: string, confirmPassword: string, code: string,
                                       restricted: bool, service: string -> Option<AccessCodeError>,
                                       createUser: (ApplicationUser, string) -> IdentityResult)
    ensures var other := creds.(username := username, confirmPassword := confirmPassword, restrictedAccessCode := code);
            var otherSvc := svc.(restrictedEnvironment := restricted, validateAndUseAccessCode := service, createUser := createUser);
            Login(other, otherSvc) == Login(creds, svc)
  {
  }
}
