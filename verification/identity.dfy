/**
 The framework collaborators the account controller talks to, reduced to
 plain values.

 Every collaborator is called at most once per request and its answer
 depends only on its arguments and on state the controller never sees, so
 each one is modelled as a pure function of its arguments: a different
 backing store is a different `Services` value. A `null` answer from the
 framework becomes `None`.
 */
module Identity {
  import opened Wrappers

  /** The identity record (`ApplicationUser`); only the fields the controller reads or sets. */
  datatype ApplicationUser = ApplicationUser(email: string, userName: string)

  /** One failure reported by the identity framework when creating a user. */
  datatype IdentityError = IdentityError(code: string, description: string)

  /** The outcome of `UserManager.CreateAsync`. */
  datatype IdentityResult = IdentityResult(succeeded: bool, errors: seq<IdentityError>)

  /** The outcome of `SignInManager.PasswordSignInAsync`; the controller reads only `Succeeded`. */
  datatype SignInResult = SignInResult(succeeded: bool)

  /** The error object returned by the access-code service; its shape is opaque to the controller. */
  datatype AccessCodeError = AccessCodeError(description: string)

  /**
   The controller's injected dependencies:
   - `restrictedEnvironment`: the `RestrictedEnvironment` configuration flag;
   - `validateAndUseAccessCode`: `IAccessCodeService.ValidateAndUseAccessCode`, `None` when the code was accepted;
   - `findByEmail`: `UserManager.FindByEmailAsync`;
   - `passwordSignIn`: `SignInManager.PasswordSignInAsync` (no persistence, no lockout);
   - `isEmailConfirmed`: `UserManager.IsEmailConfirmedAsync`;
   - `getRoles`: `UserManager.GetRolesAsync`;
   - `createUser`: `UserManager.CreateAsync` with the new user and its password.
   */
  datatype Services = Services(
    restrictedEnvironment: bool,
    validateAndUseAccessCode: string -> Option<AccessCodeError>,
    findByEmail: string -> Option<ApplicationUser>,
    passwordSignIn: (ApplicationUser, string) -> Option<SignInResult>,
    isEmailConfirmed: ApplicationUser -> bool,
    getRoles: ApplicationUser -> seq<string>,
    createUser: (ApplicationUser, string) -> IdentityResult)
}
