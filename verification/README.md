# QROrganizer account API, modelled in Dafny

This project models the account API controller of QROrganizer
(`QROrganizer.Web/Api/AccountController.cs`): the `Login` decision tree, the
ordered, short-circuiting validation of `Create` (account registration,
optionally gated by a single-use access code in a "restricted" deployment),
and `Logout`.

The controller's collaborators — the `RestrictedEnvironment` setting, the
access-code service, ASP.NET Identity's `UserManager` and `SignInManager` —
are not code of this repository. They become one `Identity.Services` value:
the configuration flag plus one pure function per collaborator call. Each
endpoint is then a pure function from the request body (`LoginCredentials`)
and the services to a `Handled` value. It holds the reply (`Http.Response`:
`Ok`, `BadRequest` or `Unauthorized`, with their bodies) and the list of
collaborator calls made on the way, with their arguments. That call list
exists only in the model; it is what lets contracts say which calls happen
on which paths and in which order.

Files:
- `wrappers.dfy` (`Wrappers`): `Option`, the model of a .NET `null`.
- `text.dfy` (`Text`): the UTF-16 encoding of a string and the length .NET reports for it.
- `identity.dfy` (`Identity`): user, identity and sign-in results, and the collaborators.
- `http.dfy` (`Http`): the replies and their status codes.
- `account_controller.dfy` (`AccountController`): the three endpoints.
- `create_pipeline.dfy` (`CreatePipeline`): a generic ordered, short-circuiting
  validator, and the proof that `Create` is one.
- `account_properties.dfy` (`AccountProperties`): properties of the endpoints.

Behaviour of the code worth knowing:
- An unknown email at login is a 400 with the message "Account with that
  email could not be found" (line 50).
- The username limit at line 99 counts what `String.Length` counts: UTF-16
  code units, not characters. A username of 9 characters outside the Basic
  Multilingual Plane (most emoji) is 18 code units and is rejected. Dafny's
  `char` is a Unicode scalar value, so `Text.Utf16Length` counts such
  characters twice.
- Roles are returned as the list `GetRolesAsync` gives (line 75).
- In a restricted deployment the access code is redeemed (line 91) before the
  username and password are checked (lines 99-107). A request that then fails
  those checks has spent its code without creating an account
  (`CodeSpentOnRejectedRequest`).

## Model

| member | source | states |
|---|---|---|
| AccountController.Login | QROrganizer.Web/Api/AccountController.cs:43-84 | The account is looked up by the request's email first. An unknown email gives a 400 with "Account with that email could not be found" and no other call. For a known account there are exactly three calls: the lookup, one sign-in attempt for the stored user with the request's password, then the role lookup after a success or the email-confirmation check after a failure. No access-code, creation or sign-out call is ever made. The reply is 200 exactly when that attempt returns a succeeded result; the 200 carries the stored user's email and its roles, and roles are fetched on that path only. A null or failed sign-in gives a 400 "Email is not verified - click link in email" when the email is unconfirmed, otherwise a 401 with no detail. |
| AccountController.Create | QROrganizer.Web/Api/AccountController.cs:86-123 | The access-code service is called exactly when the deployment is restricted, as the first call, with the request's code. A rejected code gives a 400 carrying the service's error unchanged, and nothing else is called. Past the gate, a username over 16 code units gives a 400 with "Username must be 16 characters or less". Past that, mismatched passwords give a bare 401. The user is created exactly when all checks pass, with the request's email, username and password, and no other call is ever made. A failed creation gives a 401 wrapping the identity result; a successful one gives an empty 200. |
| AccountController.Logout | QROrganizer.Web/Api/AccountController.cs:125-130 | Logout always answers an empty 200 after one sign-out call. |
| Text.Utf16Length | QROrganizer.Web/Api/AccountController.cs:99 | The length `String.Length` reports lies between the number of characters and twice that number. It equals the number of characters exactly when every character is in the Basic Multilingual Plane. |
| Text.EncodeChar | QROrganizer.Web/Api/AccountController.cs:99 | One character becomes one code unit equal to itself when it is in the Basic Multilingual Plane, otherwise a high surrogate then a low surrogate that together determine it, as in section 2.1 of RFC 2781. |
| Text.Utf16LengthIsEncodedLength | QROrganizer.Web/Api/AccountController.cs:99 | `Utf16Length` equals the number of code units in the UTF-16 encoding of the text, which is what `String.Length` counts. |
| Text.Utf16LengthAppend | QROrganizer.Web/Api/AccountController.cs:99 | The code-unit length of a concatenation is the sum of the lengths of its parts. |
| CreatePipeline.Run | QROrganizer.Web/Api/AccountController.cs:89-122 | Reference semantics of an ordered validator. If no step fails, the reply is the success value after every step's call. Otherwise the first failing step's reply is returned, and only the calls of the steps up to and including it are made. |
| CreatePipeline.CreateIsPipeline | QROrganizer.Web/Api/AccountController.cs:89-122 | `Create` is exactly that validator run over its checks in source order: access code (restricted deployments only), username length, password confirmation, then user creation, ending in an empty 200. |
| AccountProperties.OpenDeploymentIgnoresAccessCode | QROrganizer.Web/Api/AccountController.cs:89-97 | When the deployment is not restricted, the access-code service is never called. Changing the submitted code or the service changes neither the reply nor the calls. |
| AccountProperties.RestrictedCreationNeedsAcceptedCode | QROrganizer.Web/Api/AccountController.cs:89-115 | In a restricted deployment, an account is created only if the service accepted the request's code. The calls are then exactly that redemption followed by the creation. |
| AccountProperties.CodeSpentOnRejectedRequest | QROrganizer.Web/Api/AccountController.cs:89-107 | Take a restricted deployment whose service accepts the code, and a request that then fails the username or password check. The code was still redeemed, no account was created and the reply is not 200. |
| AccountProperties.UsernameBoundary | QROrganizer.Web/Api/AccountController.cs:99-105 | For usernames of single-code-unit characters, the username passes the length check exactly when it has at most 16 characters: 16 pass, 17 fail. |
| AccountProperties.UsernameBounds | QROrganizer.Web/Api/AccountController.cs:99 | Whatever the characters, a username of at most 8 characters always passes the length check, and one of more than 16 never does. |
| AccountProperties.AstralUsername | QROrganizer.Web/Api/AccountController.cs:99 | A username made only of characters outside the Basic Multilingual Plane passes exactly when it has at most 8 characters. |
| AccountProperties.MixedUsername | QROrganizer.Web/Api/AccountController.cs:99-105 | Take a username of single-unit characters followed by characters outside the Basic Multilingual Plane. It passes exactly when the first count plus twice the second is at most 16. So 2 letters and 7 such characters pass, and 2 letters and 8 do not. |
| AccountProperties.CreateUsernameBoundary | QROrganizer.Web/Api/AccountController.cs:99-105 | At the endpoint, once past the access-code gate, a 17-character username gets the length message and no creation call. A 16-character username never gets the length message. |
| AccountProperties.PasswordMismatchIsUnauthorized | QROrganizer.Web/Api/AccountController.cs:107 | Mismatched passwords never lead to a creation call or a 200. Once the earlier checks pass, they give a 401 with no detail and never a 400. |
| AccountProperties.CreateStatus | QROrganizer.Web/Api/AccountController.cs:89-122 | `Create` answers 400 exactly when the code is rejected or the username is too long. It answers 401 exactly when those pass and then the passwords differ or creation fails. It answers 200 exactly when every check passes and creation succeeds. |
| AccountProperties.LoginStatus | QROrganizer.Web/Api/AccountController.cs:46-83 | `Login` answers 400 exactly when the email is unknown, or sign-in fails and the email is unconfirmed. It answers 401 exactly when the account exists, sign-in fails and the email is confirmed. It answers 200 exactly when sign-in succeeds. |
| AccountProperties.LoginUnauthorizedHasNoDetail | QROrganizer.Web/Api/AccountController.cs:62-73 | A 401 from `Login` never carries a body. |
| AccountProperties.LoginIgnoresRegistrationFields | QROrganizer.Web/Api/AccountController.cs:44-83 | `Login` reads only the email and password of the request. It does not depend on the username, the confirmation, the access code, the restricted flag, the access-code service or user creation. |

## Left out

- Constructor null-argument guards (`AccountController.cs:37-40`), dependency injection, async/await, HTTP routing and JSON binding: plumbing with no decision logic.
- Null request strings: every field of `LoginCredentials` is a non-null string here. The code would throw on a null `Username` at line 99, and would pass a null access code to the service unchanged.
- Lone UTF-16 surrogates in request strings: a Dafny `char` is a Unicode scalar value, so such strings cannot be written in the model.
- The access-code service's implementation: lookup, expiry, single use, and atomic redemption under concurrent requests. It is not part of this model; the service is an arbitrary function from code to optional error.
- The shape of the access-code service's error object. It is opaque here (`Identity.AccessCodeError`); the model only shows that it is passed through unchanged.
- ASP.NET Identity internals: password hashing, email normalisation in `FindByEmailAsync`, cookie issuance, lockout, and the sign-in flags other than `Succeeded`. These are framework code and appear only through their answers. The constant `isPersistent = false` and `lockoutOnFailure = false` arguments at lines 56-60 are not modelled.
- State shared between requests: each collaborator is a function of its arguments within one request. Sequences of requests against a changing user store or access-code store are not modelled.
- `QROrganizer.Data/Models/SubscriptionLevel.cs`: an entity with no behaviour. Its non-empty-name rule is a data annotation enforced by the framework.
- `QROrganizer.Web/src/store/index.ts`: store wiring for the user interface, with no logic.
