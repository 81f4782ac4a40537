# keycloak-waverifyplus, modelled in Dafny

This project models the identity-verification plugins of keycloak-waverifyplus, a set of Keycloak extensions. It covers these modules:

- `authenticator-demographic`:
  - the token authenticator and the per-user login token;
  - the login-link email;
  - the no-op authenticator;
  - the PIN credential, its provider, its authenticator and its required action;
  - the demographic data helper;
  - the registration form action;
  - the demographic authenticator, its verification service, its JSON codec and its factory.
- `authenticator-pin`: its two PIN credential forms, the provider, the authenticator and the two required actions.
- `spi-demographic`: the authenticator and the verification service.
- `demographic-spi`: the provider, the codec and the `DemographicData` value class.

Keycloak's side is modelled as plain values:

- the user store is a sequence of `User` records;
- authentication-session notes are a map;
- form and query parameters are a multimap read with `getFirst`;
- one flow step is the list of calls it makes on the flow context (`challenge`, `success`, `failure`, `setUser`, a cookie), plus the exception it throws, if any.

Java `null` is `Option`, and a thrown exception is a `Result` error. The SHA-256 digest, the random bytes, the clock, fresh ids, the HTTP exchange with the verifier and the provider registry's choice between two factories are all parameters.

The library behaviour the plugins rely on is written out in full, so that the round trips can be proved rather than assumed:

- Base64url without padding;
- UTF-8;
- `URLEncoder`;
- a JSON writer and parser;
- Jackson's one-property bean binding;
- `Integer.parseInt`;
- `String.hashCode` and `Arrays.hashCode` with 32-bit wrap-around.

Three facts about the code that a reader might not expect:

- `createPin` accepts an empty or null PIN;
- registering a PIN always adds a new credential and never updates an existing one;
- the `authenticator-pin` required action looks the provider up under `"PIN"` (see Findings).

Some call sites do not match the code they call, and the model takes a position on each:

- `DemographicAuthenticatorImpl` (`modules/authenticator-demographic/src/main/java/edu/uw/waverify/demographic/authenticator/DemographicAuthenticatorImpl.java:38`) calls a `(session, baseUrl)` constructor that the service does not declare.
- The factory's `create` passes a service where that constructor takes a base URL.
- The factory's `create` (`modules/authenticator-demographic/src/main/java/edu/uw/waverify/demographic/authenticator/DemographicAuthenticatorFactory.java:62`) builds the service with a `session` argument, while `DemographicVerificationServiceImpl` (`modules/authenticator-demographic/src/main/java/edu/uw/waverify/demographic/authenticator/verification/DemographicVerificationServiceImpl.java:27`) declares only a no-argument constructor.

In all three cases the model treats the authenticator as holding a verification service, which is how the factory uses it. The registration action stores the date of birth under the note `dob`, while the helper's `saveUser` reads `dateOfBirth`. Both are modelled as written.

## Model

| member | source | states |
|---|---|---|
| UserTokens.SecureNonce | modules/authenticator-demographic/src/main/java/edu/uw/waverify/token/UserTokenGenerator.java:41-49 | the nonce is 22 URL-safe Base64 symbols from which the 16 random bytes can be recovered |
| UserTokens.HashUserToken | modules/authenticator-demographic/src/main/java/edu/uw/waverify/token/UserTokenGenerator.java:61-74 | the token is 43 URL-safe symbols that decode to the SHA-256 of the UTF-8 bytes of `userId:nonce` |
| UserTokens.SameTokenSameDigest | modules/authenticator-demographic/src/main/java/edu/uw/waverify/token/UserTokenGenerator.java:61-74 | two equal tokens come only from colliding digests of their `userId:nonce` texts |
| UserTokens.RetrieveStoredToken | modules/authenticator-demographic/src/main/java/edu/uw/waverify/token/UserTokenGenerator.java:84-90 | a token is returned exactly when both attributes are present, made of their first values; otherwise null |
| UserTokens.StoreTokenInUser | modules/authenticator-demographic/src/main/java/edu/uw/waverify/token/UserTokenGenerator.java:102-107 | the nonce and token attributes become single-valued, and no other attribute or user field changes |
| UserTokens.GenerateAndStoreToken | modules/authenticator-demographic/src/main/java/edu/uw/waverify/token/UserTokenGenerator.java:26-34 | the returned pair is the fresh nonce and the user's hash of it, and both are stored on the user |
| UserTokens.RetrieveGenerated | modules/authenticator-demographic/src/main/java/edu/uw/waverify/token/UserTokenGenerator.java:26-34 | after generation, retrieval gives back exactly the generated token, and that token is bound to the user's id |
| UserTokens.StoreRetrievedIdempotent | modules/authenticator-demographic/src/main/java/edu/uw/waverify/token/UserTokenGenerator.java:84-107 | storing a retrieved single-valued token again leaves the user unchanged |
| UserTokens.TokenNotBlank | modules/authenticator-demographic/src/main/java/edu/uw/waverify/token/UserTokenGenerator.java:68-70 | a non-empty Base64url token is never blank, so the authenticator's blank check never rejects it |
| TokenAuthenticator.Authenticate | modules/authenticator-demographic/src/main/java/edu/uw/waverify/token/TokenAuthenticator.java:34-59 | a null or blank `user_token` fails with INVALID_CREDENTIALS; otherwise the step succeeds iff some user holds the token, and then that holder is set as the user |
| TokenAuthenticator.Action | modules/authenticator-demographic/src/main/java/edu/uw/waverify/token/TokenAuthenticator.java:70-75 | a form submission is handled exactly like `authenticate` |
| TokenAuthenticator.RequiresUser | modules/authenticator-demographic/src/main/java/edu/uw/waverify/SimpleAuthenticator.java:26-31 | the step runs before any user is identified |
| TokenAuthenticator.ConfiguredFor | modules/authenticator-demographic/src/main/java/edu/uw/waverify/token/TokenAuthenticator.java:89-94 | every user counts as configured |
| TokenAuthenticator.StoredTokenIdentifiesUser | modules/authenticator-demographic/src/main/java/edu/uw/waverify/token/TokenAuthenticator.java:108-115 | a user whose freshly generated token no other user holds is the user identified by a link carrying that token |
| LoginLink.SendLoginEmail | modules/authenticator-demographic/src/main/java/edu/uw/waverify/demographic/identification/EmailLoginLinkGenerator.java:61-115 | a user with a null or blank email is skipped and unchanged; a missing authentication session throws before any token is read or stored; an existing token is reused, otherwise one is generated and stored; a missing redirect URI then throws; a sent link carries the client, redirect URI and stored token; a mailer failure is swallowed |
| LoginLink.ReadsBack | modules/authenticator-demographic/src/main/java/edu/uw/waverify/demographic/identification/EmailLoginLinkGenerator.java:25 | the link is the realm's auth endpoint followed by four fields, and the four fields read back as the decoded client id, redirect URI and token |
| LoginLink.LinkCarriesStoredToken | modules/authenticator-demographic/src/main/java/edu/uw/waverify/demographic/identification/EmailLoginLinkGenerator.java:80-91 | the `user_token` field of a sent link decodes to the hashed token stored on the user |
| NoopAuthenticator.Authenticate | modules/authenticator-demographic/src/main/java/edu/uw/waverify/noop/authenticator/NoopAuthenticator.java:28-35 | the step only presents the no-op challenge page and never succeeds |
| NoopAuthenticator.Action | modules/authenticator-demographic/src/main/java/edu/uw/waverify/noop/authenticator/NoopAuthenticator.java:43-50 | any submission gets the same challenge as `authenticate` |
| NoopAuthenticator.ConfiguredFor | modules/authenticator-demographic/src/main/java/edu/uw/waverify/noop/authenticator/NoopAuthenticator.java:64-69 | every user counts as configured |
| NoopAuthenticator.RequiresUser | modules/authenticator-demographic/src/main/java/edu/uw/waverify/SimpleAuthenticator.java:26-31 | the step runs before any user is identified |
| NoopAuthenticator.NeverPasses | modules/authenticator-demographic/src/main/java/edu/uw/waverify/noop/authenticator/NoopAuthenticator.java:11-17 | over any sequence of calls the authenticator only re-challenges: one challenge per call, and never success or failure |
| PinCredentials.NewPin | modules/authenticator-demographic/src/main/java/edu/uw/waverify/pin/credential/PinCredentialModel.java:34-38 | the string constructor sets only the PIN bean |
| PinCredentials.CreatePin | modules/authenticator-demographic/src/main/java/edu/uw/waverify/pin/credential/PinCredentialModel.java:95-119 | the credential has type PIN, is dated now, and has the bean's JSON as its secret blob; id, label and credential data are unset |
| PinCredentials.FromCredential | modules/authenticator-demographic/src/main/java/edu/uw/waverify/pin/credential/PinCredentialModel.java:66-82 | null gives a null pointer; a null secret gives an illegal argument; an unreadable secret gives a wrapped runtime error; otherwise the fields are copied, the type is forced to PIN and the bean is decoded |
| PinCredentials.PinOf | modules/authenticator-demographic/src/main/java/edu/uw/waverify/pin/credential/PinCredentialModel.java:126-130 | the PIN of a model whose bean is null throws a null pointer; otherwise it is the bean's value |
| PinCredentials.FromCreatePin | modules/authenticator-pin/src/main/java/edu/uw/waverify/pin/credential/PinCredentialModel.java:30-54 | a created PIN credential decodes to itself, and its PIN is the answer it was created with |
| PinCredentials.FromCredentialForcesType | modules/authenticator-demographic/src/main/java/edu/uw/waverify/pin/credential/PinCredentialModel.java:66-82 | decoding ignores the stored credential type |
| PinCredentials.CreateQuestionPin | modules/authenticator-pin/src/main/java/edu/uw/waverify/authenticator/pin/credential/PinCredentialModel.java:54-73 | the question is written to the credential-data blob and the answer to the secret blob, with type PIN and the given date |
| PinCredentials.FromQuestionCredential | modules/authenticator-pin/src/main/java/edu/uw/waverify/authenticator/pin/credential/PinCredentialModel.java:34-52 | null gives a null pointer; otherwise both blobs are decoded, the question first, and a failure of either is reported |
| PinCredentials.FromCreateQuestionPin | modules/authenticator-pin/src/main/java/edu/uw/waverify/authenticator/pin/credential/PinCredentialModel.java:20-60 | a created question credential decodes back to its question and answer |
| PinProvider.Supports | modules/authenticator-demographic/src/main/java/edu/uw/waverify/pin/PinCredentialProvider.java:135-140 | a credential type is supported iff it is exactly `"PIN"` |
| PinProvider.IsConfiguredFor | modules/authenticator-demographic/src/main/java/edu/uw/waverify/pin/PinCredentialProvider.java:154-165 | the result is true iff the type is PIN and the user stores a PIN credential |
| PinProvider.IsValid | modules/authenticator-demographic/src/main/java/edu/uw/waverify/pin/PinCredentialProvider.java:179-201 | another kind of input, another type or a null response is false; a null type throws; otherwise the stored credential with the input's id decides: a malformed or PIN-less one throws, and the result is true iff its stored PIN equals the response |
| PinProvider.CreateCredential | modules/authenticator-demographic/src/main/java/edu/uw/waverify/pin/PinCredentialProvider.java:59-68 | a missing creation date is stamped with now; the credential is appended to the user's credentials under a fresh id; nothing else changes |
| PinProvider.UpdateCredential | modules/authenticator-demographic/src/main/java/edu/uw/waverify/pin/PinCredentialProvider.java:213-221 | a missing creation date is stamped, the stored credential with the model's id is replaced, and the number of credentials is kept |
| PinProvider.DeleteCredential | modules/authenticator-demographic/src/main/java/edu/uw/waverify/pin/PinCredentialProvider.java:82-88 | the result is true iff a credential with that id existed; exactly the credentials with other ids remain |
| PinProvider.DefaultCredential | modules/authenticator-demographic/src/main/java/edu/uw/waverify/pin/PinAuthenticator.java:172-173 | the user's first PIN credential, decoded, or null when the user has none |
| PinProvider.RegisteredPinValidates | modules/authenticator-pin/src/main/java/edu/uw/waverify/pin/PinCredentialProvider.java:31-113 | right after a PIN is registered, the user is configured for PIN and a response is valid iff it equals the PIN |
| PinRequiredActions.Resolve | modules/authenticator-demographic/src/main/java/edu/uw/waverify/pin/PinCredentialProviderFactory.java:24 | a provider is found iff a factory is registered under that exact id |
| PinRequiredActions.PinModuleRegistry | modules/authenticator-pin/src/main/java/edu/uw/waverify/pin/PinCredentialProviderFactory.java:12 | the module registers credential providers under `"pin"` only, with one of its two factories winning |
| PinRequiredActions.Challenge | modules/authenticator-demographic/src/main/java/edu/uw/waverify/pin/PinRequiredAction.java:56-63 | the action presents the `pin-config.ftl` form and nothing else |
| PinRequiredActions.CredentialType | modules/authenticator-demographic/src/main/java/edu/uw/waverify/pin/PinRequiredAction.java:96-101 | the registered credential type is PIN |
| PinRequiredActions.EvaluateTriggers | modules/authenticator-demographic/src/main/java/edu/uw/waverify/pin/PinRequiredAction.java:44-48 | evaluating triggers changes nothing |
| PinRequiredActions.Register | modules/authenticator-demographic/src/main/java/edu/uw/waverify/pin/PinRequiredAction.java:79-83 | no provider throws a null pointer; a provider of another class throws a class cast; otherwise the credential is stored and the action succeeds |
| PinRequiredActions.DemographicProcessAction | modules/authenticator-demographic/src/main/java/edu/uw/waverify/pin/PinRequiredAction.java:71-84 | with the PIN provider registered, the submitted `pin` is stored as a new PIN credential and the action succeeds; with none, it throws |
| PinRequiredActions.DemographicRegisters | modules/authenticator-demographic/src/main/java/edu/uw/waverify/pin/PinRequiredAction.java:71-84 | against the module's own registry, the user gains one PIN credential carrying the submitted PIN |
| PinRequiredActions.DemographicRegistersTwice | modules/authenticator-demographic/src/main/java/edu/uw/waverify/pin/PinRequiredAction.java:71-84 | registering twice leaves two more PIN credentials, not one replaced |
| PinRequiredActions.PinModuleProcessActionAsWritten | modules/authenticator-pin/src/main/java/edu/uw/waverify/pin/PinRequiredAction.java:41-52 | the provider is looked up under `"PIN"`; when none is found the action throws a null pointer and changes nothing |
| PinRequiredActions.PinModuleAsWrittenAlwaysThrows | modules/authenticator-pin/src/main/java/edu/uw/waverify/pin/PinRequiredAction.java:48-49 | against the module's registry, whichever factory wins, the as-written action always throws and never stores the PIN |
| PinRequiredActions.PinModuleProcessAction | modules/authenticator-pin/src/main/java/edu/uw/waverify/pin/PinRequiredAction.java:41-52 | looked up under the registered id `"pin"`, the PIN provider stores the submitted PIN and the action succeeds |
| PinRequiredActions.PinModuleRegisters | modules/authenticator-pin/src/main/java/edu/uw/waverify/pin/PinRequiredAction.java:41-52 | against the module's registry, the corrected action adds one PIN credential carrying the submitted PIN |
| PinRequiredActions.CreateQuestionCredential | modules/authenticator-pin/src/main/java/edu/uw/waverify/authenticator/pin/PinRequiredAction.java:46-48 | the question credential is stamped and appended like any other PIN credential |
| PinRequiredActions.QuestionProcessAction | modules/authenticator-pin/src/main/java/edu/uw/waverify/authenticator/pin/PinRequiredAction.java:39-50 | with the question provider registered under `"pin"`, the fixed question and the submitted answer are stored and the action succeeds |
| PinRequiredActions.QuestionRegisters | modules/authenticator-pin/src/main/java/edu/uw/waverify/authenticator/pin/PinRequiredAction.java:39-50 | the stored credential decodes to the fixed question and the submitted answer |
| PinAuthenticators.CookieMaxAge | modules/authenticator-demographic/src/main/java/edu/uw/waverify/pin/PinAuthenticator.java:129-157 | with no configuration the age is 30 days; otherwise it is the configured value parsed as a Java int, and a malformed value throws NumberFormatException |
| PinAuthenticators.ConfiguredMaxAge | modules/authenticator-demographic/src/main/java/edu/uw/waverify/pin/PinAuthenticator.java:136-137 | a configured decimal age within int range is used as is |
| PinAuthenticators.CookieThenSuccess | modules/authenticator-pin/src/main/java/edu/uw/waverify/pin/PinAuthenticator.java:101-127 | the step succeeds iff the max age parses, and then the `PIN_ANSWERED` cookie is set before success |
| PinAuthenticators.DemographicAuthenticate | modules/authenticator-demographic/src/main/java/edu/uw/waverify/pin/PinAuthenticator.java:18-45 | with no user the step fails with UNKNOWN_USER; otherwise the PIN login page is shown; the step never succeeds |
| PinAuthenticators.DemographicValidateAnswer | modules/authenticator-demographic/src/main/java/edu/uw/waverify/pin/PinAuthenticator.java:159-189 | a missing or empty PIN, a user without a PIN credential, or a default credential with a null or empty id is false; an error reading the default credential escapes; otherwise the answer is the provider's `isValid` on that credential's id and the submitted PIN |
| PinAuthenticators.DemographicAction | modules/authenticator-demographic/src/main/java/edu/uw/waverify/pin/PinAuthenticator.java:47-70 | an accepted answer sets the cookie and succeeds, a rejected one re-challenges with an error, and a validation exception escapes with no call on the context; the step succeeds iff there is a user, the answer validates and the cookie can be set |
| PinAuthenticators.DemographicRequiresUser | modules/authenticator-demographic/src/main/java/edu/uw/waverify/pin/PinAuthenticator.java:72-77 | the step runs before any user is identified |
| PinAuthenticators.DemographicConfiguredFor | modules/authenticator-demographic/src/main/java/edu/uw/waverify/pin/PinAuthenticator.java:79-84 | a user is configured iff they store a PIN credential |
| PinAuthenticators.DemographicSetRequiredActions | modules/authenticator-demographic/src/main/java/edu/uw/waverify/pin/PinAuthenticator.java:96-100 | no required action is added |
| PinAuthenticators.DemographicRegisteredPinAccepted | modules/authenticator-demographic/src/main/java/edu/uw/waverify/pin/PinAuthenticator.java:159-189 | after the required action registers a user's first PIN, the authenticator accepts a non-empty attempt iff it equals that PIN |
| PinAuthenticators.PinModuleAuthenticate | modules/authenticator-pin/src/main/java/edu/uw/waverify/pin/PinAuthenticator.java:16-27 | the step succeeds at once iff the `PIN_ANSWERED` cookie is present; otherwise the PIN page is shown |
| PinAuthenticators.ProviderFault | modules/authenticator-pin/src/main/java/edu/uw/waverify/pin/PinAuthenticator.java:80-85 | obtaining the provider succeeds iff the `"pin"` entry is this module's provider class; a missing entry is a null-pointer exception and any other class a failed cast |
| PinAuthenticators.PinModuleValidateAnswer | modules/authenticator-pin/src/main/java/edu/uw/waverify/pin/PinAuthenticator.java:129-143 | a provider that cannot be obtained throws first; the credential named by a non-empty `credentialId` is checked, otherwise the default credential's id is used, and a user without one throws a null-pointer exception; the answer is the provider's `isValid` on that id and the submitted PIN |
| PinAuthenticators.PinModuleAction | modules/authenticator-pin/src/main/java/edu/uw/waverify/pin/PinAuthenticator.java:29-43 | an accepted answer sets the cookie and succeeds, a rejected one re-challenges with an error, and a validation exception (including a failed provider cast) escapes with no call on the context; the step succeeds iff the answer validates and the cookie can be set |
| PinAuthenticators.PinModuleRequiresUser | modules/authenticator-pin/src/main/java/edu/uw/waverify/pin/PinAuthenticator.java:45-50 | the step needs an identified user |
| PinAuthenticators.PinModuleConfiguredFor | modules/authenticator-pin/src/main/java/edu/uw/waverify/pin/PinAuthenticator.java:52-57 | a provider that cannot be obtained throws; otherwise a user is configured iff they store a PIN credential |
| PinAuthenticators.PinModuleSetRequiredActions | modules/authenticator-pin/src/main/java/edu/uw/waverify/pin/PinAuthenticator.java:59-64 | the `pin_config` required action is added and nothing else changes |
| PinAuthenticators.SetRequiredActionsIdempotent | modules/authenticator-pin/src/main/java/edu/uw/waverify/pin/PinAuthenticator.java:59-64 | adding the required action twice is the same as once, and its id is the required action's provider id |
| PinAuthenticators.ActionCookieBypassesAuthenticate | modules/authenticator-pin/src/main/java/edu/uw/waverify/pin/PinAuthenticator.java:16-43 | a successful action sets the cookie that lets the next `authenticate` succeed without a challenge |
| PinAuthenticators.QuestionWinnerBreaksAuthenticator | modules/authenticator-pin/src/main/java/edu/uw/waverify/pin/PinAuthenticator.java:29-85 | when the question provider's factory wins the `"pin"` id, every `action` and `configuredFor` throws a failed cast |
| PinAuthenticators.PinModuleRegisteredPinAccepted | modules/authenticator-pin/src/main/java/edu/uw/waverify/pin/PinAuthenticator.java:129-143 | after a PIN is registered, the action succeeds for an attempt iff it equals that PIN |
| AuthSessions.SetNote | modules/authenticator-demographic/src/main/java/edu/uw/waverify/demographic/authenticator/verification/DemographicDataHelper.java:138-146 | the note reads back as set, with null removing it, and every other note is unchanged |
| AuthSessions.RemoveNote | modules/authenticator-demographic/src/main/java/edu/uw/waverify/demographic/registration/DemographicRegistrationFormAction.java:54 | the note is gone and every other note is unchanged |
| DemographicDataHelper.ExtractFromRequest | modules/authenticator-demographic/src/main/java/edu/uw/waverify/demographic/authenticator/verification/DemographicDataHelper.java:23-35 | each field is the first value of the same-named form parameter |
| DemographicDataHelper.ExtractFromSession | modules/authenticator-demographic/src/main/java/edu/uw/waverify/demographic/authenticator/verification/DemographicDataHelper.java:45-55 | each field is the same-named session note |
| DemographicDataHelper.StoreInAuthSession | modules/authenticator-demographic/src/main/java/edu/uw/waverify/demographic/authenticator/verification/DemographicDataHelper.java:138-146 | extracting from the session gives back exactly the stored data, and other notes are untouched |
| DemographicDataHelper.IsValid | modules/authenticator-demographic/src/main/java/edu/uw/waverify/demographic/authenticator/verification/DemographicDataHelper.java:79-85 | valid iff the data is present and its names, date of birth, email and PIN are all non-blank |
| DemographicDataHelper.SaveUser | modules/authenticator-demographic/src/main/java/edu/uw/waverify/demographic/authenticator/verification/DemographicDataHelper.java:99-128 | a null or blank email throws; an existing holder of the email is reused, else a new enabled user with a verified email and the realm's default required actions is added; the names and date of birth are then written |
| DemographicDataHelper.Profiled | modules/authenticator-demographic/src/main/java/edu/uw/waverify/demographic/authenticator/verification/DemographicDataHelper.java:118-125 | only the names and the `dateOfBirth` attribute change |
| DemographicDataHelper.SaveUserOneHolder | modules/authenticator-demographic/src/main/java/edu/uw/waverify/demographic/authenticator/verification/DemographicDataHelper.java:99-116 | from a store where at most one user has the email, saving leaves exactly one |
| DemographicDataHelper.SaveUserTwice | modules/authenticator-demographic/src/main/java/edu/uw/waverify/demographic/authenticator/verification/DemographicDataHelper.java:99-116 | saving twice with the same email reaches the same user and creates no second one |
| DemographicDataHelper.ValidDataSaves | modules/authenticator-demographic/src/main/java/edu/uw/waverify/demographic/authenticator/verification/DemographicDataHelper.java:79-128 | data that passes `isValid` and is stored in the session can always be saved |
| Registration.BuildPage | modules/authenticator-demographic/src/main/java/edu/uw/waverify/demographic/registration/DemographicRegistrationFormAction.java:29-34 | the page gets `demographicRequired = true` |
| Registration.Validate | modules/authenticator-demographic/src/main/java/edu/uw/waverify/demographic/registration/DemographicRegistrationFormAction.java:42-73 | the form is accepted iff the four fields are non-empty; the session id note is always removed; on success the fields are copied into notes and nothing else changes |
| Registration.WhitespaceFieldsPass | modules/authenticator-demographic/src/main/java/edu/uw/waverify/demographic/registration/DemographicRegistrationFormAction.java:56-61 | fields made of spaces pass validation, because only emptiness is checked |
| Registration.Lookup | modules/authenticator-demographic/src/main/java/edu/uw/waverify/demographic/registration/DemographicRegistrationFormAction.java:96-98 | users are found by email when one is given and email login is allowed, else by username |
| Registration.Profiled | modules/authenticator-demographic/src/main/java/edu/uw/waverify/demographic/registration/DemographicRegistrationFormAction.java:110-117 | only the email, the names and the `dob` attribute change |
| Registration.Success | modules/authenticator-demographic/src/main/java/edu/uw/waverify/demographic/registration/DemographicRegistrationFormAction.java:81-120 | with neither username nor email it throws; otherwise the found user, or a new enabled unverified user named by the username or else the email and carrying the realm's default required actions, gets the profile |
| Registration.RequiresUser | modules/authenticator-demographic/src/main/java/edu/uw/waverify/demographic/registration/DemographicRegistrationFormAction.java:127-132 | the action runs before any user is identified |
| Registration.ConfiguredFor | modules/authenticator-demographic/src/main/java/edu/uw/waverify/demographic/registration/DemographicRegistrationFormAction.java:139-144 | every user counts as configured |
| Registration.SetRequiredActions | modules/authenticator-demographic/src/main/java/edu/uw/waverify/demographic/registration/DemographicRegistrationFormAction.java:156-160 | no required action is added |
| Registration.ValidatedFormRegisters | modules/authenticator-demographic/src/main/java/edu/uw/waverify/demographic/registration/DemographicRegistrationFormAction.java:42-120 | a validated form always registers a user carrying the submitted email and names |
| Registration.RegisterAgainFindsSameUser | modules/authenticator-demographic/src/main/java/edu/uw/waverify/demographic/registration/DemographicRegistrationFormAction.java:81-120 | with email login, registering the same email again finds the same user and leaves the store as it was |
| Registration.ProfiledIdempotent | modules/authenticator-demographic/src/main/java/edu/uw/waverify/demographic/registration/DemographicRegistrationFormAction.java:110-117 | writing the same profile twice changes nothing the second time |
| DemographicAuthenticators.ValidateDemographics | modules/authenticator-demographic/src/main/java/edu/uw/waverify/demographic/authenticator/DemographicAuthenticatorImpl.java:106-122 | a null or empty map, or a missing name, is false without asking the service; otherwise the service decides, and a closed service throws |
| DemographicAuthenticators.SpiValidateDemographics | modules/spi-demographic/src/main/java/edu/uw/waverify/spi/demographic/DemographicAuthenticatorImpl.java:100-116 | a null or empty map, or a missing name, is false; otherwise the verifier decides |
| DemographicAuthenticators.ProviderValidateDemographics | modules/demographic-spi/src/main/java/edu/uw/waverify/spi/demographic/DemographicProviderImpl.java:45-61 | a null or empty map or a missing name is false; otherwise the verifier decides for the user id |
| DemographicAuthenticators.FormMap | modules/authenticator-demographic/src/main/java/edu/uw/waverify/demographic/authenticator/DemographicAuthenticatorImpl.java:124-137 | the map holds exactly the first `firstName` and `lastName` form values |
| DemographicAuthenticators.Authenticate | modules/authenticator-demographic/src/main/java/edu/uw/waverify/demographic/authenticator/DemographicAuthenticatorImpl.java:42-51 | the step shows the demographic page with `demographicRequired = true` and does not succeed |
| DemographicAuthenticators.Action | modules/authenticator-demographic/src/main/java/edu/uw/waverify/demographic/authenticator/DemographicAuthenticatorImpl.java:53-66 | the step succeeds iff the names validate; a rejection re-challenges with the failure message |
| DemographicAuthenticators.RequiresUser | modules/authenticator-demographic/src/main/java/edu/uw/waverify/demographic/authenticator/DemographicAuthenticatorImpl.java:68-73 | the step runs before any user is identified |
| DemographicAuthenticators.ConfiguredFor | modules/authenticator-demographic/src/main/java/edu/uw/waverify/demographic/authenticator/DemographicAuthenticatorImpl.java:75-80 | no user counts as configured |
| DemographicAuthenticators.Close | modules/authenticator-demographic/src/main/java/edu/uw/waverify/demographic/authenticator/DemographicAuthenticatorImpl.java:91-96 | closing drops the service |
| DemographicAuthenticators.ActionAfterCloseThrows | modules/authenticator-demographic/src/main/java/edu/uw/waverify/demographic/authenticator/DemographicAuthenticatorImpl.java:91-122 | a submission with both names, after `close`, throws a null pointer |
| DemographicAuthenticators.ActionAgainstHttpService | modules/authenticator-demographic/src/main/java/edu/uw/waverify/demographic/authenticator/verification/DemographicVerificationServiceImpl.java:50-73 | with the HTTP service, the step succeeds iff both names are present and the verifier answers 200 with `valid: true` to the posted names |
| DemographicAuthenticators.SpiAuthenticate | modules/spi-demographic/src/main/java/edu/uw/waverify/spi/demographic/DemographicAuthenticatorImpl.java:38-46 | the step shows the demographic page and then succeeds straight away |
| DemographicAuthenticators.SpiAction | modules/spi-demographic/src/main/java/edu/uw/waverify/spi/demographic/DemographicAuthenticatorImpl.java:48-61 | the step succeeds iff the names validate; otherwise it fails once with a challenge carrying `badSecret` |
| DemographicAuthenticators.SpiRequiresUser | modules/spi-demographic/src/main/java/edu/uw/waverify/spi/demographic/DemographicAuthenticatorImpl.java:63-68 | the step needs an identified user |
| DemographicAuthenticators.SpiConfiguredFor | modules/spi-demographic/src/main/java/edu/uw/waverify/spi/demographic/DemographicAuthenticatorImpl.java:70-75 | no user counts as configured |
| DemographicAuthenticators.MissingNameNeverPasses | modules/spi-demographic/src/main/java/edu/uw/waverify/spi/demographic/DemographicAuthenticatorImpl.java:100-116 | a submission missing either name never passes either authenticator, whatever the verifier says |
| DemographicAuthenticators.ProviderAgainstHttpService | modules/spi-demographic/src/main/java/edu/uw/waverify/spi/demographic/verification/DemographicVerificationServiceImpl.java:53-76 | with the HTTP service, the provider accepts iff both names are present and the verifier accepts the posted `(userId, demographics)` document |
| DemographicCodec.Members | modules/authenticator-demographic/src/main/java/edu/uw/waverify/demographic/authenticator/verification/DemographicDataCodec.java:47-61 | every entry becomes one string member, in order; a null key or value throws |
| DemographicCodec.EncodeFlat | modules/authenticator-demographic/src/main/java/edu/uw/waverify/demographic/authenticator/verification/DemographicDataCodec.java:47-61 | encoding succeeds iff the map is non-null and null-free |
| DemographicCodec.EncodeNested | modules/demographic-spi/src/main/java/edu/uw/waverify/spi/demographic/verification/DemographicDataCodec.java:48-65 | encoding succeeds iff the user id and the map are non-null and the map is null-free |
| DemographicCodec.ReadObject | modules/authenticator-demographic/src/main/java/edu/uw/waverify/demographic/authenticator/verification/DemographicDataCodec.java:25-37 | reading succeeds iff the text parses to a JSON object; otherwise a null pointer or a parsing error |
| DemographicCodec.GetBoolean | modules/authenticator-demographic/src/main/java/edu/uw/waverify/demographic/authenticator/verification/DemographicDataCodec.java:25-37 | a missing member throws a null pointer, a non-boolean one a class cast; otherwise its value |
| DemographicCodec.Decode | modules/demographic-spi/src/main/java/edu/uw/waverify/spi/demographic/verification/DemographicDataCodec.java:24-36 | the result is the one-entry map `{valid}` holding the document's boolean `valid` member |
| DemographicCodec.EncodeFlatRoundTrip | modules/authenticator-demographic/src/main/java/edu/uw/waverify/demographic/authenticator/verification/DemographicDataCodec.java:25-61 | the flat encoding of a null-free map parses back to an object with one string member per entry |
| DemographicCodec.EncodeNestedRoundTrip | modules/demographic-spi/src/main/java/edu/uw/waverify/spi/demographic/verification/DemographicDataCodec.java:24-65 | the nested encoding parses back to the user id and the demographics object |
| DemographicCodec.DecodeVerdictRoundTrip | modules/demographic-spi/src/main/java/edu/uw/waverify/spi/demographic/verification/DemographicDataCodec.java:24-36 | decoding a written `{"valid": b}` gives `{valid: b}` |
| Verification.Decide | modules/authenticator-demographic/src/main/java/edu/uw/waverify/demographic/authenticator/verification/DemographicVerificationServiceImpl.java:52-72 | the body is posted iff encoding succeeds; the verdict is true iff the answer is 200 with boolean `valid` true |
| Verification.Verify | modules/authenticator-demographic/src/main/java/edu/uw/waverify/demographic/authenticator/verification/DemographicVerificationServiceImpl.java:50-73 | the flat encoding of a null-free map is posted, and the verdict is true iff the verifier accepts it |
| Verification.VerifyNested | modules/spi-demographic/src/main/java/edu/uw/waverify/spi/demographic/verification/DemographicVerificationServiceImpl.java:53-76 | the nested encoding is posted when the user id and the map are usable, and the verdict is true iff the verifier accepts it |
| Verification.NonOkIsFalse | modules/authenticator-demographic/src/main/java/edu/uw/waverify/demographic/authenticator/verification/DemographicVerificationServiceImpl.java:61-67 | a status other than 200 is a rejection |
| Verification.UnreachableIsFalse | modules/authenticator-demographic/src/main/java/edu/uw/waverify/demographic/authenticator/verification/DemographicVerificationServiceImpl.java:68-72 | an unreachable verifier is a rejection |
| Verification.MissingValidIsFalse | modules/authenticator-demographic/src/main/java/edu/uw/waverify/demographic/authenticator/verification/DemographicVerificationServiceImpl.java:61-64 | a 200 answer without a boolean `valid` is a rejection |
| Verification.EmptyMapIsPosted | modules/authenticator-demographic/src/main/java/edu/uw/waverify/demographic/authenticator/verification/DemographicVerificationServiceImpl.java:50-73 | an empty map is not checked locally: `{}` is posted and the verifier decides |
| Verification.NullInputsAreFalse | modules/spi-demographic/src/main/java/edu/uw/waverify/spi/demographic/verification/DemographicVerificationServiceImpl.java:53-76 | a null map or user id is a rejection and nothing is posted |
| Verification.PostedBodyCarriesMap | modules/authenticator-demographic/src/main/java/edu/uw/waverify/demographic/authenticator/verification/DemographicVerificationServiceImpl.java:52-59 | the posted body parses to exactly the submitted entries |
| AuthenticatorFactory.Init | modules/authenticator-demographic/src/main/java/edu/uw/waverify/demographic/authenticator/DemographicAuthenticatorFactory.java:77-88 | a configured timeout is accepted iff it is a string of ASCII digits; otherwise it is an illegal argument |
| AuthenticatorFactory.DecimalTimeoutAccepted | modules/authenticator-demographic/src/main/java/edu/uw/waverify/demographic/authenticator/DemographicAuthenticatorFactory.java:82-83 | every decimal timeout is accepted |
| AuthenticatorFactory.MalformedTimeoutsRejected | modules/authenticator-demographic/src/main/java/edu/uw/waverify/demographic/authenticator/DemographicAuthenticatorFactory.java:82-85 | empty, signed, padded and fractional timeouts are rejected |
| AuthenticatorFactory.Create | modules/authenticator-demographic/src/main/java/edu/uw/waverify/demographic/authenticator/DemographicAuthenticatorFactory.java:56-69 | the first `create` builds the shared service and later ones reuse it |
| AuthenticatorFactory.Close | modules/authenticator-demographic/src/main/java/edu/uw/waverify/demographic/authenticator/DemographicAuthenticatorFactory.java:106-111 | closing the factory drops the shared service |
| AuthenticatorFactory.ServiceLifecycle | modules/authenticator-demographic/src/main/java/edu/uw/waverify/demographic/authenticator/DemographicAuthenticatorFactory.java:56-111 | authenticators created before a `close` share one service, and one created after it gets a new one |
| DemographicValues.Equals | modules/demographic-spi/src/main/java/edu/uw/waverify/spi/demographic/DemographicData.java:58-70 | equality holds iff the other object is demographic data with the same five fields |
| DemographicValues.EqualsIsEquivalence | modules/demographic-spi/src/main/java/edu/uw/waverify/spi/demographic/DemographicData.java:58-70 | `equals` is reflexive, symmetric and transitive |
| DemographicValues.HashCode | modules/demographic-spi/src/main/java/edu/uw/waverify/spi/demographic/DemographicData.java:51-56 | the hash is a Java int, and equal objects hash alike |
| DemographicValues.DefaultHash | modules/demographic-spi/src/main/java/edu/uw/waverify/spi/demographic/DemographicData.java:20-56 | the no-argument object hashes to `Arrays.hashCode` of five nulls, 28629151 |
| DemographicValues.ToString | modules/demographic-spi/src/main/java/edu/uw/waverify/spi/demographic/DemographicData.java:72-77 | the text is 84 characters longer than the fields; it opens with `DemographicData{firstName='` and ends with `'}`, and each field, shown as `null` when unset, sits right after its own label (`', lastName='`, `', dateOfBirth='`, `', email='`, `', phoneNumber='`) at the offset the earlier fields fix |
| DemographicValues.SetFirstName | modules/demographic-spi/src/main/java/edu/uw/waverify/spi/demographic/DemographicData.java:123-127 | only the first name changes |
| DemographicValues.SetLastName | modules/demographic-spi/src/main/java/edu/uw/waverify/spi/demographic/DemographicData.java:129-133 | only the last name changes |
| DemographicValues.SetDateOfBirth | modules/demographic-spi/src/main/java/edu/uw/waverify/spi/demographic/DemographicData.java:109-113 | only the date of birth changes |
| DemographicValues.SetEmail | modules/demographic-spi/src/main/java/edu/uw/waverify/spi/demographic/DemographicData.java:115-119 | only the email changes |
| DemographicValues.SetPhoneNumber | modules/demographic-spi/src/main/java/edu/uw/waverify/spi/demographic/DemographicData.java:135-139 | only the phone number changes |
| DemographicValues.SettersBuildConstructed | modules/demographic-spi/src/main/java/edu/uw/waverify/spi/demographic/DemographicData.java:39-139 | setting the five fields on a default object gives the same object as the five-argument constructor |
| Base64Url.DecodeEncode | modules/authenticator-demographic/src/main/java/edu/uw/waverify/token/UserTokenGenerator.java:46-48 | unpadded URL-safe Base64 text decodes back to the bytes it encodes |
| Base64Url.EncodeInjective | modules/authenticator-demographic/src/main/java/edu/uw/waverify/token/UserTokenGenerator.java:68-70 | different digests never give the same token text |
| Utf8.DecodeEncode | modules/authenticator-demographic/src/main/java/edu/uw/waverify/token/UserTokenGenerator.java:66-67 | the UTF-8 bytes of `userId:nonce` determine the text, so the digest input is unambiguous |
| UrlEncoding.DecodeEncode | modules/authenticator-demographic/src/main/java/edu/uw/waverify/demographic/identification/EmailLoginLinkGenerator.java:86-89 | each percent-encoded link value decodes back to the original |
| UrlEncoding.NoDelimiters | modules/authenticator-demographic/src/main/java/edu/uw/waverify/demographic/identification/EmailLoginLinkGenerator.java:86-89 | an encoded value holds no `&`, `=`, `?`, `#` or `/`, so it cannot break the link's structure |
| JsonText.ParseWriteDocument | modules/authenticator-demographic/src/main/java/edu/uw/waverify/demographic/authenticator/verification/DemographicDataCodec.java:47-61 | any written JSON document without numbers parses back to itself |
| JacksonBeans.ReadWriteBean | modules/authenticator-demographic/src/main/java/edu/uw/waverify/pin/credential/PinCredentialModel.java:66-101 | a bean written to a blob reads back as the same bean |
| JavaText.JavaDigit | modules/authenticator-demographic/src/main/java/edu/uw/waverify/pin/PinAuthenticator.java:136-137 | `Character.digit(c, 10)`: a digit iff the code unit lies in one of the 37 runs of Unicode decimal digits of the Basic Multilingual Plane, with a value below 10; ASCII digits keep their value and nothing below `0` is a digit |
| JavaText.ParseInt | modules/authenticator-demographic/src/main/java/edu/uw/waverify/pin/PinAuthenticator.java:136-137 | `Integer.parseInt`: null, empty, a lone sign, a non-digit or a value outside the int range is a NumberFormatException; otherwise the digits of any script after an optional sign give the number |
| JavaText.AsciiDigitsAgree | modules/authenticator-demographic/src/main/java/edu/uw/waverify/pin/PinAuthenticator.java:136-137 | on ASCII digits the Unicode-aware reading gives the plain decimal value |
| JavaText.FullwidthDigitParses | modules/authenticator-demographic/src/main/java/edu/uw/waverify/pin/PinAuthenticator.java:136-137 | a fullwidth digit parses to its value |
| JavaText.ParseIntOfDecimal | modules/authenticator-demographic/src/main/java/edu/uw/waverify/pin/PinAuthenticator.java:136-137 | `Integer.parseInt` of a decimal within int range gives the number back |

## Left out

- Template rendering, HTTP responses, the cookie's path and flags, and `setCookieIfAbsent`: only their effect on the flow is modelled, because rendering is Keycloak's.
- Logging and `System.err` output: they have no effect on behaviour.
- SHA-256 and `SecureRandom`: they are parameters, because their internals are not part of the plugins.
- The HTTP client: the verifier exchange is a function parameter, and timeouts are folded into "unreachable".
- JSON numbers are parsed as lexemes only (`JNumber`) and are not in the write/parse round trip, because the codecs only carry strings and booleans.
- Jackson is modelled only for one-property string beans with its default features.
- JsonText.ParseEscape: refuses a `\u` escape of a lone UTF-16 surrogate, which Parsson and Jackson accept as a single `char`. Strings here are sequences of Unicode scalar values, so lone surrogates are not modelled. A verifier reply containing one is therefore read as not valid, where the Java code can read it as valid. Likewise, `getBytes(UTF_8)` of a lone surrogate, which Java writes as `?`, is not modelled.
- New users get the realm's default required actions as the parameter `defaults`. The default roles and groups Keycloak's `addUser` also assigns are not modelled, because the user model has no roles or groups.
- Keycloak's user store is a plain sequence. Username and email uniqueness, lowercasing and search pagination are not modelled, because they are enforced by Keycloak, not the plugins.
- The registry choice between the two `authenticator-pin` credential provider factories registered under `"pin"` is a parameter. Which one Keycloak keeps is decided at deployment.
- `authenticator/pin/PinCredentialProvider.java` is not part of this model. Its `createCredential` is assumed to store the model like the other provider (`PinRequiredActions.CreateQuestionCredential`).
- PinCredentials.QuestionProperty / PinCredentials.AnswerProperty: the bean property names `question` and `answer` of the `authenticator.pin` credential model are assumed, because `PinCredentialData` and `PinSecretData` in `authenticator/pin/credential/dto` are not part of this model; the names follow the constructor arguments `PinCredentialModel` passes them.
- Factory boilerplate, the older `authenticator/demographic` package, the mock verifier and the placeholder verification service in `demographic-spi` are left out: they carry no decision logic.
- `DemographicData` in `authenticator-demographic` is a Lombok value class without hand-written behaviour.
- Concurrency and provider lifecycles beyond the shared-service `close` are not modelled.
- DemographicDataHelper.SaveUserOneHolder: assumes at most one user already holds the email, since the store's uniqueness rule is not modelled.

## Findings

| source | as written | input that shows it | evidently intended | confidence | as-written member | corrected member |
|---|---|---|---|---|---|---|
| modules/authenticator-pin/src/main/java/edu/uw/waverify/pin/PinRequiredAction.java:48-49 | the credential provider is fetched under `PinCredentialModel.TYPE` (`"PIN"`), but both credential provider factories of the module register under `"pin"` | any submission of the `pin_config` form: the lookup returns null and `createCredential` throws a null pointer, so no PIN is ever stored | fetch the provider under `PinCredentialProviderFactory.PROVIDER_ID` (`"pin"`), as the sibling required action does | not executed | PinRequiredActions.PinModuleProcessActionAsWritten | PinRequiredActions.PinModuleProcessAction |
