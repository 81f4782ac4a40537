/** The two PIN authenticators. Both check the submitted `pin` form field
    against the user's stored PIN credential and, once it matches, set the
    `PIN_ANSWERED` cookie and let the flow continue. The
    `authenticator-demographic` copy shows the combined login form and
    fails on a missing user; the `authenticator-pin` copy shows its own
    form, skips the challenge when the cookie is already there, and asks
    for PIN set-up through a required action. */
module PinAuthenticators {
  import opened Wrappers
  import opened Users
  import opened Flow
  import opened PinCredentials
  import PinProvider
  import opened PinRequiredActions
  import JavaText

  const CookieName := "PIN_ANSWERED"
  const MaxAgeKey := "cookie.max.age"
  /** Thirty days, in seconds. */
  const DefaultMaxAge := 60 * 60 * 24 * 30
  const BadSecret := "badSecret"
  const RequiredActionId := "pin_config"

  /** The authenticator's configuration entries, when one is attached. */
  type Config = Option<map<string, string>>

  /** The cookie lifetime in `setCookie`: thirty days without a
      configuration, otherwise `Integer.parseInt` of the `cookie.max.age`
      entry, whose absence or malformation is a `NumberFormatException`. */
  function CookieMaxAge(config: Config): (r: Result<int>)
    ensures config.None? ==> r == Ok(2592000)
    ensures config.Some? ==>
              var entry := if MaxAgeKey in config.value then Some(config.value[MaxAgeKey]) else None;
              && (r.Ok? <==> JavaText.ParseInt(entry).Some?)
              && (r.Ok? ==> Some(r.value) == JavaText.ParseInt(entry))
    ensures r.Err? ==> r.error == NumberFormat
    ensures r.Ok? ==> JavaText.IntMin <= r.value <= JavaText.IntMax
  {
    match config
    case None => Ok(DefaultMaxAge)
    case Some(entries) =>
      var entry := if MaxAgeKey in entries then Some(entries[MaxAgeKey]) else None;
      match JavaText.ParseInt(entry)
      case None => Err(NumberFormat)
      case Some(n) => Ok(n)
  }

  /** A configured lifetime written in decimal is the lifetime used. */
  lemma ConfiguredMaxAge(n: nat)
    requires n <= JavaText.IntMax
    ensures CookieMaxAge(Some(map[MaxAgeKey := JavaText.Decimal(n)])) == Ok(n)
  {
    JavaText.ParseIntOfDecimal(n);
  }

  /** `setCookie` followed by `context.success()`. */
  function CookieThenSuccess(config: Config): (s: Step)
    ensures CookieMaxAge(config).Err? ==> s == Step([], Some(NumberFormat))
    ensures CookieMaxAge(config).Ok? ==>
              s == Step([SetCookie(CookieName, "true", CookieMaxAge(config).value), Success], None)
    ensures Succeeds(s) <==> CookieMaxAge(config).Ok?
  {
    match CookieMaxAge(config)
    case Err(e) => Step([], Some(e))
    case Ok(age) =>
      var s := Step([SetCookie(CookieName, "true", age), Success], None);
      assert s.effects[1].Success?;
      s
  }

  // ------------------------------------------- authenticator-demographic

  const LoginTemplate := "login.ftl"

  /** The attributes the combined login form is rendered with. */
  const PinLoginAttributes: map<string, bool> :=
    map["pinRequired" := true, "usernameHidden" := true, "demographicRequired" := false]

  /** `authenticate`: without a user the flow fails; otherwise the login
      form is shown in its PIN mode. */
  function DemographicAuthenticate(user: Option<User>): (s: Step)
    ensures user.None? ==> s == Step([Failure(UnknownUser)], None)
    ensures user.Some? ==> s == Step([Challenge(Form(LoginTemplate, PinLoginAttributes, None))], None)
    ensures !Succeeds(s)
  {
    if user.None? then Step([Failure(UnknownUser)], None)
    else Step([Challenge(Form(LoginTemplate, PinLoginAttributes, None))], None)
  }

  /** `validateAnswer`: a missing or empty PIN, no PIN credential, or a
      credential without an id all reject; otherwise the provider's
      `isValid` decides for the user's default PIN credential. */
  function DemographicValidateAnswer(u: User, form: Params): (r: Result<bool>)
    ensures GetFirst(form, "pin").None? || GetFirst(form, "pin") == Some("") ==> r == Ok(false)
    ensures PinProvider.DefaultCredential(u) == Ok(None) ==> r == Ok(false)
    ensures (GetFirst(form, "pin").Some? && GetFirst(form, "pin") != Some("") && PinProvider.DefaultCredential(u).Err?)
            ==> r == Err(PinProvider.DefaultCredential(u).error)
    ensures (GetFirst(form, "pin").Some? && GetFirst(form, "pin") != Some("")
             && PinProvider.DefaultCredential(u).Ok? && PinProvider.DefaultCredential(u).value.Some?) ==>
              var id := PinProvider.DefaultCredential(u).value.value.base.id;
              && (id.None? || id == Some("") ==> r == Ok(false))
              && (id.Some? && id != Some("") ==>
                    r == PinProvider.IsValid(u, PinProvider.UserCredential(id, Some(PinType), GetFirst(form, "pin"))))
    ensures r == Ok(true) ==>
              && GetFirst(form, "pin").Some? && GetFirst(form, "pin") != Some("")
              && PinProvider.DefaultCredential(u).Ok?
              && var d := PinProvider.DefaultCredential(u).value;
                 && d.Some? && d.value.base.id.Some? && d.value.base.id != Some("")
                 && PinProvider.IsValid(u, PinProvider.UserCredential(d.value.base.id, Some(PinType), GetFirst(form, "pin"))) == Ok(true)
  {
    var pin := GetFirst(form, "pin");
    if pin.None? || pin.value == "" then Ok(false)
    else
      match PinProvider.DefaultCredential(u)
      case Err(e) => Err(e)
      case Ok(None) => Ok(false)
      case Ok(Some(credential)) =>
        var id := credential.base.id;
        if id.None? || id.value == "" then Ok(false)
        else PinProvider.IsValid(u, PinProvider.UserCredential(id, Some(PinType), pin))
  }

  /** `action`: a missing user fails; a rejected PIN re-shows the login
      form with the `badSecret` error; an accepted one sets the cookie and
      succeeds. An exception from validation or from the cookie lifetime
      escapes. */
  function DemographicAction(user: Option<User>, form: Params, config: Config): (s: Step)
    ensures user.None? ==> s == Step([Failure(UnknownUser)], None)
    ensures user.Some? && DemographicValidateAnswer(user.value, form) == Ok(false) ==>
              s == Step([FailureChallenge(InvalidCredentials, Form(LoginTemplate, map[], Some(BadSecret)))], None)
    ensures user.Some? && DemographicValidateAnswer(user.value, form) == Ok(true) ==> s == CookieThenSuccess(config)
    ensures user.Some? && DemographicValidateAnswer(user.value, form).Err? ==>
              s == Step([], Some(DemographicValidateAnswer(user.value, form).error))
    ensures Succeeds(s) <==>
              user.Some? && DemographicValidateAnswer(user.value, form) == Ok(true) && CookieMaxAge(config).Ok?
    ensures s.thrown.None? ==> EndsOnce(s)
  {
    if user.None? then Step([Failure(UnknownUser)], None)
    else
      match DemographicValidateAnswer(user.value, form)
      case Err(e) => Step([], Some(e))
      case Ok(false) =>
        Step([FailureChallenge(InvalidCredentials, Form(LoginTemplate, map[], Some(BadSecret)))], None)
      case Ok(true) => CookieThenSuccess(config)
  }

  /** `requiresUser` */
  function DemographicRequiresUser(): (b: bool)
    ensures !b
  {
    false
  }

  /** `configuredFor`: the user holds a PIN credential. */
  function DemographicConfiguredFor(u: User): (b: bool)
    ensures b <==> exists c :: c in u.credentials && c.credType == Some(PinType)
  {
    PinProvider.IsConfiguredFor(u, Some(PinType))
  }

  /** `setRequiredActions`: nothing is added. */
  function DemographicSetRequiredActions(u: User): (v: User)
    ensures v == u
  {
    u
  }

  /** A user with no PIN yet who registers one through the required
      action is then accepted by `action` exactly when the same PIN is
      submitted. */
  lemma DemographicRegisteredPinAccepted(u: User, pin: string, attempt: string, config: Config,
                                         now: int, freshId: string)
    requires IdFresh(u, freshId) && freshId != ""
    requires forall i :: 0 <= i < |u.credentials| ==> u.credentials[i].credType != Some(PinType)
    requires attempt != "" && CookieMaxAge(config).Ok?
    ensures var (v, _) := PinRequiredActions.DemographicProcessAction(
                            map["pin" := [pin]], u, PinRequiredActions.DemographicRegistry, now, freshId);
            Succeeds(DemographicAction(Some(v), map["pin" := [attempt]], config)) <==> attempt == pin
  {
    var (v, _) := PinRequiredActions.DemographicProcessAction(
                    map["pin" := [pin]], u, PinRequiredActions.DemographicRegistry, now, freshId);
    var (w, c) := PinProvider.CreateCredential(u, CreatePin(Some(pin), now), now, freshId);
    assert v == w;
    FirstOfNew(u, v, c);
    assert c.id == Some(freshId);
    PinProvider.RegisteredPinValidates(u, pin, now, freshId, attempt);
  }

  /** The first PIN credential of a user who had none is the one appended. */
  lemma FirstOfNew(u: User, v: User, c: Credential)
    requires forall i :: 0 <= i < |u.credentials| ==> u.credentials[i].credType != Some(PinType)
    requires v.credentials == u.credentials + [c] && c.credType == Some(PinType)
    ensures Users.DefaultCredential(v, PinType) == Some(c)
  {
    var d := Users.DefaultCredential(v, PinType);
    assert v.credentials[|u.credentials|] == c;
    var i :| 0 <= i < |v.credentials| && v.credentials[i] == d.value && d.value.credType == Some(PinType)
             && forall j :: 0 <= j < i ==> v.credentials[j].credType != Some(PinType);
    assert i == |u.credentials|;
  }

  // ---------------------------------------------------- authenticator-pin

  const PinTemplate := "pin.ftl"

  /** `authenticate`: the cookie from an earlier success skips the
      challenge; otherwise the PIN form is shown. */
  function PinModuleAuthenticate(cookies: set<string>): (s: Step)
    ensures Succeeds(s) <==> CookieName in cookies
    ensures CookieName !in cookies ==> s == Step([Challenge(Form(PinTemplate, map[], None))], None)
  {
    if CookieName in cookies then
      var s := Step([Success], None);
      assert s.effects[0].Success?;
      s
    else Step([Challenge(Form(PinTemplate, map[], None))], None)
  }

  /** `getCredentialProvider(session)`: the registry's `"pin"` entry cast
      to this module's `PinCredentialProvider`. A missing entry is null, so
      the first call on it throws a null-pointer exception; the question
      provider registered under the same id fails the cast. */
  function ProviderFault(reg: Registry): (e: Option<Exception>)
    ensures e.None? <==> PinRequiredActions.Resolve(reg, "pin") == Some(PinModuleProvider)
    ensures PinRequiredActions.Resolve(reg, "pin").None? ==> e == Some(NullPointer)
    ensures (PinRequiredActions.Resolve(reg, "pin").Some? && PinRequiredActions.Resolve(reg, "pin") != Some(PinModuleProvider))
            ==> e == Some(ClassCast)
  {
    match PinRequiredActions.Resolve(reg, "pin")
    case None => Some(NullPointer)
    case Some(PinModuleProvider) => None
    case Some(_) => Some(ClassCast)
  }

  /** `validateAnswer`: the credential id comes from the form, or, when
      that is missing or empty, from the user's default PIN credential (none
      at all is a null-pointer exception); the provider's `isValid` decides
      on the submitted `pin`, which may be missing. A provider that cannot
      be obtained throws first. */
  function PinModuleValidateAnswer(u: User, reg: Registry, form: Params): (r: Result<bool>)
    ensures ProviderFault(reg).Some? ==> r == Err(ProviderFault(reg).value)
    ensures (ProviderFault(reg).None? && GetFirst(form, "credentialId").Some? && GetFirst(form, "credentialId") != Some(""))
            ==> r == PinProvider.IsValid(u, PinProvider.UserCredential(GetFirst(form, "credentialId"), Some(PinType), GetFirst(form, "pin")))
    ensures (ProviderFault(reg).None? && (GetFirst(form, "credentialId").None? || GetFirst(form, "credentialId") == Some(""))
             && PinProvider.DefaultCredential(u) == Ok(None)) ==> r == Err(NullPointer)
    ensures (ProviderFault(reg).None? && (GetFirst(form, "credentialId").None? || GetFirst(form, "credentialId") == Some(""))
             && PinProvider.DefaultCredential(u).Err?) ==> r == Err(PinProvider.DefaultCredential(u).error)
    ensures (ProviderFault(reg).None? && (GetFirst(form, "credentialId").None? || GetFirst(form, "credentialId") == Some(""))
             && PinProvider.DefaultCredential(u).Ok? && PinProvider.DefaultCredential(u).value.Some?) ==>
              r == PinProvider.IsValid(u, PinProvider.UserCredential(PinProvider.DefaultCredential(u).value.value.base.id,
                                                                     Some(PinType), GetFirst(form, "pin")))
    ensures GetFirst(form, "pin").None? ==> r != Ok(true)
    ensures r == Ok(true) ==> exists id :: PinProvider.IsValid(u, PinProvider.UserCredential(id, Some(PinType), GetFirst(form, "pin"))) == Ok(true)
  {
    var secret := GetFirst(form, "pin");
    var submitted := GetFirst(form, "credentialId");
    if ProviderFault(reg).Some? then Err(ProviderFault(reg).value)
    else if submitted.Some? && submitted.value != "" then
      PinProvider.IsValid(u, PinProvider.UserCredential(submitted, Some(PinType), secret))
    else
      match PinProvider.DefaultCredential(u)
      case Err(e) => Err(e)
      case Ok(None) => Err(NullPointer)
      case Ok(Some(credential)) =>
        PinProvider.IsValid(u, PinProvider.UserCredential(credential.base.id, Some(PinType), secret))
  }

  /** `action`: a rejected PIN re-shows the PIN form with the `badSecret`
      error; an accepted one sets the cookie and succeeds; an exception
      from validation escapes. */
  function PinModuleAction(u: User, reg: Registry, form: Params, config: Config): (s: Step)
    ensures var v := PinModuleValidateAnswer(u, reg, form);
            && (v == Ok(false) ==>
                  s == Step([FailureChallenge(InvalidCredentials, Form(PinTemplate, map[], Some(BadSecret)))], None))
            && (v == Ok(true) ==> s == CookieThenSuccess(config))
            && (v.Err? ==> s == Step([], Some(v.error)))
            && (Succeeds(s) <==> v == Ok(true) && CookieMaxAge(config).Ok?)
    ensures s.thrown.None? ==> EndsOnce(s)
  {
    match PinModuleValidateAnswer(u, reg, form)
    case Err(e) => Step([], Some(e))
    case Ok(false) =>
      Step([FailureChallenge(InvalidCredentials, Form(PinTemplate, map[], Some(BadSecret)))], None)
    case Ok(true) => CookieThenSuccess(config)
  }

  /** `requiresUser` */
  function PinModuleRequiresUser(): (b: bool)
    ensures b
  {
    true
  }

  /** `configuredFor`: the user holds a PIN credential, once the provider
      can be obtained. */
  function PinModuleConfiguredFor(u: User, reg: Registry): (r: Result<bool>)
    ensures ProviderFault(reg).Some? ==> r == Err(ProviderFault(reg).value)
    ensures ProviderFault(reg).None? ==> r.Ok? && (r.value <==> exists c :: c in u.credentials && c.credType == Some(PinType))
  {
    match ProviderFault(reg)
    case Some(e) => Err(e)
    case None => Ok(PinProvider.IsConfiguredFor(u, Some(PinType)))
  }

  /** `setRequiredActions`: the PIN set-up action is queued for the user,
      and nothing else about the user changes. */
  function PinModuleSetRequiredActions(u: User): (v: User)
    ensures v.requiredActions == u.requiredActions + {RequiredActionId}
    ensures v.(requiredActions := u.requiredActions) == u
  {
    u.(requiredActions := u.requiredActions + {RequiredActionId})
  }

  /** The queued action is the one the required-action provider answers
      to, and queueing it twice is the same as once. */
  lemma SetRequiredActionsIdempotent(u: User)
    ensures PinModuleSetRequiredActions(PinModuleSetRequiredActions(u)) == PinModuleSetRequiredActions(u)
    ensures RequiredActionId == PinRequiredActions.ProviderId
  {
  }

  /** A successful `action` leaves the cookie that makes the next
      `authenticate` succeed without a challenge. */
  lemma ActionCookieBypassesAuthenticate(u: User, reg: Registry, form: Params, config: Config)
    requires Succeeds(PinModuleAction(u, reg, form, config))
    ensures exists i :: 0 <= i < |PinModuleAction(u, reg, form, config).effects|
              && PinModuleAction(u, reg, form, config).effects[i] == SetCookie(CookieName, "true", CookieMaxAge(config).value)
    ensures Succeeds(PinModuleAuthenticate({CookieName}))
  {
    assert PinModuleAction(u, reg, form, config).effects[0] == SetCookie(CookieName, "true", CookieMaxAge(config).value);
  }

  /** When the question provider's factory wins the `"pin"` id, every
      `action` and every `configuredFor` of this authenticator fails the
      cast, whatever is submitted. */
  lemma QuestionWinnerBreaksAuthenticator(u: User, form: Params, config: Config)
    ensures PinModuleAction(u, PinModuleRegistry(QuestionPinProvider), form, config) == Step([], Some(ClassCast))
    ensures PinModuleConfiguredFor(u, PinModuleRegistry(QuestionPinProvider)) == Err(ClassCast)
  {
    assert PinRequiredActions.Resolve(PinModuleRegistry(QuestionPinProvider), "pin") == Some(QuestionPinProvider);
  }

  /** Submitting the stored credential's id and its PIN is accepted. */
  lemma PinModuleRegisteredPinAccepted(u: User, pin: string, attempt: string, config: Config,
                                       now: int, freshId: string)
    requires IdFresh(u, freshId) && freshId != ""
    requires CookieMaxAge(config).Ok?
    ensures var (v, c) := PinProvider.CreateCredential(u, CreatePin(Some(pin), now), now, freshId);
            var form := map["pin" := [attempt], "credentialId" := [freshId]];
            Succeeds(PinModuleAction(v, PinModuleRegistry(PinModuleProvider), form, config)) <==> attempt == pin
  {
    var (v, c) := PinProvider.CreateCredential(u, CreatePin(Some(pin), now), now, freshId);
    var form := map["pin" := [attempt], "credentialId" := [freshId]];
    assert GetFirst(form, "credentialId") == Some(freshId);
    assert GetFirst(form, "pin") == Some(attempt);
    assert PinRequiredActions.Resolve(PinModuleRegistry(PinModuleProvider), "pin") == Some(PinModuleProvider);
    PinProvider.RegisteredPinValidates(u, pin, now, freshId, attempt);
  }
}
