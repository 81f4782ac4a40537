/** The demographic authenticators of the `authenticator-demographic` and
    `spi-demographic` modules and the SPI's `DemographicProviderImpl`: a
    local check that both names are present, then the verification
    service's answer. The service is a parameter: `verify` for the
    one-argument form, `verifyFor` for the `(userId, map)` form. */
module DemographicAuthenticators {
  import opened Wrappers
  import opened JavaMaps
  import opened Flow
  import Verification
  import DemographicCodec

  const DemographicTemplate := "demographic.ftl"
  const FailedMessage := "Demographic validation failed. Please check your details."
  const BadSecret := "badSecret"

  /** The local pre-check shared by all three copies: a non-null,
      non-empty map whose `firstName` and `lastName` are not null. Empty
      strings pass. */
  predicate NamesPresent(m: Option<JavaMap>) {
    m.Some? && |m.value| > 0 && Get(m.value, "firstName").Some? && Get(m.value, "lastName").Some?
  }

  /** `validateDemographics(map)` of `authenticator-demographic`. After
      `close` the service is null, so reaching it is a null-pointer
      exception. */
  function ValidateDemographics(m: Option<JavaMap>, service: Option<JavaMap -> bool>): (r: Result<bool>)
    ensures !NamesPresent(m) ==> r == Ok(false)
    ensures NamesPresent(m) && service.None? ==> r == Err(NullPointer)
    ensures NamesPresent(m) && service.Some? ==> r == Ok(service.value(m.value))
  {
    if m.None? || |m.value| == 0 then Ok(false)
    else if Get(m.value, "firstName").None? || Get(m.value, "lastName").None? then Ok(false)
    else if service.None? then Err(NullPointer)
    else Ok(service.value(m.value))
  }

  /** `validateDemographics(map)` of `spi-demographic`, whose service is
      final. */
  function SpiValidateDemographics(m: Option<JavaMap>, verify: JavaMap -> bool): (b: bool)
    ensures !NamesPresent(m) ==> !b
    ensures NamesPresent(m) ==> b == verify(m.value)
  {
    NamesPresent(m) && verify(m.value)
  }

  /** `DemographicProviderImpl.validateDemographics(userId, map)`: the
      same pre-check, then the service with the same user id and map. */
  function ProviderValidateDemographics(userId: Option<string>, m: Option<JavaMap>,
                                        verifyFor: (Option<string>, JavaMap) -> bool): (b: bool)
    ensures !NamesPresent(m) ==> !b
    ensures NamesPresent(m) ==> b == verifyFor(userId, m.value)
  {
    NamesPresent(m) && verifyFor(userId, m.value)
  }

  /** The map the private `validateDemographics(context)` builds from the
      form: never empty, holding only the two name fields. */
  function FormMap(form: Params): (m: JavaMap)
    ensures |m| == 2
    ensures Get(m, "firstName") == GetFirst(form, "firstName") && Get(m, "lastName") == GetFirst(form, "lastName")
    ensures forall i :: 0 <= i < |m| ==> m[i].key == Some("firstName") || m[i].key == Some("lastName")
  {
    NamesMap(GetFirst(form, "firstName"), GetFirst(form, "lastName"))
  }

  // ------------------------------------------- authenticator-demographic

  /** `authenticate`: only the demographic form, in its demographic mode. */
  function Authenticate(): (s: Step)
    ensures s == Step([Challenge(Form(DemographicTemplate, map["demographicRequired" := true], None))], None)
    ensures !Succeeds(s)
  {
    Step([Challenge(Form(DemographicTemplate, map["demographicRequired" := true], None))], None)
  }

  /** `action`: success when the form's names pass validation, otherwise
      the demographic form again with the failure message. */
  function Action(form: Params, service: Option<JavaMap -> bool>): (s: Step)
    ensures Succeeds(s) <==> ValidateDemographics(Some(FormMap(form)), service) == Ok(true)
    ensures ValidateDemographics(Some(FormMap(form)), service) == Ok(false) ==>
              s == Step([FailureChallenge(InvalidCredentials, Form(DemographicTemplate, map[], Some(FailedMessage)))], None)
    ensures s.thrown.None? ==> EndsOnce(s)
  {
    match ValidateDemographics(Some(FormMap(form)), service)
    case Err(e) => Step([], Some(e))
    case Ok(false) => Step([FailureChallenge(InvalidCredentials, Form(DemographicTemplate, map[], Some(FailedMessage)))], None)
    case Ok(true) =>
      var s := Step([Success], None);
      assert s.effects[0].Success?;
      s
  }

  function RequiresUser(): (b: bool)
    ensures !b
  {
    false
  }

  function ConfiguredFor(): (b: bool)
    ensures !b
  {
    false
  }

  /** `close`: the service is dropped. */
  function Close(service: Option<JavaMap -> bool>): (r: Option<JavaMap -> bool>)
    ensures r.None?
  {
    None
  }

  /** After `close`, an action with both names present throws instead of
      answering. */
  lemma ActionAfterCloseThrows(form: Params, service: Option<JavaMap -> bool>)
    requires GetFirst(form, "firstName").Some? && GetFirst(form, "lastName").Some?
    ensures Action(form, Close(service)).thrown == Some(NullPointer)
  {
  }

  /** End to end with the HTTP verification service: the action succeeds
      exactly when both names were submitted and the verifier answers the
      posted two-member object with status 200 and `valid: true`. */
  lemma ActionAgainstHttpService(form: Params, post: string -> Verification.Exchange)
    ensures var service := Some((m: JavaMap) => Verification.Verify(Some(m), post).valid);
            Succeeds(Action(form, service)) <==>
              && GetFirst(form, "firstName").Some? && GetFirst(form, "lastName").Some?
              && Verification.Accepts(post(DemographicCodec.EncodeFlat(Some(FormMap(form))).value))
  {
    var m := FormMap(form);
    if GetFirst(form, "firstName").Some? && GetFirst(form, "lastName").Some? {
      assert NullFree(m);
    }
  }

  // ---------------------------------------------------- spi-demographic

  /** `authenticate`: the demographic form is offered and the step
      succeeds in the same call. */
  function SpiAuthenticate(): (s: Step)
    ensures s == Step([Challenge(Form(DemographicTemplate, map[], None)), Success], None)
    ensures Succeeds(s) && EndsOnce(s)
  {
    var s := Step([Challenge(Form(DemographicTemplate, map[], None)), Success], None);
    assert s.effects[1].Success?;
    s
  }

  /** `action`: success when the form's names pass validation, otherwise
      the demographic form again with the `badSecret` error. */
  function SpiAction(form: Params, verify: JavaMap -> bool): (s: Step)
    ensures Succeeds(s) <==> SpiValidateDemographics(Some(FormMap(form)), verify)
    ensures !Succeeds(s) ==>
              s == Step([FailureChallenge(InvalidCredentials, Form(DemographicTemplate, map[], Some(BadSecret)))], None)
    ensures EndsOnce(s)
  {
    if SpiValidateDemographics(Some(FormMap(form)), verify) then
      var s := Step([Success], None);
      assert s.effects[0].Success?;
      s
    else Step([FailureChallenge(InvalidCredentials, Form(DemographicTemplate, map[], Some(BadSecret)))], None)
  }

  function SpiRequiresUser(): (b: bool)
    ensures b
  {
    true
  }

  function SpiConfiguredFor(): (b: bool)
    ensures !b
  {
    false
  }

  /** Whatever the service, a form missing a name never gets past the
      step, in either copy. */
  lemma MissingNameNeverPasses(form: Params, verify: JavaMap -> bool, service: Option<JavaMap -> bool>)
    requires GetFirst(form, "firstName").None? || GetFirst(form, "lastName").None?
    ensures !Succeeds(SpiAction(form, verify)) && !Succeeds(Action(form, service))
  {
  }

  /** The provider with the SPI's HTTP service: yes exactly when both names
      are present, the user id is not null and the verifier accepts the
      nested body. */
  lemma ProviderAgainstHttpService(userId: Option<string>, m: JavaMap, post: string -> Verification.Exchange)
    requires NullFree(m)
    ensures var verifyFor := (u: Option<string>, d: JavaMap) => Verification.VerifyNested(u, Some(d), post).valid;
            ProviderValidateDemographics(userId, Some(m), verifyFor) <==>
              && NamesPresent(Some(m)) && userId.Some?
              && Verification.Accepts(post(DemographicCodec.EncodeNested(userId, Some(m)).value))
  {
  }
}
