/** The PIN registration required actions: each reads the `pin` form
    field, resolves a credential provider by id in the session's provider
    registry, stores a new PIN credential for the user and signals success.
    None of them checks the PIN or updates an existing credential. */
module PinRequiredActions {
  import opened Wrappers
  import opened Users
  import opened Flow
  import opened PinCredentials
  import PinProvider

  /** The id every copy of the required action is registered under. */
  const ProviderId := "pin_config"
  const ConfigTemplate := "pin-config.ftl"

  /** The credential-provider classes that can sit in the registry. */
  datatype ProviderClass =
    | DemographicPinProvider   // edu.uw.waverify.pin, module authenticator-demographic
    | PinModuleProvider        // edu.uw.waverify.pin, module authenticator-pin
    | QuestionPinProvider      // edu.uw.waverify.authenticator.pin

  /** `session.getProvider(CredentialProvider.class, id)`: exact-match ids. */
  type Registry = map<string, ProviderClass>

  function Resolve(reg: Registry, id: string): (r: Option<ProviderClass>)
    ensures r.Some? <==> id in reg
    ensures r.Some? ==> r.value == reg[id]
  {
    if id in reg then Some(reg[id]) else None
  }

  /** The `authenticator-demographic` registration: its provider factory's
      id is the credential type itself. */
  const DemographicRegistry: Registry := map[PinType := DemographicPinProvider]

  /** The `authenticator-pin` registration: both provider factories use the
      id `pin`; which one the server keeps is `winner`. */
  function PinModuleRegistry(winner: ProviderClass): (reg: Registry)
    ensures reg.Keys == {"pin"} && reg["pin"] == winner
  {
    map["pin" := winner]
  }

  /** `requiredActionChallenge`: the PIN set-up form. */
  function Challenge(): (s: Step)
    ensures s.thrown.None? && |s.effects| == 1 && s.effects[0].Challenge?
    ensures s.effects[0].form.template == ConfigTemplate
    ensures !Succeeds(s)
  {
    Step([Flow.Challenge(Form(ConfigTemplate, map[], None))], None)
  }

  /** `getCredentialType`, the same in every copy. */
  function CredentialType(): (t: string)
    ensures t == PinType
  {
    PinType
  }

  /** `evaluateTriggers`: nothing happens to the user. */
  function EvaluateTriggers(u: User): (v: User)
    ensures v == u
  {
    u
  }

  /** Casting the resolved provider and calling `createCredential`: a
      missing provider is a null-pointer exception, one of another class a
      class-cast exception; then the credential is stored and the action
      succeeds. */
  function Register(u: User, found: Option<ProviderClass>, expected: ProviderClass, stored: (User, Credential)): (r: (User, Step))
    ensures found.None? ==> r == (u, Step([], Some(NullPointer)))
    ensures found.Some? && found.value != expected ==> r == (u, Step([], Some(ClassCast)))
    ensures found == Some(expected) ==> r == (stored.0, Step([Success], None))
  {
    match found
    case None => (u, Step([], Some(NullPointer)))
    case Some(p) =>
      if p != expected then (u, Step([], Some(ClassCast)))
      else (stored.0, Step([Success], None))
  }

  /** `processAction` of `authenticator-demographic`: resolves the provider
      under the credential type `PIN`. */
  function DemographicProcessAction(form: Params, u: User, reg: Registry, now: int, freshId: string): (r: (User, Step))
    ensures Resolve(reg, PinType) == Some(DemographicPinProvider) ==>
              && r.1 == Step([Success], None)
              && r.0 == PinProvider.CreateCredential(u, CreatePin(GetFirst(form, "pin"), now), now, freshId).0
    ensures Resolve(reg, PinType).None? ==> r.0 == u && r.1.thrown == Some(NullPointer)
  {
    Register(u, Resolve(reg, PinType), DemographicPinProvider,
             PinProvider.CreateCredential(u, CreatePin(GetFirst(form, "pin"), now), now, freshId))
  }

  /** In its own module the lookup finds the provider: whatever was
      submitted, including nothing or an empty string, exactly one PIN
      credential holding it is appended and the action succeeds. */
  lemma DemographicRegisters(form: Params, u: User, now: int, freshId: string)
    ensures var (v, s) := DemographicProcessAction(form, u, DemographicRegistry, now, freshId);
            && s == Step([Success], None)
            && |v.credentials| == |u.credentials| + 1
            && v.credentials[..|u.credentials|] == u.credentials
            && v.credentials[|u.credentials|].credType == Some(PinType)
            && v.credentials[|u.credentials|].secretData == CreatePin(GetFirst(form, "pin"), now).base.secretData
  {
  }

  /** Registering twice stores two PIN credentials: nothing is updated. */
  lemma DemographicRegistersTwice(form1: Params, form2: Params, u: User, now: int, id1: string, id2: string)
    ensures var (v, _) := DemographicProcessAction(form1, u, DemographicRegistry, now, id1);
            var (w, _) := DemographicProcessAction(form2, v, DemographicRegistry, now, id2);
            |StoredByType(w, PinType)| == |StoredByType(u, PinType)| + 2
  {
    var (v, _) := DemographicProcessAction(form1, u, DemographicRegistry, now, id1);
    var (w, _) := DemographicProcessAction(form2, v, DemographicRegistry, now, id2);
    FilterAppendOne(u.credentials, v.credentials[|u.credentials|], PinType);
    assert v.credentials == u.credentials + [v.credentials[|u.credentials|]];
    FilterAppendOne(v.credentials, w.credentials[|v.credentials|], PinType);
    assert w.credentials == v.credentials + [w.credentials[|v.credentials|]];
  }

  lemma {:induction false} FilterAppendOne(cs: seq<Credential>, c: Credential, t: string)
    requires c.credType == Some(t)
    ensures |Filter(cs + [c], t)| == |Filter(cs, t)| + 1
  {
    if |cs| == 0 {
      assert cs + [c] == [c];
      assert [c][1..] == [];
    } else {
      assert (cs + [c])[1..] == cs[1..] + [c];
      FilterAppendOne(cs[1..], c, t);
    }
  }

  /** `processAction` of `authenticator-pin`'s `pin` package, as written:
      the provider is resolved under the credential type `PIN`. */
  function PinModuleProcessActionAsWritten(form: Params, u: User, reg: Registry, now: int, freshId: string): (r: (User, Step))
    ensures Resolve(reg, PinType).None? ==> r == (u, Step([], Some(NullPointer)))
    ensures Resolve(reg, PinType) == Some(PinModuleProvider) ==> r.1 == Step([Success], None)
  {
    Register(u, Resolve(reg, PinType), PinModuleProvider,
             PinProvider.CreateCredential(u, CreatePin(GetFirst(form, "pin"), now), now, freshId))
  }

  /** Against its own module's registry, which only knows `pin`, the
      as-written action can never store a PIN: it always throws. */
  lemma PinModuleAsWrittenAlwaysThrows(form: Params, u: User, winner: ProviderClass, now: int, freshId: string)
    ensures PinModuleProcessActionAsWritten(form, u, PinModuleRegistry(winner), now, freshId)
            == (u, Step([], Some(NullPointer)))
  {
    assert PinType !in PinModuleRegistry(winner);
  }

  /** The same action resolving the provider under its factory's id `pin`. */
  function PinModuleProcessAction(form: Params, u: User, reg: Registry, now: int, freshId: string): (r: (User, Step))
    ensures Resolve(reg, "pin") == Some(PinModuleProvider) ==>
              && r.1 == Step([Success], None)
              && r.0 == PinProvider.CreateCredential(u, CreatePin(GetFirst(form, "pin"), now), now, freshId).0
    ensures Resolve(reg, "pin").None? ==> r == (u, Step([], Some(NullPointer)))
  {
    Register(u, Resolve(reg, "pin"), PinModuleProvider,
             PinProvider.CreateCredential(u, CreatePin(GetFirst(form, "pin"), now), now, freshId))
  }

  /** Corrected, the action registers the PIN whenever the module's own
      provider holds the id. */
  lemma PinModuleRegisters(form: Params, u: User, now: int, freshId: string)
    ensures var (v, s) := PinModuleProcessAction(form, u, PinModuleRegistry(PinModuleProvider), now, freshId);
            && s == Step([Success], None)
            && |v.credentials| == |u.credentials| + 1
            && v.credentials[|u.credentials|].secretData == CreatePin(GetFirst(form, "pin"), now).base.secretData
  {
  }

  /** `createCredential` of the `authenticator.pin` provider, which is not
      part of this model: taken to stamp and append as the other copies do. */
  function CreateQuestionCredential(u: User, model: QuestionPin, now: int, freshId: string): (r: (User, Credential))
    ensures r == CreateStored(u, PinProvider.Stamped(model.base, now), freshId)
  {
    CreateStored(u, PinProvider.Stamped(model.base, now), freshId)
  }

  const MomQuestion := "What is your mom's first name?"

  /** `processAction` of the `authenticator.pin` package: the submitted
      answer is stored under a fixed question, through the provider
      registered as `pin`. */
  function QuestionProcessAction(form: Params, u: User, reg: Registry, now: int, freshId: string): (r: (User, Step))
    ensures Resolve(reg, "pin") == Some(QuestionPinProvider) ==>
              && r.1 == Step([Success], None)
              && r.0 == CreateQuestionCredential(u, CreateQuestionPin(Some(MomQuestion), GetFirst(form, "pin"), now), now, freshId).0
    ensures Resolve(reg, "pin").None? ==> r == (u, Step([], Some(NullPointer)))
  {
    Register(u, Resolve(reg, "pin"), QuestionPinProvider,
             CreateQuestionCredential(u, CreateQuestionPin(Some(MomQuestion), GetFirst(form, "pin"), now), now, freshId))
  }

  /** The stored question-and-answer credential decodes to the fixed
      question and the submitted answer. */
  lemma QuestionRegisters(form: Params, u: User, now: int, freshId: string)
    ensures var (v, s) := QuestionProcessAction(form, u, PinModuleRegistry(QuestionPinProvider), now, freshId);
            && s == Step([Success], None)
            && |v.credentials| == |u.credentials| + 1
            && var q := FromQuestionCredential(Some(v.credentials[|u.credentials|]));
               q.Ok? && q.value.question == Some(JacksonBeans.Bean(Some(MomQuestion)))
               && q.value.answer == Some(JacksonBeans.Bean(GetFirst(form, "pin")))
  {
    var qp := CreateQuestionPin(Some(MomQuestion), GetFirst(form, "pin"), now);
    FromCreateQuestionPin(Some(MomQuestion), GetFirst(form, "pin"), now);
    JacksonBeans.ReadWriteBean(QuestionProperty, JacksonBeans.Bean(Some(MomQuestion)));
    JacksonBeans.ReadWriteBean(AnswerProperty, JacksonBeans.Bean(GetFirst(form, "pin")));
  }
}
