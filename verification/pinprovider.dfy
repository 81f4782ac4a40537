/** `PinCredentialProvider`: the credential provider and input validator
    for PIN credentials, acting on the user's stored credentials. The
    `authenticator-demographic` and `authenticator-pin` copies behave the
    same; only the former has `updateCredential`. */
module PinProvider {
  import opened Wrappers
  import opened Users
  import opened PinCredentials
  import opened JacksonBeans

  /** `supportsCredentialType(t)`: `"PIN".equals(t)`, so null is not
      supported and case matters. */
  function Supports(credType: Option<string>): (b: bool)
    ensures b <==> credType == Some(PinType)
  {
    credType == Some(PinType)
  }

  /** `isConfiguredFor(realm, user, t)` */
  function IsConfiguredFor(u: User, credType: Option<string>): (b: bool)
    ensures !Supports(credType) ==> !b
    ensures b <==> credType == Some(PinType) && exists c :: c in u.credentials && c.credType == Some(PinType)
  {
    var stored := StoredByType(u, PinType);
    assert |stored| > 0 ==> stored[0] in stored;
    Supports(credType) && |stored| > 0
  }

  /** The `CredentialInput` handed to `isValid`: a `UserCredentialModel`
      (credential id, type and challenge response), or any other kind. */
  datatype CredentialInput =
    | UserCredential(credentialId: Option<string>, credType: Option<string>, challengeResponse: Option<string>)
    | OtherInput

  /** `isValid(realm, user, input)`: false for another kind of input, a
      type other than `PIN` or a null response; a null type is a
      null-pointer exception. Otherwise the stored credential with the
      input's id is decoded (a missing one, or a null bean or PIN, is a
      null-pointer exception) and the result is exact equality of its PIN
      and the response. */
  function IsValid(u: User, input: CredentialInput): (r: Result<bool>)
    ensures input.OtherInput? ==> r == Ok(false)
    ensures input.UserCredential? && input.credType.None? ==> r == Err(NullPointer)
    ensures input.UserCredential? && input.credType.Some? && input.credType != Some(PinType) ==> r == Ok(false)
    ensures input.UserCredential? && input.credType == Some(PinType) && input.challengeResponse.None? ==> r == Ok(false)
    ensures (input.UserCredential? && input.credType == Some(PinType) && input.challengeResponse.Some?
             && StoredById(u, input.credentialId).None?) ==> r == Err(NullPointer)
    ensures (input.UserCredential? && input.credType == Some(PinType) && input.challengeResponse.Some?
             && StoredById(u, input.credentialId).Some?) ==>
              var model := FromCredential(StoredById(u, input.credentialId));
              && (model.Err? ==> r == Err(model.error))
              && (model.Ok? && PinOf(model.value).Err? ==> r == Err(NullPointer))
              && (model.Ok? && PinOf(model.value) == Ok(None) ==> r == Err(NullPointer))
              && (model.Ok? && PinOf(model.value).Ok? && PinOf(model.value).value.Some? ==>
                    r == Ok(PinOf(model.value).value.value == input.challengeResponse.value))
    ensures r == Ok(true) ==>
              && input.UserCredential? && input.challengeResponse.Some?
              && exists c :: c in u.credentials && c.id == input.credentialId
                   && FromCredential(Some(c)).Ok? && PinOf(FromCredential(Some(c)).value) == Ok(input.challengeResponse)
  {
    match input
    case OtherInput => Ok(false)
    case UserCredential(id, t, response) =>
      if t.None? then Err(NullPointer)
      else if t.value != PinType then Ok(false)
      else if response.None? then Ok(false)
      else
        var stored := StoredById(u, id);
        match FromCredential(stored)
        case Err(e) => Err(e)
        case Ok(model) =>
          match PinOf(model)
          case Err(e) => Err(e)
          case Ok(None) => Err(NullPointer)
          case Ok(Some(pin)) => Ok(pin == response.value)
  }

  /** The stored timestamp: the model's own creation date, else `now`. */
  function Stamped(c: Credential, now: int): (d: Credential)
    ensures d.createdDate == (if c.createdDate.None? then Some(now) else c.createdDate)
    ensures d.(createdDate := c.createdDate) == c
  {
    if c.createdDate.None? then c.(createdDate := Some(now)) else c
  }

  /** `createCredential(realm, user, model)`: stamps a missing creation
      date and appends the credential to the user's store; `freshId` is the
      id the store generates when the model has none. */
  function CreateCredential(u: User, model: PinCredential, now: int, freshId: string): (r: (User, Credential))
    ensures r.1 == CreateStored(u, Stamped(model.base, now), freshId).1
    ensures r.1.createdDate == (if model.base.createdDate.None? then Some(now) else model.base.createdDate)
    ensures |r.0.credentials| == |u.credentials| + 1
    ensures r.0.credentials[..|u.credentials|] == u.credentials && r.0.credentials[|u.credentials|] == r.1
    ensures r.0.(credentials := u.credentials) == u
  {
    var r := CreateStored(u, Stamped(model.base, now), freshId);
    assert r.0.credentials[..|u.credentials|] == u.credentials;
    r
  }

  /** `updateCredential(user, model, pin)`: stamps a missing creation date
      and overwrites the stored credential with the model's id; the `pin`
      argument is not used. */
  function UpdateCredential(u: User, model: PinCredential, now: int, pin: Option<string>): (v: User)
    ensures |v.credentials| == |u.credentials|
    ensures forall i :: 0 <= i < |u.credentials| ==>
              v.credentials[i] == (if model.base.id.Some? && u.credentials[i].id == model.base.id
                                   then Stamped(model.base, now) else u.credentials[i])
    ensures v.(credentials := u.credentials) == u
  {
    UpdateStored(u, Stamped(model.base, now))
  }

  /** `deleteCredential(realm, user, id)` */
  function DeleteCredential(u: User, credentialId: Option<string>): (r: (User, bool))
    ensures r.1 <==> credentialId.Some? && exists c :: c in u.credentials && c.id == credentialId
    ensures forall c :: c in r.0.credentials <==> c in u.credentials && (credentialId.None? || c.id != credentialId)
    ensures r.0.(credentials := u.credentials) == u
  {
    RemoveStoredById(u, credentialId)
  }

  /** `getDefaultCredential(session, realm, user)`, inherited from
      `CredentialProvider`: the user's first PIN credential, decoded, or
      null when there is none. */
  function DefaultCredential(u: User): (r: Result<Option<PinCredential>>)
    ensures r == Ok(None) <==> forall i :: 0 <= i < |u.credentials| ==> u.credentials[i].credType != Some(PinType)
    ensures Users.DefaultCredential(u, PinType).Some? ==>
              match FromCredential(Users.DefaultCredential(u, PinType))
              case Ok(p) => r == Ok(Some(p))
              case Err(e) => r == Err(e)
  {
    match Users.DefaultCredential(u, PinType)
    case None => Ok(None)
    case Some(c) =>
      match FromCredential(Some(c))
      case Ok(p) => Ok(Some(p))
      case Err(e) => Err(e)
  }

  /** A PIN just registered under a fresh id is configured and validates
      against exactly the PIN it was created with. */
  lemma RegisteredPinValidates(u: User, pin: string, now: int, freshId: string, attempt: string)
    requires IdFresh(u, freshId)
    ensures var (v, c) := CreateCredential(u, CreatePin(Some(pin), now), now, freshId);
            && IsConfiguredFor(v, Some(PinType))
            && IsValid(v, UserCredential(c.id, Some(PinType), Some(attempt))) == Ok(attempt == pin)
  {
    var (v, c) := CreateCredential(u, CreatePin(Some(pin), now), now, freshId);
    assert c in v.credentials;
    assert c.id == Some(freshId);
    var found := StoredById(v, c.id);
    assert found == Some(c) by {
      assert forall d :: d in v.credentials && d.id == Some(freshId) ==> d == c;
    }
    assert c.secretData == CreatePin(Some(pin), now).base.secretData;
    ReadWriteBean(PinProperty, Bean(Some(pin)));
  }
}
