/** The token authenticator: identifies the user from the `user_token`
    query parameter by searching for the user whose `auth_token`
    attribute holds it. */
module TokenAuthenticator {
  import opened Wrappers
  import JavaText
  import opened Users
  import opened UserTokens
  import opened Flow

  const TokenParam := "user_token"

  /** `authenticate(context)`: a missing or blank token fails with
      INVALID_CREDENTIALS, a token no user holds fails with UNKNOWN_USER,
      otherwise the first holder becomes the flow's user and the step
      succeeds. */
  function Authenticate(query: Params, store: Store): (s: Step)
    ensures EndsOnce(s) && s.thrown.None?
    ensures Succeeds(s) <==>
              GetFirst(query, TokenParam).Some? && !JavaText.IsBlank(GetFirst(query, TokenParam).value)
              && exists i :: 0 <= i < |store| && HasAttributeValue(store[i], TokenAttribute, GetFirst(query, TokenParam).value)
    ensures JavaText.NullOrBlank(GetFirst(query, TokenParam)) ==> s.effects == [Failure(InvalidCredentials)]
    ensures (!JavaText.NullOrBlank(GetFirst(query, TokenParam))
             && forall i :: 0 <= i < |store| ==> !HasAttributeValue(store[i], TokenAttribute, GetFirst(query, TokenParam).value))
            ==> s.effects == [Failure(UnknownUser)]
    ensures Succeeds(s) ==>
              exists i :: 0 <= i < |store| && s.effects == [SetUser(store[i].id), Success]
                && HasAttributeValue(store[i], TokenAttribute, GetFirst(query, TokenParam).value)
                && forall j :: 0 <= j < i ==> !HasAttributeValue(store[j], TokenAttribute, GetFirst(query, TokenParam).value)
  {
    var token := GetFirst(query, TokenParam);
    if JavaText.NullOrBlank(token) then Step([Failure(InvalidCredentials)], None)
    else
      match FirstWithAttribute(store, TokenAttribute, token.value)
      case None => Step([Failure(UnknownUser)], None)
      case Some(i) => Step([SetUser(store[i].id), Success], None)
  }

  /** `action(context)` re-runs `authenticate`. */
  function Action(query: Params, store: Store): (s: Step)
    ensures s == Authenticate(query, store)
  {
    Authenticate(query, store)
  }

  /** `requiresUser`, inherited from `SimpleAuthenticator`: the step runs
      before any user is known. */
  function RequiresUser(): (b: bool)
    ensures !b
  {
    false
  }

  /** `configuredFor`: no per-user setup is needed. */
  function ConfiguredFor(u: User): (b: bool)
    ensures b
  {
    true
  }

  /** Holding a token that no other user holds, a user who follows the
      link is the user the flow identifies. */
  lemma StoredTokenIdentifiesUser(store: Store, k: nat, random: RandomBytes, sha: Sha256)
    requires k < |store|
    ensures var (v, t) := GenerateAndStoreToken(store[k], random, sha);
            var after := store[k := v];
            (forall i :: 0 <= i < |store| && i != k ==> !HasAttributeValue(store[i], TokenAttribute, t.hashedToken))
            ==> Authenticate(map[TokenParam := [t.hashedToken]], after).effects == [SetUser(store[k].id), Success]
  {
    var (v, t) := GenerateAndStoreToken(store[k], random, sha);
    var after := store[k := v];
    TokenNotBlank(t.hashedToken);
    assert HasAttributeValue(after[k], TokenAttribute, t.hashedToken);
    if forall i :: 0 <= i < |store| && i != k ==> !HasAttributeValue(store[i], TokenAttribute, t.hashedToken) {
      var found := FirstWithAttribute(after, TokenAttribute, t.hashedToken);
      assert found.Some?;
      assert found.value == k;
    }
  }
}
