/** The persistent per-user login token: a random nonce and the SHA-256 of
    `userId:nonce`, both Base64url without padding, kept as two single-valued
    user attributes. The random source and the digest are parameters. */
module UserTokens {
  import opened Wrappers
  import opened Utf8
  import Base64Url
  import JavaText
  import opened Users

  const NonceAttribute := "auth_nonce"
  const TokenAttribute := "auth_token"

  /** The 16 bytes (128 bits) drawn from `SecureRandom`. */
  type RandomBytes = s: seq<uint8> | |s| == 16 witness seq(16, _ => 0)

  /** A SHA-256 digest: 32 bytes. */
  type Digest = s: seq<uint8> | |s| == 32 witness seq(32, _ => 0)

  /** The `SHA-256` `MessageDigest`, taken as given. */
  type Sha256 = seq<uint8> -> Digest

  datatype TokenData = TokenData(nonce: string, hashedToken: string)

  /** A string of Base64url symbols (never blank, never percent-encoded). */
  predicate IsToken(s: string) {
    forall i :: 0 <= i < |s| ==> Base64Url.InAlphabet(s[i])
  }

  /** `generateSecureNonce`: the 16 random bytes as 22 symbols, from which
      the bytes can be recovered. */
  function SecureNonce(random: RandomBytes): (n: string)
    ensures |n| == 22 && IsToken(n)
    ensures Base64Url.Decode(n) == Some(random)
  {
    Base64Url.DecodeEncode(random);
    Base64Url.Encode(random)
  }

  /** The text the digest is taken over. */
  function Combined(userId: string, nonce: string): string {
    userId + ":" + nonce
  }

  /** `hashUserToken`: 43 symbols that decode to the digest of the UTF-8
      bytes of `userId:nonce`. */
  function HashUserToken(userId: string, nonce: string, sha: Sha256): (h: string)
    ensures |h| == 43 && IsToken(h)
    ensures Base64Url.Decode(h) == Some(sha(Encode(Combined(userId, nonce))))
  {
    var d := sha(Encode(Combined(userId, nonce)));
    Base64Url.DecodeEncode(d);
    Base64Url.Encode(d)
  }

  /** Two users, or two nonces, get the same token only when the digest
      collides on their `userId:nonce` texts. */
  lemma SameTokenSameDigest(id1: string, n1: string, id2: string, n2: string, sha: Sha256)
    requires HashUserToken(id1, n1, sha) == HashUserToken(id2, n2, sha)
    ensures sha(Encode(Combined(id1, n1))) == sha(Encode(Combined(id2, n2)))
  {
    Base64Url.EncodeInjective(sha(Encode(Combined(id1, n1))), sha(Encode(Combined(id2, n2))));
  }

  /** `retrieveStoredToken`: both attributes present, else null. */
  function RetrieveStoredToken(u: User): (r: Option<TokenData>)
    ensures r.Some? <==> FirstAttribute(u, NonceAttribute).Some? && FirstAttribute(u, TokenAttribute).Some?
    ensures r.Some? ==> r.value.nonce == u.attributes[NonceAttribute][0]
    ensures r.Some? ==> r.value.hashedToken == u.attributes[TokenAttribute][0]
  {
    var nonce := FirstAttribute(u, NonceAttribute);
    var hashed := FirstAttribute(u, TokenAttribute);
    if nonce.Some? && hashed.Some? then Some(TokenData(nonce.value, hashed.value)) else None
  }

  /** `storeTokenInUser`: the two attributes become single-valued; no other
      attribute and no other field of the user changes. */
  function StoreTokenInUser(u: User, nonce: string, hashed: string): (v: User)
    ensures NonceAttribute in v.attributes && v.attributes[NonceAttribute] == [nonce]
    ensures TokenAttribute in v.attributes && v.attributes[TokenAttribute] == [hashed]
    ensures forall k :: k != NonceAttribute && k != TokenAttribute ==>
              (k in v.attributes <==> k in u.attributes)
    ensures forall k :: k != NonceAttribute && k != TokenAttribute && k in u.attributes ==>
              v.attributes[k] == u.attributes[k]
    ensures v.(attributes := u.attributes) == u
  {
    SetSingleAttribute(SetSingleAttribute(u, NonceAttribute, Some(nonce)), TokenAttribute, Some(hashed))
  }

  /** `generateAndStoreToken` */
  function GenerateAndStoreToken(u: User, random: RandomBytes, sha: Sha256): (r: (User, TokenData))
    ensures r.1.nonce == SecureNonce(random)
    ensures r.1.hashedToken == HashUserToken(u.id, r.1.nonce, sha)
    ensures r.0 == StoreTokenInUser(u, r.1.nonce, r.1.hashedToken)
  {
    var nonce := SecureNonce(random);
    var hashed := HashUserToken(u.id, nonce, sha);
    (StoreTokenInUser(u, nonce, hashed), TokenData(nonce, hashed))
  }

  /** The token of a user is bound to the user: its stored hash is the
      digest of the user's own id and its stored nonce. */
  predicate Bound(u: User, sha: Sha256) {
    var t := RetrieveStoredToken(u);
    t.Some? && t.value.hashedToken == HashUserToken(u.id, t.value.nonce, sha)
  }

  /** Storing and then retrieving gives back exactly the generated token,
      and the token is bound to the user. */
  lemma RetrieveGenerated(u: User, random: RandomBytes, sha: Sha256)
    ensures var (v, t) := GenerateAndStoreToken(u, random, sha);
            RetrieveStoredToken(v) == Some(t) && Bound(v, sha)
  {
  }

  /** Storing a retrieved token again changes nothing. */
  lemma StoreRetrievedIdempotent(u: User)
    requires RetrieveStoredToken(u).Some?
    requires |u.attributes[NonceAttribute]| == 1 && |u.attributes[TokenAttribute]| == 1
    ensures var t := RetrieveStoredToken(u).value;
            StoreTokenInUser(u, t.nonce, t.hashedToken) == u
  {
    var t := RetrieveStoredToken(u).value;
    var v := StoreTokenInUser(u, t.nonce, t.hashedToken);
    assert u.attributes[NonceAttribute] == [t.nonce];
    assert u.attributes[TokenAttribute] == [t.hashedToken];
    assert v.attributes == u.attributes;
  }

  /** A generated token is never blank. */
  lemma TokenNotBlank(h: string)
    requires |h| > 0 && IsToken(h)
    ensures !JavaText.IsBlank(h)
  {
    assert Base64Url.InAlphabet(h[0]);
  }
}
