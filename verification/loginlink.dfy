/** The login-link email: the link is built from the request's base URI,
    the realm, the client, the redirect URI and the user's token (created
    on first use), each percent-encoded; the mail provider is an opaque
    step that may fail. */
module LoginLink {
  import opened Wrappers
  import JavaText
  import UrlEncoding
  import opened Users
  import opened UserTokens

  /** What the session's context supplies: the base URI, the realm name
      and the authentication session, which is null outside a login flow. */
  datatype LinkContext = LinkContext(baseUrl: string, realmName: string, session: Option<LinkSession>)

  /** The authentication session's client id and redirect URI (which
      Keycloak may leave null). */
  datatype LinkSession = LinkSession(clientId: string, redirectUri: Option<string>)

  /** How `sendLoginEmail` ends when it does not throw. */
  datatype Delivery = Skipped | Sent(link: string) | SendFailed(link: string)

  const AuthPath := "/protocol/openid-connect/auth"

  /** `LOGIN_URL_TEMPLATE` filled in by `String.format`. */
  function LoginUrl(baseUrl: string, realm: string, clientId: string, redirectUri: string, token: string): string
  {
    Endpoint(baseUrl, realm) + ("?" + QueryOf(clientId, redirectUri, token))
  }

  /** The realm's authorization endpoint, the realm name as one path segment. */
  function Endpoint(baseUrl: string, realm: string): string {
    baseUrl + ("realms/" + (UrlEncoding.Encode(realm) + AuthPath))
  }

  /** One query field: a literal name and a percent-encoded value. */
  function Pair(name: string, value: string): string {
    name + ("=" + UrlEncoding.Encode(value))
  }

  /** The query part of the template. */
  function QueryOf(clientId: string, redirectUri: string, token: string): string {
    Pair("response_type", "code")
    + ("&" + (Pair("client_id", clientId)
    + ("&" + (Pair("redirect_uri", redirectUri)
    + ("&" + Pair("user_token", token))))))
  }

  /** `sendLoginEmail(session, user)`. A user without a usable email is
      skipped untouched. A missing authentication session throws before any
      token is read. Otherwise the stored token is reused, or a new one
      generated and stored, before the link is built; a null redirect URI
      then makes `URLEncoder.encode` throw, after the token was stored.
      `mailerAccepts` is whether theme lookup and sending succeed; their
      exceptions are caught and logged. */
  function SendLoginEmail(u: User, ctx: LinkContext, random: RandomBytes, sha: Sha256,
                          mailerAccepts: bool): (r: (User, Result<Delivery>))
    ensures r.1 == Ok(Skipped) <==> JavaText.NullOrBlank(u.email)
    ensures JavaText.NullOrBlank(u.email) ==> r.0 == u
    ensures !JavaText.NullOrBlank(u.email) && ctx.session.None? ==> r == (u, Err(NullPointer))
    ensures !JavaText.NullOrBlank(u.email) && ctx.session.Some? ==> RetrieveStoredToken(r.0).Some?
    ensures RetrieveStoredToken(u).Some? ==> r.0 == u
    ensures RetrieveStoredToken(u).None? && !JavaText.NullOrBlank(u.email) && ctx.session.Some? ==>
              r.0 == GenerateAndStoreToken(u, random, sha).0
    ensures r.1 == Err(NullPointer) <==>
              !JavaText.NullOrBlank(u.email) && (ctx.session.None? || ctx.session.value.redirectUri.None?)
    ensures r.1.Ok? && !r.1.value.Skipped? ==>
              && ctx.session.Some? && ctx.session.value.redirectUri.Some?
              && r.1.value.link == LoginUrl(ctx.baseUrl, ctx.realmName, ctx.session.value.clientId,
                                            ctx.session.value.redirectUri.value,
                                            RetrieveStoredToken(r.0).value.hashedToken)
              && (r.1.value.Sent? <==> mailerAccepts)
  {
    if JavaText.NullOrBlank(u.email) then (u, Ok(Skipped))
    else if ctx.session.None? then (u, Err(NullPointer))
    else
      var (v, token) :=
        match RetrieveStoredToken(u)
        case Some(t) => (u, t)
        case None => GenerateAndStoreToken(u, random, sha);
      assert RetrieveStoredToken(v) == Some(token) by {
        if RetrieveStoredToken(u).None? { RetrieveGenerated(u, random, sha); }
      }
      match ctx.session.value.redirectUri
      case None => (v, Err(NullPointer))
      case Some(redirect) =>
        var link := LoginUrl(ctx.baseUrl, ctx.realmName, ctx.session.value.clientId, redirect, token.hashedToken);
        (v, Ok(if mailerAccepts then Sent(link) else SendFailed(link)))
  }

  // ------------------------------------------------ reading the link back

  /** `s` cut at every `sep`; the pieces never contain `sep`. */
  function Split(s: string, sep: char): (r: seq<string>)
    ensures |r| > 0
  {
    if |s| == 0 then [""]
    else
      var rest := Split(s[1..], sep);
      if s[0] == sep then [""] + rest else [[s[0]] + rest[0]] + rest[1..]
  }

  lemma {:induction false} SplitNoSep(a: string, sep: char)
    requires sep !in a
    ensures Split(a, sep) == [a]
  {
    if |a| > 0 {
      SplitNoSep(a[1..], sep);
      assert [a[0]] + a[1..] == a;
    }
  }

  lemma {:induction false} SplitJoin(a: string, sep: char, b: string)
    requires sep !in a
    ensures Split(a + ([sep] + b), sep) == [a] + Split(b, sep)
  {
    if |a| == 0 {
      assert a + ([sep] + b) == [sep] + b;
      assert ([sep] + b)[1..] == b;
    } else {
      assert (a + ([sep] + b))[1..] == a[1..] + ([sep] + b);
      SplitJoin(a[1..], sep, b);
      assert [a[0]] + a[1..] == a;
    }
  }

  /** The position of the first `c` in `s`. */
  function IndexOf(s: string, c: char): (r: Option<nat>)
    ensures r.Some? ==> r.value < |s| && s[r.value] == c && c !in s[..r.value]
    ensures r.None? ==> c !in s
  {
    if |s| == 0 then None
    else if s[0] == c then Some(0)
    else
      match IndexOf(s[1..], c)
      case None => None
      case Some(i) => assert s[..i + 1] == [s[0]] + s[1..][..i]; Some(i + 1)
  }

  /** One `name=value` field, split at its first `=` and decoded. */
  function Field(f: string): Option<(string, string)>
  {
    match IndexOf(f, '=')
    case None => None
    case Some(i) =>
      var name := UrlEncoding.Decode(f[..i]);
      var value := UrlEncoding.Decode(f[i + 1..]);
      if name.Some? && value.Some? then Some((name.value, value.value)) else None
  }

  /** The reference reading of a query string: `&`-separated fields. */
  function Fields(fs: seq<string>): Option<seq<(string, string)>>
  {
    if |fs| == 0 then Some([])
    else
      var p := Field(fs[0]);
      var ps := Fields(fs[1..]);
      if p.Some? && ps.Some? then Some([p.value] + ps.value) else None
  }

  function ParseQuery(q: string): Option<seq<(string, string)>>
  {
    Fields(Split(q, '&'))
  }

  predicate AllSafe(s: string) {
    forall i :: 0 <= i < |s| ==> UrlEncoding.IsSafe(s[i])
  }

  lemma DecodeSafe(s: string)
    requires AllSafe(s)
    ensures UrlEncoding.Decode(s) == Some(s)
  {
    UrlEncoding.EncodeSafeIdentity(s);
    UrlEncoding.DecodeEncode(s);
  }

  /** A field whose safe name is followed by an encoded value reads back as
      that name and value. */
  lemma FieldOf(name: string, value: string)
    requires AllSafe(name)
    ensures Field(Pair(name, value)) == Some((name, value))
  {
    var e := UrlEncoding.Encode(value);
    var f := Pair(name, value);
    assert '=' !in name;
    IndexAfter(name, '=', e);
    assert f[..|name|] == name;
    assert f[|name| + 1..] == e;
    DecodeSafe(name);
    UrlEncoding.DecodeEncode(value);
  }

  lemma {:induction false} IndexAfter(a: string, c: char, b: string)
    requires c !in a
    ensures IndexOf(a + ([c] + b), c) == Some(|a|)
  {
    if |a| > 0 {
      assert (a + ([c] + b))[1..] == a[1..] + ([c] + b);
      IndexAfter(a[1..], c, b);
    }
  }

  /** A field carries neither `&` nor `?`. */
  lemma PairNoDelimiter(name: string, value: string)
    requires AllSafe(name)
    ensures '&' !in Pair(name, value) && '?' !in Pair(name, value)
  {
    UrlEncoding.NoDelimiters(value);
    assert '&' !in name && '?' !in name;
  }

  /** The link cannot be misread: it is the realm's auth endpoint, with
      the realm name as one path segment, followed by a `?` and a query
      without any further `?`, and the query reads back as exactly four
      fields carrying the client id, the redirect URI and the token
      unchanged, whatever characters they contain. */
  lemma ReadsBack(baseUrl: string, realm: string, clientId: string, redirectUri: string, token: string)
    ensures var q := QueryOf(clientId, redirectUri, token);
            && LoginUrl(baseUrl, realm, clientId, redirectUri, token) == Endpoint(baseUrl, realm) + ("?" + q)
            && '/' !in UrlEncoding.Encode(realm)
            && '?' !in q
            && ParseQuery(q) == Some([("response_type", "code"), ("client_id", clientId),
                                     ("redirect_uri", redirectUri), ("user_token", token)])
  {
    FourFields("response_type", "code", "client_id", clientId, "redirect_uri", redirectUri, "user_token", token);
    UrlEncoding.NoDelimiters(realm);
  }

  /** Four fields with safe names, joined by `&`, read back as the four
      names and values. */
  lemma FourFields(n1: string, v1: string, n2: string, v2: string, n3: string, v3: string, n4: string, v4: string)
    requires AllSafe(n1) && AllSafe(n2) && AllSafe(n3) && AllSafe(n4)
    ensures var q := Pair(n1, v1) + ("&" + (Pair(n2, v2) + ("&" + (Pair(n3, v3) + ("&" + Pair(n4, v4))))));
            && '?' !in q
            && ParseQuery(q) == Some([(n1, v1), (n2, v2), (n3, v3), (n4, v4)])
  {
    var f1, f2, f3, f4 := Pair(n1, v1), Pair(n2, v2), Pair(n3, v3), Pair(n4, v4);
    PairNoDelimiter(n1, v1);
    PairNoDelimiter(n2, v2);
    PairNoDelimiter(n3, v3);
    PairNoDelimiter(n4, v4);
    SplitFour(f1, f2, f3, f4, '&');
    FieldOf(n1, v1);
    FieldOf(n2, v2);
    FieldOf(n3, v3);
    FieldOf(n4, v4);
    FieldsOfFour(f1, f2, f3, f4);
  }

  lemma FieldsOfFour(f1: string, f2: string, f3: string, f4: string)
    requires Field(f1).Some? && Field(f2).Some? && Field(f3).Some? && Field(f4).Some?
    ensures Fields([f1, f2, f3, f4]) == Some([Field(f1).value, Field(f2).value, Field(f3).value, Field(f4).value])
  {
    var p1, p2, p3, p4 := Field(f1).value, Field(f2).value, Field(f3).value, Field(f4).value;
    var s4 := [f4];
    assert s4[1..] == [];
    assert Fields(s4) == Some([p4] + []);
    assert [p4] + [] == [p4];
    var s3 := [f3] + s4;
    assert s3[1..] == s4;
    assert Fields(s3) == Some([p3] + [p4]);
    var s2 := [f2] + s3;
    assert s2[1..] == s3;
    assert [p3] + [p4] == [p3, p4];
    assert Fields(s2) == Some([p2] + [p3, p4]);
    assert [p2] + [p3, p4] == [p2, p3, p4];
    var s1 := [f1] + s2;
    assert s1[1..] == s2;
    assert Fields(s1) == Some([p1] + [p2, p3, p4]);
    assert [p1] + [p2, p3, p4] == [p1, p2, p3, p4];
    assert s1 == [f1, f2, f3, f4];
  }

  lemma SplitFour(f1: string, f2: string, f3: string, f4: string, sep: char)
    requires sep !in f1 && sep !in f2 && sep !in f3 && sep !in f4
    ensures Split(f1 + ([sep] + (f2 + ([sep] + (f3 + ([sep] + f4))))), sep) == [f1, f2, f3, f4]
  {
    SplitNoSep(f4, sep);
    SplitJoin(f3, sep, f4);
    SplitJoin(f2, sep, f3 + ([sep] + f4));
    SplitJoin(f1, sep, f2 + ([sep] + (f3 + ([sep] + f4))));
  }

  /** The link an email carries hands back, in its `user_token` field,
      exactly the token now stored on the user. */
  lemma LinkCarriesStoredToken(u: User, ctx: LinkContext, random: RandomBytes, sha: Sha256, mailerAccepts: bool)
    requires SendLoginEmail(u, ctx, random, sha, mailerAccepts).1.Ok?
    requires !SendLoginEmail(u, ctx, random, sha, mailerAccepts).1.value.Skipped?
    ensures var r := SendLoginEmail(u, ctx, random, sha, mailerAccepts);
            var token := RetrieveStoredToken(r.0).value.hashedToken;
            var q := QueryOf(ctx.session.value.clientId, ctx.session.value.redirectUri.value, token);
            && r.1.value.link == Endpoint(ctx.baseUrl, ctx.realmName) + ("?" + q)
            && ParseQuery(q).Some? && |ParseQuery(q).value| == 4
            && ParseQuery(q).value[3] == ("user_token", token)
  {
    var r := SendLoginEmail(u, ctx, random, sha, mailerAccepts);
    var token := RetrieveStoredToken(r.0).value.hashedToken;
    ReadsBack(ctx.baseUrl, ctx.realmName, ctx.session.value.clientId, ctx.session.value.redirectUri.value, token);
  }
}
