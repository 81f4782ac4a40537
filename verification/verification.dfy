/** `DemographicVerificationServiceImpl.verify`, in the authenticator
    module's one-argument form and the SPI module's `(userId, map)` form.
    The HTTP exchange is an oracle from the posted JSON body to what came
    back; every exception on the way is caught and the answer is `false`. */
module Verification {
  import opened Wrappers
  import opened JavaMaps
  import opened DemographicCodec

  /** What posting a body to the verifier's URL returns: a transport
      failure (an exception from the client) or a status and body. */
  datatype Exchange = Unreachable | Answered(status: int, body: Option<string>)

  /** The answer, and the request body that was posted, if any. */
  datatype Verdict = Verdict(valid: bool, posted: Option<string>)

  /** `Boolean.TRUE.equals(decoded.get("valid"))` after a 200 response. */
  predicate Accepts(e: Exchange) {
    && e.Answered?
    && e.status == 200
    && Decode(e.body).Ok?
    && Decode(e.body).value["valid"]
  }

  /** The decision once a request body exists: the body is posted, and only
      a 200 whose decoded `valid` is `true` is a yes. */
  function Decide(body: Result<string>, post: string -> Exchange): (v: Verdict)
    ensures v.posted.Some? <==> body.Ok?
    ensures v.posted.Some? ==> v.posted.value == body.value
    ensures v.valid <==> body.Ok? && Accepts(post(body.value))
  {
    match body
    case Err(_) => Verdict(false, None)
    case Ok(b) =>
      var e := post(b);
      if e.Answered? && e.status == 200 then
        match Decode(e.body)
        case Err(_) => Verdict(false, Some(b))
        case Ok(decoded) => Verdict(decoded["valid"], Some(b))
      else Verdict(false, Some(b))
  }

  /** The authenticator module's `verify(demographics)`. */
  function Verify(demographics: Option<JavaMap>, post: string -> Exchange): (v: Verdict)
    ensures v.posted.Some? <==> demographics.Some? && NullFree(demographics.value)
    ensures v.posted.Some? ==> v.posted == Some(EncodeFlat(demographics).value)
    ensures v.valid ==> v.posted.Some? && Accepts(post(v.posted.value))
    ensures v.posted.Some? && Accepts(post(v.posted.value)) ==> v.valid
  {
    Decide(EncodeFlat(demographics), post)
  }

  /** The SPI module's `verify(userId, demographics)`. */
  function VerifyNested(userId: Option<string>, demographics: Option<JavaMap>, post: string -> Exchange): (v: Verdict)
    ensures v.posted.Some? <==> userId.Some? && demographics.Some? && NullFree(demographics.value)
    ensures v.posted.Some? ==> v.posted == Some(EncodeNested(userId, demographics).value)
    ensures v.valid ==> v.posted.Some? && Accepts(post(v.posted.value))
    ensures v.posted.Some? && Accepts(post(v.posted.value)) ==> v.valid
  {
    Decide(EncodeNested(userId, demographics), post)
  }

  // ------------------------------------------------------------ properties

  /** Fail-closed: a status other than 200 is a no, whatever the body. */
  lemma NonOkIsFalse(demographics: Option<JavaMap>, post: string -> Exchange)
    requires forall b :: post(b).Answered? ==> post(b).status != 200
    ensures !Verify(demographics, post).valid
  {
  }

  /** An unreachable verifier is a no. */
  lemma UnreachableIsFalse(demographics: Option<JavaMap>, post: string -> Exchange)
    requires forall b :: post(b) == Unreachable
    ensures !Verify(demographics, post).valid
  {
  }

  /** A 200 whose body has no boolean `valid` is a no. */
  lemma MissingValidIsFalse(m: JavaMap, post: string -> Exchange)
    requires NullFree(m)
    requires var e := post(EncodeFlat(Some(m)).value);
             e.Answered? && e.status == 200 && (Decode(e.body).Err? || !Decode(e.body).value["valid"])
    ensures !Verify(Some(m), post).valid
  {
  }

  /** No local pre-check: an empty map is encoded as `{}` and posted, and
      a verifier that accepts it makes the answer yes. */
  lemma EmptyMapIsPosted(post: string -> Exchange)
    ensures Verify(Some([]), post).posted == Some("{}")
    ensures Verify(Some([]), post).valid <==> Accepts(post("{}"))
  {
    assert Members([]) == Ok([]);
    assert JsonText.WriteMembers([], false) == [];
    assert JsonText.Write(JsonText.JObject([]), false) == "{}";
  }

  /** A null map or a null userId is a no, and nothing is posted. */
  lemma NullInputsAreFalse(userId: Option<string>, m: Option<JavaMap>, post: string -> Exchange)
    requires userId.None? || m.None?
    ensures VerifyNested(userId, m, post) == Verdict(false, None)
    ensures m.None? ==> Verify(m, post) == Verdict(false, None)
  {
  }

  /** The posted body carries the map: the verifier sees exactly the
      entries it was given. */
  lemma PostedBodyCarriesMap(m: JavaMap, post: string -> Exchange)
    requires NullFree(m)
    ensures var body := Verify(Some(m), post).posted;
            body.Some? && ReadObject(body).Ok? && Entries(ReadObject(body).value) == Some(m)
  {
    EncodeFlatRoundTrip(m);
  }
}
