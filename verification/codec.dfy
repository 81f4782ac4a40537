/** `DemographicDataCodec`, in its two copies: the authenticator module's
    flat `encode(map)` and the SPI module's nested `encode(userId, map)`,
    both written through a JSON-P object builder and writer, and the shared
    `decode`, which reads one object and its boolean `valid` member. */
module DemographicCodec {
  import opened Wrappers
  import opened JsonText
  import opened JavaMaps

  /** `map.forEach(builder::add)`: one string member per entry, in
      iteration order; `add` throws on a null name or value. */
  function Members(m: seq<Entry>): (r: Result<seq<Member>>)
    ensures r.Ok? <==> NullFree(m)
    ensures r.Err? ==> r.error == NullPointer
    ensures r.Ok? ==> |r.value| == |m|
    ensures r.Ok? ==> forall i :: 0 <= i < |m| ==> r.value[i] == Member(m[i].key.value, JString(m[i].value.value))
  {
    if |m| == 0 then Ok([])
    else if m[0].key.None? || m[0].value.None? then Err(NullPointer)
    else
      match Members(m[1..])
      case Err(e) => Err(e)
      case Ok(rest) => Ok([Member(m[0].key.value, JString(m[0].value.value))] + rest)
  }

  /** The entries a string-valued object stands for; `None` when some
      member is not a string. */
  function Entries(ms: seq<Member>): (r: Option<seq<Entry>>)
    ensures r.Some? ==> |r.value| == |ms| && NullFree(r.value)
  {
    if |ms| == 0 then Some([])
    else if !ms[0].value.JString? then None
    else
      match Entries(ms[1..])
      case None => None
      case Some(rest) => Some([Entry(Some(ms[0].name), Some(ms[0].value.s))] + rest)
  }

  lemma {:induction false} EntriesOfMembers(m: seq<Entry>)
    requires NullFree(m)
    ensures Members(m).Ok? && Entries(Members(m).value) == Some(m)
  {
    if |m| > 0 {
      EntriesOfMembers(m[1..]);
      assert [m[0]] + m[1..] == m;
    }
  }

  /** Every member produced from a string map is number-free. */
  lemma MembersNumberFree(m: seq<Entry>)
    requires Members(m).Ok?
    ensures NumberFree(JObject(Members(m).value))
  {
  }

  /** The authenticator module's `encode(demographics)`: the compact object
      whose members are the map's entries, in iteration order. */
  function EncodeFlat(m: Option<JavaMap>): (r: Result<string>)
    ensures r.Ok? <==> m.Some? && NullFree(m.value)
    ensures r.Err? ==> r.error == NullPointer
  {
    if m.None? then Err(NullPointer)
    else
      match Members(m.value)
      case Err(e) => Err(e)
      case Ok(ms) => Ok(Write(JObject(ms), false))
  }

  /** The SPI module's `encode(userId, demographics)`:
      `{"userId": u, "demographics": {…}}`. `add("userId", null)` throws
      before the map is read. */
  function EncodeNested(userId: Option<string>, m: Option<JavaMap>): (r: Result<string>)
    ensures r.Ok? <==> userId.Some? && m.Some? && NullFree(m.value)
    ensures r.Err? ==> r.error == NullPointer
  {
    if userId.None? || m.None? then Err(NullPointer)
    else
      match Members(m.value)
      case Err(e) => Err(e)
      case Ok(ms) =>
        Ok(Write(JObject([Member("userId", JString(userId.value)), Member("demographics", JObject(ms))]), false))
  }

  /** `Json.createReader(new StringReader(json)).readObject()`: a null
      string throws a null-pointer exception and a text that does not start
      with an object a parsing exception. */
  function ReadObject(text: Option<string>): (r: Result<seq<Member>>)
    ensures r.Err? ==> r.error == NullPointer || r.error == JsonParsing
    ensures r.Ok? <==> text.Some? && ParseValue(text.value).Some? && ParseValue(text.value).value.0.JObject?
  {
    if text.None? then Err(NullPointer)
    else
      match ParseValue(text.value)
      case Some((JObject(ms), _)) => Ok(ms)
      case _ => Err(JsonParsing)
  }

  /** `JsonObject.getBoolean(name)`: a missing member throws a null-pointer
      exception and a member that is not `true` or `false` a class-cast
      exception. */
  function GetBoolean(ms: seq<Member>, name: string): (r: Result<bool>)
    ensures r.Ok? <==> Lookup(ms, name).Some? && Lookup(ms, name).value.JBool?
    ensures r.Ok? ==> Lookup(ms, name) == Some(JBool(r.value))
    ensures r.Err? ==> (r.error == NullPointer <==> Lookup(ms, name).None?)
    ensures r.Err? ==> r.error == NullPointer || r.error == ClassCast
  {
    match Lookup(ms, name)
    case None => Err(NullPointer)
    case Some(JBool(b)) => Ok(b)
    case Some(_) => Err(ClassCast)
  }

  /** `decode(json)`: the map `{valid ↦ b}` for the boolean member `valid`
      of the object read from `json`; both module copies are identical. */
  function Decode(json: Option<string>): (r: Result<map<string, bool>>)
    ensures r.Ok? ==> r.value.Keys == {"valid"}
    ensures r.Ok? <==> ReadObject(json).Ok? && GetBoolean(ReadObject(json).value, "valid").Ok?
    ensures r.Ok? ==> r.value["valid"] == GetBoolean(ReadObject(json).value, "valid").value
  {
    match ReadObject(json)
    case Err(e) => Err(e)
    case Ok(ms) =>
      match GetBoolean(ms, "valid")
      case Err(e) => Err(e)
      case Ok(b) => Ok(map["valid" := b])
  }

  // ------------------------------------------------------------ properties

  /** The flat encoding parses back to an object whose members are exactly
      the map's entries, and reading those members as entries gives the
      map back. */
  lemma EncodeFlatRoundTrip(m: JavaMap)
    requires NullFree(m)
    ensures EncodeFlat(Some(m)).Ok?
    ensures var ms := Members(m).value;
            && ReadObject(Some(EncodeFlat(Some(m)).value)) == Ok(ms)
            && Entries(ms) == Some(m)
            && forall i :: 0 <= i < |m| ==> Lookup(ms, m[i].key.value) == Some(JString(m[i].value.value))
  {
    var ms := Members(m).value;
    MembersNumberFree(m);
    ParseWrite(JObject(ms), false, []);
    assert Write(JObject(ms), false) + [] == Write(JObject(ms), false);
    EntriesOfMembers(m);
    forall i | 0 <= i < |m|
      ensures Lookup(ms, m[i].key.value) == Some(JString(m[i].value.value))
    {
      LookupDistinct(m, ms, i);
    }
  }

  /** With distinct keys, the member a key selects is the one built from
      its entry. */
  lemma LookupDistinct(m: JavaMap, ms: seq<Member>, i: int)
    requires NullFree(m) && Members(m) == Ok(ms) && 0 <= i < |m|
    ensures Lookup(ms, m[i].key.value) == Some(JString(m[i].value.value))
  {
    var k := m[i].key.value;
    assert ms[i].name == k;
    var r := Lookup(ms, k);
    var j :| 0 <= j < |ms| && ms[j].name == k && ms[j].value == r.value;
    assert m[j].key == m[i].key;
    assert j == i;
  }

  /** The nested encoding parses back to `userId` and the demographics
      object, whose members read back as the map. */
  lemma EncodeNestedRoundTrip(userId: string, m: JavaMap)
    requires NullFree(m)
    ensures EncodeNested(Some(userId), Some(m)).Ok?
    ensures var ms := ReadObject(Some(EncodeNested(Some(userId), Some(m)).value));
            && ms.Ok?
            && Lookup(ms.value, "userId") == Some(JString(userId))
            && Lookup(ms.value, "demographics") == Some(JObject(Members(m).value))
            && Entries(Members(m).value) == Some(m)
  {
    var dm := Members(m).value;
    var doc := JObject([Member("userId", JString(userId)), Member("demographics", JObject(dm))]);
    MembersNumberFree(m);
    assert NumberFree(doc);
    ParseWrite(doc, false, []);
    assert Write(doc, false) + [] == Write(doc, false);
    EntriesOfMembers(m);
  }

  /** Decoding a written `{"valid": b}` gives `{valid ↦ b}`. */
  lemma DecodeVerdictRoundTrip(b: bool)
    ensures Decode(Some(Write(JObject([Member("valid", JBool(b))]), false))) == Ok(map["valid" := b])
  {
    var doc := JObject([Member("valid", JBool(b))]);
    ParseWrite(doc, false, []);
    assert Write(doc, false) + [] == Write(doc, false);
  }
}
