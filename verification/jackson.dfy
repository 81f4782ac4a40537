/** The Jackson binding the credential blobs go through
    (`JsonSerialization.writeValueAsString` / `readValue`) for a bean with
    one `String` property bound by a `@JsonCreator` constructor: null
    properties are left out when writing, scalar tokens are accepted as
    text when reading, and an unknown property is an error. */
module JacksonBeans {
  import opened Wrappers
  import opened JsonText

  /** A one-property bean; `value` is the property, possibly null. */
  datatype Bean = Bean(value: Option<string>)

  /** The JSON tree a bean is written as. */
  function BeanJson(prop: string, b: Bean): (j: Json)
    ensures NumberFree(j)
    ensures j.JObject? && |j.members| <= 1
  {
    match b.value
    case None => JObject([])
    case Some(v) => JObject([Member(prop, JString(v))])
  }

  /** `writeValueAsString(bean)`: compact output with Jackson's escapes; a
      bean with a null property is written as `{}`. */
  function WriteBean(prop: string, b: Bean): (t: string)
    ensures Parse(t) == Some(BeanJson(prop, b))
    ensures b.value.None? ==> t == "{}"
  {
    ParseWriteDocument(BeanJson(prop, b), true);
    Write(BeanJson(prop, b), true)
  }

  /** The text Jackson binds to a `String` property: strings as they are,
      numbers as their lexeme, booleans as `true`/`false`, null as null;
      arrays and objects are rejected. */
  function Coerce(j: Json): (r: Result<Option<string>>)
    ensures r.Ok? <==> !j.JArray? && !j.JObject?
    ensures r.Ok? ==> (r.value.None? <==> j.JNull?)
    ensures j.JString? ==> r == Ok(Some(j.s))
    ensures r.Err? ==> r.error == JsonParsing
  {
    match j
    case JNull => Ok(None)
    case JString(s) => Ok(Some(s))
    case JNumber(lexeme) => Ok(Some(lexeme))
    case JBool(b) => Ok(Some(if b then "true" else "false"))
    case _ => Err(JsonParsing)
  }

  /** Binds an object's members in order, starting from `current`: any
      other name fails, and a repeated name overrides the earlier value. */
  function Bind(prop: string, ms: seq<Member>, current: Option<string>): (r: Result<Option<string>>)
    ensures r.Ok? <==> forall i :: 0 <= i < |ms| ==> ms[i].name == prop && Coerce(ms[i].value).Ok?
    ensures r.Ok? && |ms| > 0 ==> r.value == Coerce(ms[|ms| - 1].value).value
    ensures r.Ok? && |ms| == 0 ==> r.value == current
    ensures r.Err? ==> r.error == JsonParsing
  {
    if |ms| == 0 then Ok(current)
    else if ms[0].name != prop then Err(JsonParsing)
    else
      match Coerce(ms[0].value)
      case Err(e) => Err(e)
      case Ok(v) =>
        var r := Bind(prop, ms[1..], v);
        assert forall i :: 1 <= i < |ms| ==> ms[i] == ms[1..][i - 1];
        r
  }

  const NullContent := "argument \"content\" is null"

  /** `readValue(blob, Bean.class)`: a null blob is an illegal argument;
      text whose leading value is not an object or `null`, or whose object
      does not bind, is a (checked) parsing exception; `null` gives a null
      bean. Text after the leading value is not looked at. */
  function ReadBean(prop: string, blob: Option<string>): (r: Result<Option<Bean>>)
    ensures r == Err(IllegalArgument(NullContent)) <==> blob.None?
    ensures r.Err? && blob.Some? ==> r.error == JsonParsing
    ensures r == Ok(None) <==> blob.Some? && ParseValue(blob.value).Some? && ParseValue(blob.value).value.0 == JNull
    ensures r.Ok? && r.value.Some? ==>
              && blob.Some? && ParseValue(blob.value).Some? && ParseValue(blob.value).value.0.JObject?
              && Bind(prop, ParseValue(blob.value).value.0.members, None) == Ok(r.value.value.value)
  {
    match blob
    case None => Err(IllegalArgument(NullContent))
    case Some(t) =>
      match ParseValue(t)
      case None => Err(JsonParsing)
      case Some((JNull, _)) => Ok(None)
      case Some((JObject(ms), _)) =>
        (match Bind(prop, ms, None)
         case Ok(v) => Ok(Some(Bean(v)))
         case Err(e) => Err(e))
      case Some(_) => Err(JsonParsing)
  }

  /** Round trip: a written bean reads back as the same bean. */
  lemma ReadWriteBean(prop: string, b: Bean)
    ensures ReadBean(prop, Some(WriteBean(prop, b))) == Ok(Some(b))
  {
    var t := WriteBean(prop, b);
    assert ParseValue(t).Some? && ParseValue(t).value.0 == BeanJson(prop, b);
  }
}
