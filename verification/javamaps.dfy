/** A `java.util.Map<String, String>` seen through its iterator: the
    entries in iteration order. Keys and values may be null; keys are
    distinct, as in any Java map. */
module JavaMaps {
  import opened Wrappers

  datatype Entry = Entry(key: Option<string>, value: Option<string>)

  predicate DistinctKeys(m: seq<Entry>) {
    forall i, j :: 0 <= i < j < |m| ==> m[i].key != m[j].key
  }

  type JavaMap = m: seq<Entry> | DistinctKeys(m) witness []

  /** `map.get(k)`: null both for an absent key and for a key mapped to null. */
  function Get(m: JavaMap, k: string): (r: Option<string>)
    ensures r.Some? <==> exists i :: 0 <= i < |m| && m[i].key == Some(k) && m[i].value.Some?
    ensures forall i :: 0 <= i < |m| && m[i].key == Some(k) ==> r == m[i].value
  {
    if |m| == 0 then None
    else if m[0].key == Some(k) then m[0].value
    else Get(m[1..], k)
  }

  /** No null key and no null value. */
  predicate NullFree(m: seq<Entry>) {
    forall i :: 0 <= i < |m| ==> m[i].key.Some? && m[i].value.Some?
  }

  /** The map the demographic authenticators build from the login form:
      `put("firstName", …)` then `put("lastName", …)` on a fresh `HashMap`.
      Both keys hash to bucket 1 of the default 16-bucket table, so the
      iterator yields them in insertion order. */
  function NamesMap(firstName: Option<string>, lastName: Option<string>): (m: JavaMap)
    ensures |m| == 2
    ensures Get(m, "firstName") == firstName && Get(m, "lastName") == lastName
    ensures forall i :: 0 <= i < |m| ==> m[i].key == Some("firstName") || m[i].key == Some("lastName")
  {
    [Entry(Some("firstName"), firstName), Entry(Some("lastName"), lastName)]
  }
}
