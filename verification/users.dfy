/** The slice of Keycloak's user model the plugin touches: users with
    their attributes, profile fields, required actions and stored
    credentials, and the realm's user store as a sequence in search order. */
module Users {
  import opened Wrappers

  /** A `CredentialModel`: every field may be unset (null). */
  datatype Credential = Credential(
    id: Option<string>,
    credType: Option<string>,
    userLabel: Option<string>,
    createdDate: Option<int>,
    secretData: Option<string>,
    credentialData: Option<string>)

  const NoCredential := Credential(None, None, None, None, None, None)

  datatype User = User(
    id: string,
    username: string,
    email: Option<string>,
    firstName: Option<string>,
    lastName: Option<string>,
    enabled: bool,
    emailVerified: bool,
    attributes: map<string, seq<string>>,
    credentials: seq<Credential>,
    requiredActions: set<string>)

  /** A user fresh from `addUser(username)`: the store gives it the realm's
      enabled default required actions, `defaults`; nothing else is set. */
  function NewUser(id: string, username: string, defaults: set<string>): (u: User)
    ensures u.id == id && u.username == username
    ensures u.email.None? && u.firstName.None? && u.lastName.None?
    ensures !u.enabled && !u.emailVerified
    ensures u.attributes == map[] && u.credentials == [] && u.requiredActions == defaults
  {
    User(id, username, None, None, None, false, false, map[], [], defaults)
  }

  // ------------------------------------------------------------ attributes

  /** `getFirstAttribute(name)`: null when the attribute is absent or empty. */
  function FirstAttribute(u: User, name: string): (r: Option<string>)
    ensures r.Some? <==> name in u.attributes && |u.attributes[name]| > 0
    ensures r.Some? ==> r.value == u.attributes[name][0]
  {
    if name in u.attributes && |u.attributes[name]| > 0 then Some(u.attributes[name][0]) else None
  }

  /** `setSingleAttribute(name, value)`: the attribute holds exactly
      `value`; a null value removes it. */
  function SetSingleAttribute(u: User, name: string, value: Option<string>): (v: User)
    ensures value.Some? ==> name in v.attributes && v.attributes[name] == [value.value]
    ensures value.None? ==> name !in v.attributes
    ensures forall k :: k != name ==> (k in v.attributes <==> k in u.attributes)
    ensures forall k :: k != name && k in u.attributes ==> v.attributes[k] == u.attributes[k]
    ensures v.(attributes := u.attributes) == u
  {
    match value
    case Some(x) => u.(attributes := u.attributes[name := [x]])
    case None => u.(attributes := u.attributes - {name})
  }

  lemma FirstOfSingle(u: User, name: string, value: string)
    ensures FirstAttribute(SetSingleAttribute(u, name, Some(value)), name) == Some(value)
  {
  }

  // ------------------------------------------------------------ user store

  type Store = seq<User>

  predicate HasAttributeValue(u: User, name: string, value: string) {
    name in u.attributes && value in u.attributes[name]
  }

  /** `searchForUserByUserAttributeStream(name, value).findFirst()`: the
      first user, in search order, one of whose values for `name` is
      exactly `value`. */
  function FirstWithAttribute(store: Store, name: string, value: string): (r: Option<nat>)
    ensures r.Some? ==> r.value < |store| && HasAttributeValue(store[r.value], name, value)
    ensures r.Some? ==> forall i :: 0 <= i < r.value ==> !HasAttributeValue(store[i], name, value)
    ensures r.None? ==> forall i :: 0 <= i < |store| ==> !HasAttributeValue(store[i], name, value)
  {
    if |store| == 0 then None
    else if HasAttributeValue(store[0], name, value) then Some(0)
    else
      match FirstWithAttribute(store[1..], name, value)
      case None => None
      case Some(i) => Some(i + 1)
  }

  /** `getUserByEmail(email)` */
  function FindByEmail(store: Store, email: string): (r: Option<nat>)
    ensures r.Some? ==> r.value < |store| && store[r.value].email == Some(email)
    ensures r.Some? ==> forall i :: 0 <= i < r.value ==> store[i].email != Some(email)
    ensures r.None? ==> forall i :: 0 <= i < |store| ==> store[i].email != Some(email)
  {
    if |store| == 0 then None
    else if store[0].email == Some(email) then Some(0)
    else
      match FindByEmail(store[1..], email)
      case None => None
      case Some(i) => Some(i + 1)
  }

  /** `getUserByUsername(username)`; a null username finds nobody. */
  function FindByUsername(store: Store, username: Option<string>): (r: Option<nat>)
    ensures r.Some? ==> r.value < |store| && username == Some(store[r.value].username)
    ensures r.Some? ==> forall i :: 0 <= i < r.value ==> username != Some(store[i].username)
    ensures r.None? ==> forall i :: 0 <= i < |store| ==> username != Some(store[i].username)
  {
    if username.None? || |store| == 0 then None
    else if store[0].username == username.value then Some(0)
    else
      match FindByUsername(store[1..], username)
      case None => None
      case Some(i) => Some(i + 1)
  }

  /** The number of users whose email is `email`. */
  function CountEmail(store: Store, email: string): nat
  {
    if |store| == 0 then 0
    else (if store[0].email == Some(email) then 1 else 0) + CountEmail(store[1..], email)
  }

  lemma {:induction false} CountEmailAppend(a: Store, b: Store, email: string)
    ensures CountEmail(a + b, email) == CountEmail(a, email) + CountEmail(b, email)
  {
    if |a| > 0 {
      assert (a + b)[1..] == a[1..] + b;
      CountEmailAppend(a[1..], b, email);
    } else {
      assert a + b == b;
    }
  }

  lemma {:induction false} CountEmailUpdate(store: Store, i: nat, u: User, email: string)
    requires i < |store|
    ensures CountEmail(store[i := u], email) ==
            CountEmail(store, email) - (if store[i].email == Some(email) then 1 else 0)
                                     + (if u.email == Some(email) then 1 else 0)
  {
    if i == 0 {
      assert store[i := u][1..] == store[1..];
    } else {
      assert store[i := u][1..] == store[1..][i - 1 := u];
      CountEmailUpdate(store[1..], i - 1, u, email);
    }
  }

  lemma {:induction false} CountEmailZero(store: Store, email: string)
    requires forall i :: 0 <= i < |store| ==> store[i].email != Some(email)
    ensures CountEmail(store, email) == 0
  {
    if |store| > 0 {
      CountEmailZero(store[1..], email);
    }
  }

  // ----------------------------------------------------------- credentials

  /** `getStoredCredentialsByTypeStream(type)`: the credentials of that
      type, in priority order. */
  function StoredByType(u: User, credType: string): (r: seq<Credential>)
    ensures forall c :: c in r <==> c in u.credentials && c.credType == Some(credType)
    ensures |r| <= |u.credentials|
  {
    Filter(u.credentials, credType)
  }

  function Filter(cs: seq<Credential>, credType: string): (r: seq<Credential>)
    ensures forall c :: c in r <==> c in cs && c.credType == Some(credType)
    ensures |r| <= |cs|
  {
    if |cs| == 0 then []
    else if cs[0].credType == Some(credType) then [cs[0]] + Filter(cs[1..], credType)
    else Filter(cs[1..], credType)
  }

  /** `getDefaultCredential`: the first credential of the type, in priority
      order, or null. */
  function DefaultCredential(u: User, credType: string): (r: Option<Credential>)
    ensures r.None? <==> forall i :: 0 <= i < |u.credentials| ==> u.credentials[i].credType != Some(credType)
    ensures r.Some? ==> exists i :: 0 <= i < |u.credentials| && u.credentials[i] == r.value
                          && r.value.credType == Some(credType)
                          && forall j :: 0 <= j < i ==> u.credentials[j].credType != Some(credType)
  {
    FirstOfType(u.credentials, credType)
  }

  function FirstOfType(cs: seq<Credential>, credType: string): (r: Option<Credential>)
    ensures r.None? <==> forall i :: 0 <= i < |cs| ==> cs[i].credType != Some(credType)
    ensures r.Some? ==> exists i :: 0 <= i < |cs| && cs[i] == r.value && r.value.credType == Some(credType)
                          && forall j :: 0 <= j < i ==> cs[j].credType != Some(credType)
  {
    if |cs| == 0 then None
    else if cs[0].credType == Some(credType) then Some(cs[0])
    else
      var r := FirstOfType(cs[1..], credType);
      if r.Some? then
        ghost var i :| 0 < i + 1 <= |cs[1..]| && cs[1..][i] == r.value && r.value.credType == Some(credType)
                       && forall j :: 0 <= j < i ==> cs[1..][j].credType != Some(credType);
        assert cs[i + 1] == r.value;
        r
      else r
  }

  /** `getStoredCredentialById(id)`: the user's credential with that id, or
      null. */
  function StoredById(u: User, id: Option<string>): (r: Option<Credential>)
    ensures r.Some? ==> r.value in u.credentials && r.value.id == id && id.Some?
    ensures r.None? ==> id.None? || forall c :: c in u.credentials ==> c.id != id
  {
    if id.None? then None else FirstWithId(u.credentials, id.value)
  }

  function FirstWithId(cs: seq<Credential>, id: string): (r: Option<Credential>)
    ensures r.Some? ==> r.value in cs && r.value.id == Some(id)
    ensures r.None? ==> forall c :: c in cs ==> c.id != Some(id)
  {
    if |cs| == 0 then None
    else if cs[0].id == Some(id) then Some(cs[0])
    else FirstWithId(cs[1..], id)
  }

  predicate IdFresh(u: User, id: string) {
    forall c :: c in u.credentials ==> c.id != Some(id)
  }

  /** `createStoredCredential(c)`: the credential, with the generated id
      `freshId` when it has none, is appended at the lowest priority. */
  function CreateStored(u: User, c: Credential, freshId: string): (r: (User, Credential))
    ensures r.1 == (if c.id.None? then c.(id := Some(freshId)) else c)
    ensures r.0.credentials == u.credentials + [r.1]
    ensures r.0.(credentials := u.credentials) == u
  {
    var stored := if c.id.None? then c.(id := Some(freshId)) else c;
    (u.(credentials := u.credentials + [stored]), stored)
  }

  /** `removeStoredCredentialById(id)`: drops every credential with that
      id and reports whether there was one. */
  function RemoveStoredById(u: User, id: Option<string>): (r: (User, bool))
    ensures r.1 <==> exists c :: c in u.credentials && c.id == id && id.Some?
    ensures forall c :: c in r.0.credentials <==> c in u.credentials && (id.None? || c.id != id)
    ensures r.0.(credentials := u.credentials) == u
  {
    if id.None? then (u, false)
    else
      var kept := Without(u.credentials, id.value);
      (u.(credentials := kept), |kept| < |u.credentials|)
  }

  function Without(cs: seq<Credential>, id: string): (r: seq<Credential>)
    ensures forall c :: c in r <==> c in cs && c.id != Some(id)
    ensures |r| <= |cs|
    ensures |r| == |cs| <==> forall c :: c in cs ==> c.id != Some(id)
  {
    if |cs| == 0 then []
    else if cs[0].id == Some(id) then Without(cs[1..], id)
    else [cs[0]] + Without(cs[1..], id)
  }

  /** `updateStoredCredential(c)`: the stored credential with `c`'s id
      takes `c`'s fields, in place; no other credential changes. */
  function UpdateStored(u: User, c: Credential): (v: User)
    ensures |v.credentials| == |u.credentials|
    ensures forall i :: 0 <= i < |u.credentials| ==>
              v.credentials[i] == (if c.id.Some? && u.credentials[i].id == c.id then c else u.credentials[i])
    ensures v.(credentials := u.credentials) == u
  {
    u.(credentials := Replace(u.credentials, c))
  }

  function Replace(cs: seq<Credential>, c: Credential): (r: seq<Credential>)
    ensures |r| == |cs|
    ensures forall i :: 0 <= i < |cs| ==> r[i] == (if c.id.Some? && cs[i].id == c.id then c else cs[i])
  {
    if |cs| == 0 then []
    else [if c.id.Some? && cs[0].id == c.id then c else cs[0]] + Replace(cs[1..], c)
  }
}
