/** `DemographicDataHelper`: moving the five demographic fields between the
    login form, the authentication session and the realm's users, and the
    check that all five were supplied. */
module DemographicDataHelper {
  import opened Wrappers
  import opened JavaText
  import opened Users
  import opened Flow
  import opened AuthSessions

  /** The authenticator module's `DemographicData`: five nullable strings. */
  datatype HelperData = HelperData(
    firstName: Option<string>,
    lastName: Option<string>,
    dateOfBirth: Option<string>,
    email: Option<string>,
    pin: Option<string>)

  const MissingEmail := "Email is required for user registration."

  /** `extractFromRequest`: the five form fields as submitted. */
  function ExtractFromRequest(form: Params): (d: HelperData)
    ensures d.firstName == GetFirst(form, "firstName") && d.lastName == GetFirst(form, "lastName")
    ensures d.dateOfBirth == GetFirst(form, "dateOfBirth") && d.email == GetFirst(form, "email")
    ensures d.pin == GetFirst(form, "pin")
  {
    HelperData(GetFirst(form, "firstName"), GetFirst(form, "lastName"), GetFirst(form, "dateOfBirth"),
               GetFirst(form, "email"), GetFirst(form, "pin"))
  }

  /** `extractFromSession`: the five notes of the same names. */
  function ExtractFromSession(notes: Notes): (d: HelperData)
    ensures d.firstName == GetNote(notes, "firstName") && d.lastName == GetNote(notes, "lastName")
    ensures d.dateOfBirth == GetNote(notes, "dateOfBirth") && d.email == GetNote(notes, "email")
    ensures d.pin == GetNote(notes, "pin")
  {
    HelperData(GetNote(notes, "firstName"), GetNote(notes, "lastName"), GetNote(notes, "dateOfBirth"),
               GetNote(notes, "email"), GetNote(notes, "pin"))
  }

  /** `storeInAuthSession`: one note per field; reading the session back
      gives the same data, and no other note changes. */
  function StoreInAuthSession(notes: Notes, d: HelperData): (r: Notes)
    ensures ExtractFromSession(r) == d
    ensures forall k :: k !in {"firstName", "lastName", "dateOfBirth", "email", "pin"} ==> GetNote(r, k) == GetNote(notes, k)
  {
    var n1 := SetNote(notes, "firstName", d.firstName);
    var n2 := SetNote(n1, "lastName", d.lastName);
    var n3 := SetNote(n2, "dateOfBirth", d.dateOfBirth);
    var n4 := SetNote(n3, "email", d.email);
    SetNote(n4, "pin", d.pin)
  }

  /** `isNotBlank` */
  predicate NotBlank(s: Option<string>) {
    s.Some? && !IsBlank(s.value)
  }

  /** `isValid(data)`: false for null data, otherwise every field is
      present and holds a character other than whitespace. */
  function IsValid(d: Option<HelperData>): (b: bool)
    ensures d.None? ==> !b
    ensures b <==> d.Some? && !NullOrBlank(d.value.firstName) && !NullOrBlank(d.value.lastName)
                   && !NullOrBlank(d.value.dateOfBirth) && !NullOrBlank(d.value.email) && !NullOrBlank(d.value.pin)
    ensures b ==> exists i :: 0 <= i < |d.value.pin.value| && !IsWhitespace(d.value.pin.value[i])
  {
    match d
    case None => false
    case Some(x) =>
      NotBlank(x.firstName) && NotBlank(x.lastName) && NotBlank(x.dateOfBirth) && NotBlank(x.email) && NotBlank(x.pin)
  }

  /** The user `saveUser` leaves behind, and where it sits in the store. */
  datatype Saved = Saved(store: Store, user: nat)

  /** `saveUser`: a null or blank `email` note is an
      `IllegalArgumentException`. Otherwise the user with that email, or a
      new enabled user named by it with the email verified (`freshId` is the
      id the store generates, `defaults` the realm's default required
      actions it adds), gets first name, last name and the
      `dateOfBirth` attribute from the notes; the `pin` note is not used. */
  function SaveUser(store: Store, notes: Notes, freshId: string, defaults: set<string>): (r: Result<Saved>)
    ensures NullOrBlank(GetNote(notes, "email")) <==> r.Err?
    ensures r.Err? ==> r.error == IllegalArgument(MissingEmail)
    ensures r.Ok? ==> r.value.user < |r.value.store|
    ensures r.Ok? ==>
              var email := GetNote(notes, "email").value;
              var v := r.value.store[r.value.user];
              && v.email == Some(email)
              && v.firstName == GetNote(notes, "firstName") && v.lastName == GetNote(notes, "lastName")
              && FirstAttribute(v, "dateOfBirth") == GetNote(notes, "dateOfBirth")
    ensures r.Ok? && FindByEmail(store, GetNote(notes, "email").value).Some? ==>
              && r.value.user == FindByEmail(store, GetNote(notes, "email").value).value
              && r.value.store == store[r.value.user := Profiled(store[r.value.user], notes)]
    ensures r.Ok? && FindByEmail(store, GetNote(notes, "email").value).None? ==>
              var v := r.value.store[r.value.user];
              && r.value.store == store + [v]
              && v.id == freshId && v.username == GetNote(notes, "email").value && v.enabled && v.emailVerified
              && v.credentials == [] && v.requiredActions == defaults
  {
    var email := GetNote(notes, "email");
    if NullOrBlank(email) then Err(IllegalArgument(MissingEmail))
    else
      var (store1, i) :=
        match FindByEmail(store, email.value)
        case Some(i) => (store, i)
        case None =>
          var created := NewUser(freshId, email.value, defaults).(enabled := true, email := email, emailVerified := true);
          (store + [created], |store|);
      Ok(Saved(store1[i := Profiled(store1[i], notes)], i))
  }

  /** The profile `saveUser` writes: names and date of birth from the notes. */
  function Profiled(u: User, notes: Notes): (v: User)
    ensures v.firstName == GetNote(notes, "firstName") && v.lastName == GetNote(notes, "lastName")
    ensures FirstAttribute(v, "dateOfBirth") == GetNote(notes, "dateOfBirth")
    ensures v.(firstName := u.firstName, lastName := u.lastName, attributes := u.attributes) == u
  {
    SetSingleAttribute(u.(firstName := GetNote(notes, "firstName"), lastName := GetNote(notes, "lastName")),
                       "dateOfBirth", GetNote(notes, "dateOfBirth"))
  }

  /** Saving leaves exactly one user with the email when there was at
      most one before. */
  lemma SaveUserOneHolder(store: Store, notes: Notes, freshId: string, defaults: set<string>)
    requires SaveUser(store, notes, freshId, defaults).Ok?
    requires CountEmail(store, GetNote(notes, "email").value) <= 1
    ensures CountEmail(SaveUser(store, notes, freshId, defaults).value.store, GetNote(notes, "email").value) == 1
  {
    var email := GetNote(notes, "email").value;
    var s1 := SaveUser(store, notes, freshId, defaults).value;
    var v := s1.store[s1.user];
    match FindByEmail(store, email)
    case Some(i) =>
      AtLeastOne(store, email, i);
      CountEmailUpdate(store, i, v, email);
    case None =>
      CountEmailZero(store, email);
      CountEmailAppend(store, [v], email);
      assert [v][1..] == [];
  }

  /** Find-or-create: saving twice with the same email leaves exactly one
      user with it, and the second save neither creates a user nor moves to
      another one. */
  lemma SaveUserTwice(store: Store, notes: Notes, notes2: Notes, freshId: string, freshId2: string, defaults: set<string>)
    requires SaveUser(store, notes, freshId, defaults).Ok?
    requires CountEmail(store, GetNote(notes, "email").value) <= 1
    requires GetNote(notes2, "email") == GetNote(notes, "email")
    ensures var s1 := SaveUser(store, notes, freshId, defaults).value;
            var r2 := SaveUser(s1.store, notes2, freshId2, defaults);
            && r2.Ok? && |r2.value.store| == |s1.store| && r2.value.user == s1.user
            && CountEmail(r2.value.store, GetNote(notes, "email").value) == 1
  {
    var email := GetNote(notes, "email").value;
    var s1 := SaveUser(store, notes, freshId, defaults).value;
    SaveUserOneHolder(store, notes, freshId, defaults);
    assert FindByEmail(s1.store, email).Some?;
    var j := FindByEmail(s1.store, email).value;
    OnlyHolder(s1.store, email, s1.user, j);
    SaveUserOneHolder(s1.store, notes2, freshId2, defaults);
  }

  /** With one holder of an email, the first holder is that one. */
  lemma {:induction false} OnlyHolder(store: Store, email: string, i: nat, j: nat)
    requires CountEmail(store, email) == 1
    requires i < |store| && j < |store| && store[i].email == Some(email) && store[j].email == Some(email)
    ensures i == j
  {
    if i != j {
      var lo, hi := if i < j then i else j, if i < j then j else i;
      TwoHolders(store, email, lo, hi);
    }
  }

  lemma {:induction false} TwoHolders(store: Store, email: string, lo: nat, hi: nat)
    requires lo < hi < |store| && store[lo].email == Some(email) && store[hi].email == Some(email)
    ensures CountEmail(store, email) >= 2
  {
    if lo == 0 {
      AtLeastOne(store[1..], email, hi - 1);
    } else {
      TwoHolders(store[1..], email, lo - 1, hi - 1);
    }
  }

  lemma {:induction false} AtLeastOne(store: Store, email: string, i: nat)
    requires i < |store| && store[i].email == Some(email)
    ensures CountEmail(store, email) >= 1
  {
    if i > 0 {
      AtLeastOne(store[1..], email, i - 1);
    }
  }

  /** Data that passes `isValid` and is stored in the session can always be
      saved: the email check in `saveUser` is the same blank check. */
  lemma ValidDataSaves(store: Store, notes: Notes, d: HelperData, freshId: string, defaults: set<string>)
    requires IsValid(Some(d))
    ensures SaveUser(store, StoreInAuthSession(notes, d), freshId, defaults).Ok?
  {
  }
}
