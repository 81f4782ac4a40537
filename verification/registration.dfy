/** `DemographicRegistrationFormAction`: the registration-form step that
    demands name, date of birth and email, keeps them as session notes, and
    after registration writes them onto the found or created user. */
module Registration {
  import opened Wrappers
  import opened JavaText
  import opened Users
  import opened Flow
  import opened AuthSessions

  const MissingFields := "Please provide all required demographic information."
  const MissingIdentity := "Either username or email is required for registration."
  const SessionIdNote := "AUTH_SESSION_ID"

  /** What `validate` reports to the form: an error message, or success. */
  datatype Validation = ValidationError(message: string) | Validated

  /** `buildPage`: the attribute the registration form is rendered with. */
  function BuildPage(): (attributes: map<string, bool>)
    ensures attributes == map["demographicRequired" := true]
  {
    map["demographicRequired" := true]
  }

  /** The four required form fields, checked with `isEmpty`. */
  predicate AllPresent(form: Params) {
    && !NullOrEmpty(GetFirst(form, "firstName")) && !NullOrEmpty(GetFirst(form, "lastName"))
    && !NullOrEmpty(GetFirst(form, "dob")) && !NullOrEmpty(GetFirst(form, "email"))
  }

  /** `validate`: the `AUTH_SESSION_ID` note is dropped in every case; a
      missing or empty field is a validation error and sets no note;
      otherwise the four fields become notes and validation succeeds. */
  function Validate(form: Params, notes: Notes): (r: (Notes, Validation))
    ensures GetNote(r.0, SessionIdNote).None?
    ensures r.1 == Validated <==> AllPresent(form)
    ensures r.1.ValidationError? ==> r.1.message == MissingFields && r.0 == RemoveNote(notes, SessionIdNote)
    ensures r.1 == Validated ==>
              && GetNote(r.0, "email") == GetFirst(form, "email")
              && GetNote(r.0, "firstName") == GetFirst(form, "firstName")
              && GetNote(r.0, "lastName") == GetFirst(form, "lastName")
              && GetNote(r.0, "dob") == GetFirst(form, "dob")
    ensures forall k :: k !in {SessionIdNote, "email", "firstName", "lastName", "dob"} ==> GetNote(r.0, k) == GetNote(notes, k)
  {
    var cleared := RemoveNote(notes, SessionIdNote);
    if !AllPresent(form) then (cleared, ValidationError(MissingFields))
    else
      var n1 := SetNote(cleared, "email", GetFirst(form, "email"));
      var n2 := SetNote(n1, "firstName", GetFirst(form, "firstName"));
      var n3 := SetNote(n2, "lastName", GetFirst(form, "lastName"));
      (SetNote(n3, "dob", GetFirst(form, "dob")), Validated)
  }

  /** Only emptiness is checked: whitespace-only fields pass. */
  lemma WhitespaceFieldsPass(notes: Notes)
    ensures Validate(map["firstName" := [" "], "lastName" := [" "], "dob" := [" "], "email" := [" "]], notes).1 == Validated
  {
    var form: Params := map["firstName" := [" "], "lastName" := [" "], "dob" := [" "], "email" := [" "]];
    assert GetFirst(form, "firstName") == Some(" ");
    assert GetFirst(form, "lastName") == Some(" ");
    assert GetFirst(form, "dob") == Some(" ");
    assert GetFirst(form, "email") == Some(" ");
  }

  /** The user `success` sets on the context, and the store around it. */
  datatype Registered = Registered(store: Store, user: nat)

  /** The lookup `success` makes: by email when there is one and the realm
      allows logging in with it, by username otherwise. */
  function Lookup(store: Store, username: Option<string>, email: Option<string>, emailLogin: bool): (r: Option<nat>)
    ensures email.Some? && emailLogin ==> r == FindByEmail(store, email.value)
    ensures email.None? || !emailLogin ==> r == FindByUsername(store, username)
  {
    if email.Some? && emailLogin then FindByEmail(store, email.value) else FindByUsername(store, username)
  }

  /** The profile `success` writes: email, names and the `dob` attribute. */
  function Profiled(u: User, notes: Notes): (v: User)
    ensures v.email == GetNote(notes, "email")
    ensures v.firstName == GetNote(notes, "firstName") && v.lastName == GetNote(notes, "lastName")
    ensures FirstAttribute(v, "dob") == GetNote(notes, "dob")
    ensures v.(email := u.email, firstName := u.firstName, lastName := u.lastName, attributes := u.attributes) == u
  {
    SetSingleAttribute(u.(email := GetNote(notes, "email"), firstName := GetNote(notes, "firstName"),
                          lastName := GetNote(notes, "lastName")),
                       "dob", GetNote(notes, "dob"))
  }

  /** `success`: with neither a `username` nor an `email` note (null or
      empty) a `RuntimeException`; otherwise the looked-up user, or a new
      enabled one named by the username (else the email, with
      `emailVerified` false), gets the email, names and `dob` from the
      notes. `freshId` is the id the store generates and `defaults` the
      realm's default required actions it adds to a new user. */
  function Success(store: Store, notes: Notes, emailLogin: bool, freshId: string, defaults: set<string>): (r: Result<Registered>)
    ensures r.Err? <==> NullOrEmpty(GetNote(notes, "username")) && NullOrEmpty(GetNote(notes, "email"))
    ensures r.Err? ==> r.error == Runtime(MissingIdentity)
    ensures r.Ok? ==> r.value.user < |r.value.store|
    ensures r.Ok? ==> r.value.store[r.value.user] == Profiled(r.value.store[r.value.user], notes)
    ensures r.Ok? && Lookup(store, GetNote(notes, "username"), GetNote(notes, "email"), emailLogin).Some? ==>
              && r.value.user == Lookup(store, GetNote(notes, "username"), GetNote(notes, "email"), emailLogin).value
              && r.value.store == store[r.value.user := Profiled(store[r.value.user], notes)]
    ensures r.Ok? && Lookup(store, GetNote(notes, "username"), GetNote(notes, "email"), emailLogin).None? ==>
              var v := r.value.store[r.value.user];
              && r.value.store == store + [v]
              && v.id == freshId && v.enabled && !v.emailVerified
              && v.username == (if GetNote(notes, "username").Some? then GetNote(notes, "username").value
                                else GetNote(notes, "email").value)
              && v.credentials == [] && v.requiredActions == defaults
  {
    var username := GetNote(notes, "username");
    var email := GetNote(notes, "email");
    if NullOrEmpty(username) && NullOrEmpty(email) then Err(Runtime(MissingIdentity))
    else
      var (store1, i) :=
        match Lookup(store, username, email, emailLogin)
        case Some(i) => (store, i)
        case None =>
          var name := if username.Some? then username.value else email.value;
          var created := NewUser(freshId, name, defaults).(enabled := true);
          var created := if email.Some? then created.(email := email, emailVerified := false) else created;
          (store + [created], |store|);
      Ok(Registered(store1[i := Profiled(store1[i], notes)], i))
  }

  /** `requiresUser` */
  function RequiresUser(): (b: bool)
    ensures !b
  {
    false
  }

  /** `configuredFor` */
  function ConfiguredFor(u: User): (b: bool)
    ensures b
  {
    true
  }

  /** `setRequiredActions`: nothing is added. */
  function SetRequiredActions(u: User): (v: User)
    ensures v == u
  {
    u
  }

  /** A form that passes `validate` is then registered: the registered
      user carries exactly the submitted email, names and date of birth. */
  lemma ValidatedFormRegisters(form: Params, notes: Notes, store: Store, emailLogin: bool, freshId: string, defaults: set<string>)
    requires Validate(form, notes).1 == Validated
    ensures var r := Success(store, Validate(form, notes).0, emailLogin, freshId, defaults);
            && r.Ok?
            && var v := r.value.store[r.value.user];
               && v.email == GetFirst(form, "email")
               && v.firstName == GetFirst(form, "firstName") && v.lastName == GetFirst(form, "lastName")
               && FirstAttribute(v, "dob") == GetFirst(form, "dob")
  {
  }

  /** Registering the same email again with email login allowed finds the
      user created the first time instead of adding another. */
  lemma RegisterAgainFindsSameUser(store: Store, notes: Notes, freshId: string, freshId2: string, defaults: set<string>)
    requires GetNote(notes, "email").Some? && |GetNote(notes, "email").value| > 0
    ensures var r1 := Success(store, notes, true, freshId, defaults);
            var r2 := Success(r1.value.store, notes, true, freshId2, defaults);
            && r2.Ok? && |r2.value.store| == |r1.value.store| && r2.value.user == r1.value.user
            && r2.value.store == r1.value.store
  {
    var email := GetNote(notes, "email").value;
    var r1 := Success(store, notes, true, freshId, defaults).value;
    assert r1.store[r1.user].email == Some(email);
    assert FindByEmail(r1.store, email).Some?;
    var j := FindByEmail(r1.store, email).value;
    assert j == r1.user;
    ProfiledIdempotent(r1.store[j], notes);
    assert r1.store[j := Profiled(r1.store[j], notes)] == r1.store;
  }

  lemma ProfiledIdempotent(u: User, notes: Notes)
    requires u.email == GetNote(notes, "email")
    requires exists w :: u == Profiled(w, notes)
    ensures Profiled(u, notes) == u
  {
    var w :| u == Profiled(w, notes);
    assert u.attributes == if GetNote(notes, "dob").Some? then w.attributes["dob" := [GetNote(notes, "dob").value]]
                           else w.attributes - {"dob"};
  }
}
