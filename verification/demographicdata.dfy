/** The SPI's `DemographicData` value object: five nullable strings with
    value equality, the matching hash code and a fixed text rendering. */
module DemographicValues {
  import opened Wrappers
  import JavaText

  datatype DemographicData = DemographicData(
    firstName: Option<string>,
    lastName: Option<string>,
    dateOfBirth: Option<string>,
    email: Option<string>,
    phoneNumber: Option<string>)

  /** The no-argument constructor. */
  function Default(): (d: DemographicData)
    ensures d.firstName.None? && d.lastName.None? && d.dateOfBirth.None?
    ensures d.email.None? && d.phoneNumber.None?
  {
    DemographicData(None, None, None, None, None)
  }

  /** The argument `equals` is given: null, a `DemographicData`, or an
      object of any other class. */
  datatype Other = Data(value: DemographicData) | OtherClass

  /** `Objects.equals` on two nullable strings. */
  predicate SameValue(a: Option<string>, b: Option<string>) {
    if a.None? then b.None? else b.Some? && a.value == b.value
  }

  /** `equals(o)`: false for null or another class, otherwise the five
      fields compared pairwise, nulls included. */
  function Equals(d: DemographicData, o: Option<Other>): (b: bool)
    ensures o.None? || o == Some(OtherClass) ==> !b
    ensures o.Some? && o.value.Data? ==> (b <==> d == o.value.value)
  {
    match o
    case None => false
    case Some(OtherClass) => false
    case Some(Data(e)) =>
      && SameValue(d.firstName, e.firstName) && SameValue(d.lastName, e.lastName)
      && SameValue(d.dateOfBirth, e.dateOfBirth) && SameValue(d.email, e.email)
      && SameValue(d.phoneNumber, e.phoneNumber)
  }

  /** `equals` is reflexive, symmetric and transitive. */
  lemma EqualsIsEquivalence(a: DemographicData, b: DemographicData, c: DemographicData)
    ensures Equals(a, Some(Data(a)))
    ensures Equals(a, Some(Data(b))) <==> Equals(b, Some(Data(a)))
    ensures Equals(a, Some(Data(b))) && Equals(b, Some(Data(c))) ==> Equals(a, Some(Data(c)))
  {
  }

  /** The hash `Objects.hash` gives one element: 0 for null. */
  function ElementHash(s: Option<string>): (h: int)
    ensures JavaText.IntMin <= h <= JavaText.IntMax
    ensures s.None? ==> h == 0
  {
    if s.None? then 0 else JavaText.StringHash(s.value)
  }

  /** `Arrays.hashCode` over the elements, from the seed `h`. */
  function CombineHashes(h: int, fields: seq<Option<string>>): (r: int)
    requires JavaText.IntMin <= h <= JavaText.IntMax
    ensures JavaText.IntMin <= r <= JavaText.IntMax
    decreases |fields|
  {
    if |fields| == 0 then h
    else CombineHashes(JavaText.Wrap32(31 * h + ElementHash(fields[0])), fields[1..])
  }

  function Fields(d: DemographicData): seq<Option<string>> {
    [d.firstName, d.lastName, d.dateOfBirth, d.email, d.phoneNumber]
  }

  /** `hashCode()`: `Objects.hash` of the five fields, in 32-bit
      arithmetic; objects that are `equals` hash alike. */
  function HashCode(d: DemographicData): (h: int)
    ensures JavaText.IntMin <= h <= JavaText.IntMax
    ensures forall e :: Equals(d, Some(Data(e))) ==> HashCode(e) == h
  {
    CombineHashes(1, Fields(d))
  }

  /** With every field null the hash is `31^5`. */
  lemma DefaultHash()
    ensures HashCode(Default()) == 28629151
  {
    var f := Fields(Default());
    NullsStep(1, f);
    NullsStep(31, f[1..]);
    NullsStep(961, f[2..]);
    NullsStep(29791, f[3..]);
    NullsStep(923521, f[4..]);
    assert f[5..] == [];
  }

  /** One step of the fold over a null element, while nothing wraps. */
  lemma NullsStep(h: int, fields: seq<Option<string>>)
    requires 0 <= 31 * h <= JavaText.IntMax && |fields| > 0 && fields[0].None?
    ensures CombineHashes(h, fields) == CombineHashes(31 * h, fields[1..])
  {
    JavaText.Wrap32Identity(31 * h);
    assert ElementHash(fields[0]) == 0;
  }

  /** `String.valueOf` of a nullable string, as string concatenation uses. */
  function Show(s: Option<string>): (t: string)
    ensures s.Some? ==> t == s.value
    ensures s.None? ==> t == "null"
  {
    if s.None? then "null" else s.value
  }

  const Opening := "DemographicData{firstName='"
  const LastNameSep := "', lastName='"
  const BirthSep := "', dateOfBirth='"
  const EmailSep := "', email='"
  const PhoneSep := "', phoneNumber='"
  const Closing := "'}"

  /** When `t` opens with `u + x`, it opens with `u` and carries `x` right
      after it. */
  lemma Peel(t: string, u: string, x: string)
    requires |u| + |x| <= |t| && t[..|u| + |x|] == u + x
    ensures t[..|u|] == u && t[|u|..|u| + |x|] == x
  {
    assert t[..|u|] == (u + x)[..|u|];
    assert t[|u|..|u| + |x|] == (u + x)[|u|..];
  }

  /** `toString()`: `DemographicData{firstName='…', …, phoneNumber='…'}`,
      with `null` for an unset field. Every field sits between its own
      label and the next, at an offset fixed by the fields before it. */
  function ToString(d: DemographicData): (t: string)
    ensures |t| == 84 + |Show(d.firstName)| + |Show(d.lastName)| + |Show(d.dateOfBirth)|
                      + |Show(d.email)| + |Show(d.phoneNumber)|
    ensures var o1 := |Opening| + |Show(d.firstName)|;
            var o2 := o1 + |LastNameSep| + |Show(d.lastName)|;
            var o3 := o2 + |BirthSep| + |Show(d.dateOfBirth)|;
            var o4 := o3 + |EmailSep| + |Show(d.email)|;
            && t[..|Opening|] == Opening && t[|Opening|..o1] == Show(d.firstName)
            && t[o1..o1 + |LastNameSep|] == LastNameSep && t[o1 + |LastNameSep|..o2] == Show(d.lastName)
            && t[o2..o2 + |BirthSep|] == BirthSep && t[o2 + |BirthSep|..o3] == Show(d.dateOfBirth)
            && t[o3..o3 + |EmailSep|] == EmailSep && t[o3 + |EmailSep|..o4] == Show(d.email)
            && t[o4..o4 + |PhoneSep|] == PhoneSep && t[o4 + |PhoneSep|..|t| - |Closing|] == Show(d.phoneNumber)
            && t[|t| - |Closing|..] == Closing
  {
    var a1 := Opening + Show(d.firstName);
    var a2 := a1 + LastNameSep;
    var a3 := a2 + Show(d.lastName);
    var a4 := a3 + BirthSep;
    var a5 := a4 + Show(d.dateOfBirth);
    var a6 := a5 + EmailSep;
    var a7 := a6 + Show(d.email);
    var a8 := a7 + PhoneSep;
    var a9 := a8 + Show(d.phoneNumber);
    var t := a9 + Closing;
    Peel(t, a9, Closing);
    Peel(t, a8, Show(d.phoneNumber));
    Peel(t, a7, PhoneSep);
    Peel(t, a6, Show(d.email));
    Peel(t, a5, EmailSep);
    Peel(t, a4, Show(d.dateOfBirth));
    Peel(t, a3, BirthSep);
    Peel(t, a2, Show(d.lastName));
    Peel(t, a1, LastNameSep);
    Peel(t, Opening, Show(d.firstName));
    t
  }

  /** Each setter changes its own field and nothing else. */
  function SetFirstName(d: DemographicData, v: Option<string>): (r: DemographicData)
    ensures r.firstName == v && r.(firstName := d.firstName) == d
  {
    d.(firstName := v)
  }

  function SetLastName(d: DemographicData, v: Option<string>): (r: DemographicData)
    ensures r.lastName == v && r.(lastName := d.lastName) == d
  {
    d.(lastName := v)
  }

  function SetDateOfBirth(d: DemographicData, v: Option<string>): (r: DemographicData)
    ensures r.dateOfBirth == v && r.(dateOfBirth := d.dateOfBirth) == d
  {
    d.(dateOfBirth := v)
  }

  function SetEmail(d: DemographicData, v: Option<string>): (r: DemographicData)
    ensures r.email == v && r.(email := d.email) == d
  {
    d.(email := v)
  }

  function SetPhoneNumber(d: DemographicData, v: Option<string>): (r: DemographicData)
    ensures r.phoneNumber == v && r.(phoneNumber := d.phoneNumber) == d
  {
    d.(phoneNumber := v)
  }

  /** Setting every field on a default object gives the same value as the
      all-arguments constructor. */
  lemma SettersBuildConstructed(a: Option<string>, b: Option<string>, c: Option<string>, e: Option<string>, p: Option<string>)
    ensures SetPhoneNumber(SetEmail(SetDateOfBirth(SetLastName(SetFirstName(Default(), a), b), c), e), p)
            == DemographicData(a, b, c, e, p)
  {
  }
}
