/** `DemographicAuthenticatorFactory` of `authenticator-demographic`: the
    start-up check of the `verification.timeout` setting and the one
    verification service the factory shares among the authenticators it
    creates. */
module AuthenticatorFactory {
  import opened Wrappers
  import opened JavaText

  const TimeoutKey := "verification.timeout"
  const ProviderId := "demographic-validation-authenticator"
  const InvalidTimeout := "Invalid timeout value. Must be a positive integer."

  /** A `Config.Scope`: the provider's configuration entries. */
  type Scope = map<string, string>

  /** `init(config)`: nothing is checked without a scope or without a
      timeout; a timeout must match `\d+` in full, or an
      `IllegalArgumentException` is thrown. */
  function Init(config: Option<Scope>): (r: Option<Exception>)
    ensures r.None? <==> config.None? || TimeoutKey !in config.value || MatchesDigits(config.value[TimeoutKey])
    ensures r.Some? ==> r.value == IllegalArgument(InvalidTimeout)
  {
    if config.Some? && TimeoutKey in config.value && !MatchesDigits(config.value[TimeoutKey]) then
      Some(IllegalArgument(InvalidTimeout))
    else None
  }

  /** Every non-negative whole number written in decimal is accepted,
      zero included despite the message's "positive". */
  lemma DecimalTimeoutAccepted(n: nat)
    ensures Init(Some(map[TimeoutKey := Decimal(n)])).None?
  {
  }

  /** The empty string, a sign, a space or a decimal point is rejected. */
  lemma MalformedTimeoutsRejected()
    ensures Init(Some(map[TimeoutKey := ""])).Some?
    ensures Init(Some(map[TimeoutKey := "-1"])).Some?
    ensures Init(Some(map[TimeoutKey := "+1"])).Some?
    ensures Init(Some(map[TimeoutKey := " 1"])).Some?
    ensures Init(Some(map[TimeoutKey := "1.5"])).Some?
  {
    assert !IsAsciiDigit("-1"[0]);
    assert !IsAsciiDigit("+1"[0]);
    assert !IsAsciiDigit(" 1"[0]);
    assert !IsAsciiDigit("1.5"[1]);
  }

  /** The factory's static `verificationService`, as the handle of the
      service instance it holds, if any. */
  type Shared = Option<nat>

  /** What `create` leaves behind: the shared service afterwards and the
      one the new authenticator is given. */
  datatype Created = Created(shared: Shared, service: nat)

  /** `create(session)`: builds a service (the instance `built`) only when
      none is shared, and hands the shared one to the authenticator. */
  function Create(shared: Shared, built: nat): (r: Created)
    ensures r.shared == Some(r.service)
    ensures shared.Some? ==> r.service == shared.value
    ensures shared.None? ==> r.service == built
  {
    match shared
    case Some(s) => Created(shared, s)
    case None => Created(Some(built), built)
  }

  /** `close()`: the shared service is dropped. */
  function Close(shared: Shared): (r: Shared)
    ensures r.None?
  {
    None
  }

  /** Authenticators created one after another share one service, and
      after `close` the next `create` builds a new one. */
  lemma ServiceLifecycle(shared: Shared, fresh1: nat, fresh2: nat, fresh3: nat)
    ensures var a := Create(shared, fresh1);
            var b := Create(a.shared, fresh2);
            var c := Create(Close(b.shared), fresh3);
            && b.service == a.service && b.shared == a.shared
            && c.service == fresh3
  {
  }
}
