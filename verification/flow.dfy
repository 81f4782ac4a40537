/** What an authenticator or required action does to Keycloak's
    authentication flow context, recorded as the sequence of calls it makes
    (`challenge`, `success`, `failure`, `failureChallenge`, `setUser`, a
    cookie on the response), plus the exception that escaped, if any. */
module Flow {
  import opened Wrappers

  datatype FlowError = InvalidCredentials | UnknownUser

  /** A rendered login form: its template, the attributes set on the form
      provider, and the error message, if one was set. */
  datatype Form = Form(template: string, attributes: map<string, bool>, error: Option<string>)

  datatype Effect =
    | Challenge(form: Form)
    | Success
    | Failure(error: FlowError)
    | FailureChallenge(error: FlowError, form: Form)
    | SetUser(userId: string)
    | SetCookie(name: string, value: string, maxAge: int)

  datatype Step = Step(effects: seq<Effect>, thrown: Option<Exception>)

  predicate IsTerminal(e: Effect) {
    e.Success? || e.Failure? || e.FailureChallenge?
  }

  /** The step lets the flow move past this execution. */
  predicate Succeeds(s: Step) {
    s.thrown.None? && exists i :: 0 <= i < |s.effects| && s.effects[i].Success?
  }

  /** Exactly one terminal call, and it is the last effect. */
  predicate EndsOnce(s: Step) {
    && |s.effects| > 0
    && IsTerminal(s.effects[|s.effects| - 1])
    && forall i :: 0 <= i < |s.effects| - 1 ==> !IsTerminal(s.effects[i])
  }

  /** Decoded form or query parameters: every value sent under a name. */
  type Params = map<string, seq<string>>

  /** `MultivaluedMap.getFirst(name)` */
  function GetFirst(p: Params, name: string): (r: Option<string>)
    ensures r.Some? <==> name in p && |p[name]| > 0
    ensures r.Some? ==> r.value == p[name][0]
  {
    if name in p && |p[name]| > 0 then Some(p[name][0]) else None
  }
}
