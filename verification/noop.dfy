/** The no-op authenticator: every call re-presents a challenge page that
    nothing can answer, so a flow that reaches it never moves on. */
module NoopAuthenticator {
  import opened Wrappers
  import opened Flow

  const NoopTemplate := "noop-challenge.ftl"

  const NoopForm := Form(NoopTemplate, map[], None)

  /** `authenticate(context)`: only the challenge. */
  function Authenticate(): (s: Step)
    ensures s.thrown.None? && |s.effects| == 1 && s.effects[0].Challenge?
    ensures s.effects[0].form.template == NoopTemplate
    ensures !Succeeds(s)
  {
    Step([Challenge(NoopForm)], None)
  }

  /** `action(context)`: the same challenge again, whatever was submitted. */
  function Action(submitted: Params): (s: Step)
    ensures s == Authenticate()
  {
    Step([Challenge(NoopForm)], None)
  }

  /** `configuredFor`: true for every user. */
  function ConfiguredFor(): (b: bool)
    ensures b
  {
    true
  }

  /** `requiresUser`, inherited from the shared base class. */
  function RequiresUser(): (b: bool)
    ensures !b
  {
    false
  }

  /** A call the flow can make: `authenticate`, or `action` on a submission. */
  datatype Call = AuthenticateCall | ActionCall(submitted: Params)

  function Respond(c: Call): Step {
    match c
    case AuthenticateCall => Authenticate()
    case ActionCall(p) => Action(p)
  }

  /** Everything the authenticator does over a run of calls, in order. */
  function Run(calls: seq<Call>): (effects: seq<Effect>)
  {
    if |calls| == 0 then [] else Respond(calls[0]).effects + Run(calls[1..])
  }

  /** However the user answers and however often, the run holds one
      challenge per call and no success, failure or other effect: the flow
      never passes this step. */
  lemma {:induction false} NeverPasses(calls: seq<Call>)
    ensures |Run(calls)| == |calls|
    ensures forall i :: 0 <= i < |Run(calls)| ==> Run(calls)[i] == Challenge(NoopForm)
  {
    if |calls| > 0 {
      NeverPasses(calls[1..]);
      assert Run(calls) == [Challenge(NoopForm)] + Run(calls[1..]);
    }
  }
}
