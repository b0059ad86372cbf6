/**
 An ordered, short-circuiting validator, stated on its own, and the
 account-creation endpoint shown to be one.

 A pipeline is a list of steps. A step may call a collaborator and may
 fail with a reply. Running the pipeline performs the steps in order and
 stops at the first failing step, replying with its failure; if no step
 fails it replies with the success value. `CreateIsPipeline` proves that
 `AccountController.Create` is exactly the pipeline "access code (only when
 restricted), username length, password confirmation, create the user".
 */
module CreatePipeline {
  import opened Wrappers
  import opened Identity
  import opened Http
  import opened AccountController

  /** One check: the collaborator call it makes, if any, and the reply it fails with, if it fails. */
  datatype Step = Step(call: Option<Call>, failure: Option<Response>)

  function StepCalls(s: Step): (calls: seq<Call>) {
    match s.call
    case None => []
    case Some(c) => [c]
  }

  /** Every call the steps would make if none of them failed, in order. */
  function CallsOf(steps: seq<Step>): (calls: seq<Call>) {
    if |steps| == 0 then [] else StepCalls(steps[0]) + CallsOf(steps[1..])
  }

  /** None of the first `i` steps fails. */
  predicate PassesBefore(steps: seq<Step>, i: nat)
    requires i <= |steps|
  {
    forall j :: 0 <= j < i ==> steps[j].failure.None?
  }

  function Run(steps: seq<Step>, success: Response): (h: Handled)
    // The calls made are always a prefix of the calls of the whole list.
    ensures h.calls <= CallsOf(steps)
    // No step fails: the success reply, after every step's call.
    ensures PassesBefore(steps, |steps|) ==> h == Handled(success, CallsOf(steps))
    // The first failing step decides the reply, and no later step's call is made.
    ensures forall i :: 0 <= i < |steps| && PassesBefore(steps, i) && steps[i].failure.Some? ==>
              h == Handled(steps[i].failure.value, CallsOf(steps[..i + 1]))
  {
    if |steps| == 0 then Handled(success, [])
    else
      var first := StepCalls(steps[0]);
      assert CallsOf(steps[..1]) == first by {
        assert steps[..1][1..] == [];
      }
      if steps[0].failure.Some? then Handled(steps[0].failure.value, first)
      else
        var rest := Run(steps[1..], success);
        assert forall i :: 0 < i < |steps| ==> steps[..i + 1][1..] == steps[1..][..i];
        assert forall i :: 0 < i <= |steps| ==> PassesBefore(steps, i) ==> PassesBefore(steps[1..], i - 1);
        Handled(rest.response, first + rest.calls)
  }

  /** The checks `Create` performs, in the order it performs them. */
  function CreateSteps(creds: LoginCredentials, svc: Services): (steps: seq<Step>) {
    var code := creds.restrictedAccessCode;
    var gate :=
      if svc.restrictedEnvironment then
        var error := svc.validateAndUseAccessCode(code);
        [Step(Some(ValidateAndUseAccessCode(code)),
              if error.Some? then Some(BadRequest(AccessCodeRejected(error.value))) else None)]
      else [];
    var res := svc.createUser(NewUser(creds), creds.password);
    gate + [
      Step(None, if UsernameFits(creds.username) then None else Some(BadRequestMessage(UsernameTooLong))),
      Step(None, if creds.password == creds.confirmPassword then None else Some(Unauthorized(None))),
      Step(Some(CreateUser(NewUser(creds), creds.password)),
           if res.succeeded then None else Some(Unauthorized(Some(res))))
    ]
  }

  /** `Create` is the short-circuiting run of its checks, ending in an empty 200 when all pass. */
  lemma CreateIsPipeline(creds: LoginCredentials, svc: Services)
    ensures Create(creds, svc) == Run(CreateSteps(creds, svc), Ok(NoBody))
  {
    var steps := CreateSteps(creds, svc);
    var checks := steps[|steps| - 3..];
    assert checks[1..][1..] == [checks[2]];
    RunCons(checks[2], [], Ok(NoBody));
    RunCons(checks[1], checks[1..][1..], Ok(NoBody));
    RunCons(checks[0], checks[1..], Ok(NoBody));
    if svc.restrictedEnvironment {
      RunCons(steps[0], checks, Ok(NoBody));
    } else {
      assert steps == checks;
    }
  }

  /** Running a non-empty list: its first step, then (if that passes) the rest. */
  lemma RunCons(s: Step, rest: seq<Step>, success: Response)
    ensures Run([s] + rest, success) ==
              if s.failure.Some? then Handled(s.failure.value, StepCalls(s))
              else Handled(Run(rest, success).response, StepCalls(s) + Run(rest, success).calls)
  {
    assert ([s] + rest)[1..] == rest;
  }
}
