/**
  The controller's per-invocation state machine, taken one transition at a
  time: Start, then (form absent) ERROR, or a call to `login`; after it
  (caught exception) ERROR, (uncaught error) the error escapes, (false) KO,
  or (true) a call to `setCurrentUser` followed by OK. This is an independent reference for
  LoginController.Login, which computes the same invocation in one step.
 */
module ControllerMachine {
  import opened Wrappers
  import opened LoginService
  import opened LoginController

  datatype Phase =
    | Start(form: Option<UserForm>)
    | CallingLogin(submitted: UserForm)
    | CallingSetUser(accepted: UserForm)
    | Done(ending: Ending)

  /** Transitions still to be taken before the machine stops. */
  function Rank(p: Phase): nat {
    match p
    case Start(_) => 3
    case CallingLogin(_) => 2
    case CallingSetUser(_) => 1
    case Done(_) => 0
  }

  /** Calls that can still be made on the service from this phase. */
  function Pending(p: Phase): nat {
    match p
    case Start(_) => 2
    case CallingLogin(_) => 2
    case CallingSetUser(_) => 1
    case Done(_) => 0
  }

  /** A phase is consistent when a finished machine returned a result code. */
  predicate Consistent(p: Phase) {
    p.Done? && p.ending.Returned? ==> IsResultCode(p.ending.value)
  }

  /** One transition, with the calls it makes on the service. */
  function Step(p: Phase, svc: Service): (r: (Phase, seq<Call>))
    requires !p.Done?
    ensures Rank(r.0) < Rank(p)
    ensures |r.1| + Pending(r.0) <= Pending(p)
    ensures Consistent(r.0)
  {
    match p
    case Start(form) =>
      if form.None? then (Done(Returned(Error)), []) else (CallingLogin(form.value), [])
    case CallingLogin(f) =>
      var calls := [Call.Login(f)];
      (match svc.login
       case Throws => (Done(Returned(Error)), calls)
       case ThrowsError => (Done(Raised), calls)
       case Returns(logged) =>
         if logged then (CallingSetUser(f), calls) else (Done(Returned(Ko)), calls))
    case CallingSetUser(f) =>
      var calls := [SetCurrentUser(f.username)];
      (match svc.setCurrentUser
       case Completes => (Done(Returned(Ok)), calls)
       case Raises => (Done(Raised), calls))
  }

  /** Runs the machine to completion, collecting the calls of every step. */
  function Run(p: Phase, svc: Service): (r: Invocation)
    requires Consistent(p)
    ensures |r.trace| <= Pending(p)
    ensures r.ending.Returned? ==> IsResultCode(r.ending.value)
    decreases Rank(p)
  {
    if p.Done? then Invocation(p.ending, [])
    else
      var (q, calls) := Step(p, svc);
      var rest := Run(q, svc);
      Invocation(rest.ending, calls + rest.trace)
  }

  /** The state machine and the controller agree on every form and every
      behaviour of the service. */
  lemma {:induction false} MachineAgreesWithController(form: Option<UserForm>, svc: Service)
    ensures Run(Start(form), svc) == LoginController.Login(form, svc)
  {
    match form
    case None =>
    case Some(f) =>
      var afterLogin := Step(CallingLogin(f), svc);
      var tail := Run(afterLogin.0, svc);
      assert Run(CallingLogin(f), svc) == Invocation(tail.ending, afterLogin.1 + tail.trace);
      if svc.login == Returns(true) {
        var last := Run(Done(Step(CallingSetUser(f), svc).0.ending), svc);
        assert last.trace == [];
      }
  }
}
