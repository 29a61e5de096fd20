/**
  The collaborator the controller delegates to. Its real behaviour (and the
  data-access object behind it) is outside the model: the service is an
  oracle that says, for one controller invocation, how each of its two
  operations behaves. The controller's observable effect on the service is
  the sequence of calls it makes, recorded as a trace.
 */
module LoginService {
  import opened Wrappers

  /** The submitted form. Only its username is read by the controller, and
      Java lets that field be null. */
  datatype UserForm = UserForm(username: Option<string>)

  /** How the service's `login(form)` behaves: it returns a boolean, throws
      an `Exception` (every subclass collapsed into one), or throws a
      `Throwable` that is not an `Exception`, such as an `Error`. */
  datatype Outcome = Returns(b: bool) | Throws | ThrowsError

  /** How the service's `setCurrentUser(username)` behaves. */
  datatype Effect = Completes | Raises

  /** The injected service, seen as the behaviour of its two operations. */
  datatype Service = Service(login: Outcome, setCurrentUser: Effect)

  /** One call made on the service. */
  datatype Call = Login(form: UserForm) | SetCurrentUser(username: Option<string>)

  /** Number of `login` calls in a trace. */
  function LoginCalls(trace: seq<Call>): (n: nat)
    ensures n <= |trace|
    ensures n == 0 <==> forall i :: 0 <= i < |trace| ==> !trace[i].Login?
  {
    if trace == [] then 0
    else (if trace[0].Login? then 1 else 0) + LoginCalls(trace[1..])
  }

  /** Number of `setCurrentUser` calls in a trace. */
  function SetUserCalls(trace: seq<Call>): (n: nat)
    ensures n <= |trace|
    ensures n == 0 <==> forall i :: 0 <= i < |trace| ==> !trace[i].SetCurrentUser?
  {
    if trace == [] then 0
    else (if trace[0].SetCurrentUser? then 1 else 0) + SetUserCalls(trace[1..])
  }
}
