/**
  LoginController.login: check that a form is present, ask the service to
  log it in (turning any exception into "ERROR"), and on success record the
  user as current. The controller keeps no state between invocations, so one
  invocation is a pure function of the form and of how the service behaves.
 */
module LoginController {
  import opened Wrappers
  import opened LoginService

  /** The three strings the controller returns. The success string carries a
      trailing space. */
  const Error: string := "ERROR"
  const Ko: string := "KO"
  const Ok: string := "OK "

  predicate IsResultCode(s: string) {
    s == Error || s == Ko || s == Ok
  }

  /** How an invocation ends: it returns a string, or a throwable escapes to
      the caller (an `Error` from `login`, which the `catch (Exception e)`
      does not catch, or anything thrown by `setCurrentUser`, which no `try`
      encloses). */
  datatype Ending = Returned(value: string) | Raised

  /** The ending of one invocation together with the calls it made on the
      service, in order. */
  datatype Invocation = Invocation(ending: Ending, trace: seq<Call>)

  function Login(form: Option<UserForm>, svc: Service): (r: Invocation)
    // whatever is returned is one of the three result codes
    ensures r.ending.Returned? ==> IsResultCode(r.ending.value)
    // at most one call of each operation
    ensures |r.trace| <= 2
    // the service is left alone exactly when the form is absent
    ensures r.trace == [] <==> form.None?
    // a present form is handed, unchanged, to the first call
    ensures form.Some? ==> r.trace[0] == Call.Login(form.value)
    // only an uncaught Error from login, or a failure of setCurrentUser after
    // an accepted login, escapes
    ensures r.ending.Raised? <==>
              form.Some? &&
              (svc.login == ThrowsError || (svc.login == Returns(true) && svc.setCurrentUser == Raises))
  {
    match form
    case None => Invocation(Returned(Error), [])
    case Some(f) =>
      match svc.login
      case Throws => Invocation(Returned(Error), [Call.Login(f)])
      case ThrowsError => Invocation(Raised, [Call.Login(f)])
      case Returns(logged) =>
        if logged then
          var trace := [Call.Login(f), SetCurrentUser(f.username)];
          match svc.setCurrentUser
          case Completes => Invocation(Returned(Ok), trace)
          case Raises => Invocation(Raised, trace)
        else
          Invocation(Returned(Ko), [Call.Login(f)])
  }

  /** The three result codes are pairwise distinct, and the success code is
      not the two-letter "OK". */
  lemma ResultCodesDistinct()
    ensures Error != Ko && Error != Ok && Ko != Ok
    ensures Ok != "OK" && |Ok| == 3 && Ok[2] == ' '
  {
  }

  /** An absent form yields "ERROR" and no call on the service. */
  lemma AbsentFormIsError(svc: Service)
    ensures Login(None, svc) == Invocation(Returned(Error), [])
  {
  }

  /** A throwing `login` yields "ERROR" after that single call. */
  lemma ThrowingLoginIsError(f: UserForm, svc: Service)
    requires svc.login == Throws
    ensures Login(Some(f), svc) == Invocation(Returned(Error), [Call.Login(f)])
  {
  }

  /** A `Throwable` from `login` that is not an `Exception` is not caught: it
      escapes after that single call, and `setCurrentUser` is not called. */
  lemma UncaughtLoginErrorEscapes(f: UserForm, svc: Service)
    requires svc.login == ThrowsError
    ensures Login(Some(f), svc) == Invocation(Raised, [Call.Login(f)])
  {
  }

  /** A rejected login yields "KO" after that single call. */
  lemma RejectedLoginIsKo(f: UserForm, svc: Service)
    requires svc.login == Returns(false)
    ensures Login(Some(f), svc) == Invocation(Returned(Ko), [Call.Login(f)])
  {
  }

  /** An accepted login records the form's username and yields "OK ", or lets
      the exception of `setCurrentUser` escape after the same two calls. */
  lemma AcceptedLogin(f: UserForm, svc: Service)
    requires svc.login == Returns(true)
    ensures Login(Some(f), svc).trace == [Call.Login(f), SetCurrentUser(f.username)]
    ensures svc.setCurrentUser == Completes ==> Login(Some(f), svc).ending == Returned(Ok)
    ensures svc.setCurrentUser == Raises ==> Login(Some(f), svc).ending == Raised
  {
  }

  /** Exactly one `login` call for a present form, none otherwise; exactly one
      `setCurrentUser` call when the login is accepted, none otherwise. */
  lemma CallCounts(form: Option<UserForm>, svc: Service)
    ensures LoginCalls(Login(form, svc).trace) == (if form.Some? then 1 else 0)
    ensures SetUserCalls(Login(form, svc).trace) == (if form.Some? && svc.login == Returns(true) then 1 else 0)
  {
  }

  /** When `setCurrentUser` completes, it was called if and only if the result
      is "OK "; in general it was called if and only if the invocation
      returned "OK " or raised without `login` having thrown. */
  lemma SetUserIffOk(form: Option<UserForm>, svc: Service)
    ensures SetUserCalls(Login(form, svc).trace) > 0
            <==> (Login(form, svc).ending == Returned(Ok)
                  || (Login(form, svc).ending == Raised && svc.login != ThrowsError))
    ensures svc.setCurrentUser == Completes ==>
              (SetUserCalls(Login(form, svc).trace) > 0 <==> Login(form, svc).ending == Returned(Ok))
  {
  }

  /** Every call in a trace concerns the submitted form: the `login` call
      carries the form and the `setCurrentUser` call its username. */
  lemma CallsConcernTheForm(f: UserForm, svc: Service)
    ensures forall c :: c in Login(Some(f), svc).trace ==>
              c == Call.Login(f) || c == SetCurrentUser(f.username)
  {
  }

  /** The worked scenarios of the controller's tests, kept as documentation:
      a null form, and a form for "foo" whose login is accepted, rejected or
      throws. Each is one instance of the general lemmas above. */
  lemma Scenarios(svc: Service)
    ensures Login(None, svc).ending == Returned("ERROR")
    ensures var foo := UserForm(Some("foo"));
            && Login(Some(foo), Service(Returns(true), Completes))
                 == Invocation(Returned("OK "), [Call.Login(foo), SetCurrentUser(Some("foo"))])
            && Login(Some(foo), Service(Returns(false), svc.setCurrentUser))
                 == Invocation(Returned("KO"), [Call.Login(foo)])
            && Login(Some(foo), Service(Throws, svc.setCurrentUser))
                 == Invocation(Returned("ERROR"), [Call.Login(foo)])
  {
  }

  /** The exception test submits a form whose username was never set; the
      controller handles it like any other form. Kept as documentation of
      that test: it is one instance of ThrowingLoginIsError. */
  lemma NullUsernameThrowing(svc: Service)
    requires svc.login == Throws
    ensures Login(Some(UserForm(None)), svc) == Invocation(Returned(Error), [Call.Login(UserForm(None))])
  {
  }
}
