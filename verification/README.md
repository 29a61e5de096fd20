# Login controller model

A Dafny model of `LoginController.login` from the mock-comparisons example
project: a controller that takes a user form, asks an injected `LoginService`
to log it in, and on success records the user as the service's current user.
It answers with one of three strings: `"ERROR"`, `"KO"` or `"OK "`.

The service is not modelled as code. It is an oracle (`LoginService.Service`)
that fixes how its two operations behave during one invocation:

- `login(form)` returns a boolean, throws an `Exception`, or throws a
  `Throwable` that is not an `Exception`, such as an `Error` (`Outcome`);
- `setCurrentUser(username)` completes or raises (`Effect`).

The controller keeps no state between calls. So one invocation is a pure
function `LoginController.Login(form, svc)` of an optional form (`None` is Java's
`null`) and that oracle. It returns an `Invocation`: how the call ended plus the
trace of calls made on the service. The call ends with a returned string or
with a throwable escaping. Only the `catch (Exception e)` at
mock-comparisons/src/main/java/org/baeldung/mocks/testCase/LoginController.java:15
turns a failure into `"ERROR"`. So an `Error` thrown by `login` escapes, and so
does any failure of `setCurrentUser`, because that call (line 20) sits outside
the `try` block.

`ControllerMachine` restates the controller as a per-invocation state
machine, taken one transition at a time. `MachineAgreesWithController`
proves that it gives the same invocation as the direct function for every
input.

Files:

- `wrappers.dfy`: `Option`.
- `login_service.dfy`: the form, the service oracle, the call trace and its call counts.
- `login_controller.dfy`: the controller and the lemmas about it.
- `controller_machine.dfy`: the state-machine reference.

The code and its tests disagree on the success string. Line 21 of
LoginController.java returns `"OK "`, with a trailing space. The tests assert
`"OK"` at
mock-comparisons/src/test/java/org/baeldung/mocks/jmockit/LoginControllerTest.java:45, 88, 109 and 131.
The model follows the code. `LoginController.ResultCodesDistinct` proves that
`"OK "` and `"OK"` differ, so the modelled code returns a string those
assertions reject.

## Model

| member | source | states |
|---|---|---|
| LoginController.Login | mock-comparisons/src/main/java/org/baeldung/mocks/testCase/LoginController.java:7-26 | a returned string is always one of ERROR/KO/"OK "; at most two service calls; no call at all exactly when the form is null; a present form is passed unchanged to the first call, `login`; the invocation raises exactly when `login` threw a non-`Exception` throwable, or returned true and `setCurrentUser` failed |
| LoginController.ResultCodesDistinct | mock-comparisons/src/main/java/org/baeldung/mocks/testCase/LoginController.java:9-23 | the three result strings are pairwise distinct; the success string is three characters ending in a space, so it differs from "OK" |
| LoginController.AbsentFormIsError | mock-comparisons/src/main/java/org/baeldung/mocks/testCase/LoginController.java:8-9 | a null form returns "ERROR" and calls nothing on the service |
| LoginController.ThrowingLoginIsError | mock-comparisons/src/main/java/org/baeldung/mocks/testCase/LoginController.java:13-17 | when `login` throws, the result is "ERROR" and the only call is `login(form)` |
| LoginController.UncaughtLoginErrorEscapes | mock-comparisons/src/main/java/org/baeldung/mocks/testCase/LoginController.java:13-17 | when `login` throws a throwable that is not an `Exception`, the catch clause does not apply: it escapes after the single `login(form)` call |
| LoginController.RejectedLoginIsKo | mock-comparisons/src/main/java/org/baeldung/mocks/testCase/LoginController.java:22-23 | when `login` returns false, the result is "KO" and the only call is `login(form)` |
| LoginController.AcceptedLogin | mock-comparisons/src/main/java/org/baeldung/mocks/testCase/LoginController.java:19-21 | when `login` returns true, the calls are exactly `login(form)` then `setCurrentUser(form.username)`; the result is "OK " if the second call completes, otherwise its exception escapes |
| LoginController.CallCounts | mock-comparisons/src/main/java/org/baeldung/mocks/testCase/LoginController.java:13-24 | `login` is called once for a present form and never for a null one; `setCurrentUser` is called once exactly when the login was accepted |
| LoginController.SetUserIffOk | mock-comparisons/src/main/java/org/baeldung/mocks/testCase/LoginController.java:13-24 | `setCurrentUser` is called if and only if the invocation returns "OK " or raises without `login` having thrown; when `setCurrentUser` completes, it is called if and only if the result is "OK " |
| LoginController.CallsConcernTheForm | mock-comparisons/src/main/java/org/baeldung/mocks/testCase/LoginController.java:14-20 | every call made carries either the submitted form or its username |
| LoginController.Scenarios | mock-comparisons/src/main/java/org/baeldung/mocks/testCase/LoginController.java:7-26 | the test cases, kept as documentation (instances of the general lemmas): null gives "ERROR"; a "foo" form gives "OK " with both calls, "KO" or "ERROR" with one call, depending on `login` |
| LoginController.NullUsernameThrowing | mock-comparisons/src/test/java/org/baeldung/mocks/jmockit/LoginControllerTest.java:64-76 | the exception test, kept as documentation (an instance of ThrowingLoginIsError): a form whose username was never set, with a throwing `login`, gives "ERROR" after the single `login` call |
| ControllerMachine.Step | mock-comparisons/src/main/java/org/baeldung/mocks/testCase/LoginController.java:7-26 | each transition moves strictly forward, never makes more calls than the phase still allows, and finishes only with a result code or the escaped exception |
| ControllerMachine.Run | mock-comparisons/src/main/java/org/baeldung/mocks/testCase/LoginController.java:7-26 | running to completion makes no more calls than the starting phase allows (two from the start) and returns only result codes |
| ControllerMachine.MachineAgreesWithController | mock-comparisons/src/main/java/org/baeldung/mocks/testCase/LoginController.java:7-26 | the step-by-step state machine and the direct controller function give the same ending and the same call trace for every form and every service behaviour |

## Left out

- The real `LoginService` and `LoginDao`. LoginService.java, LoginDao.java and UserForm.java are not part of this model. The service is an oracle, so nothing is said about how the DAO's integer becomes the service's boolean.
- UserForm fields other than `username`: the controller reads no other field.
- Java throwable types: every `Exception` thrown by `login` is one `Throws` outcome, every other throwable from `login` is one `ThrowsError` outcome, and every failure of `setCurrentUser` is one `Raises` effect. Which throwable escapes is not recorded.
- Changes to the form made by the service: the service is assumed not to change the form it receives. The controller hands the form to `login` (line 14) and reads its public `username` field only after `login` returns (line 20). A service that assigned that field would change what `setCurrentUser` receives. LoginController.AcceptedLogin and LoginController.CallsConcernTheForm rely on this assumption when they say the second call carries the submitted username.
- The controller's `loginService` field and its setter: the service is a parameter of each invocation. Replacing it between invocations, as the partial-mocking test does, is just another parameter value.
- The mock frameworks (expectations, full verifications, delegates, partial mocks, private-method and constructor mocking in AdvancedCollaboratorTest.java): they are external bytecode instrumentation. The call trace plays the part of what a full verification inspects.
