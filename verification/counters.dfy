/** The pass/fail bookkeeping of the integration-test runner: two counters
    updated by every test request, and the exit code derived from them. */
module Counters {

  /** The HTTP methods the runner can send, and any other method name, for
      which no request is issued; `VerbOf` maps a test's method name here. */
  datatype Verb = Get | Post | Put | Delete | Other(name: string)

  /** The method a test's method name selects: exactly the four upper-case
      names `GET`, `POST`, `PUT` and `DELETE` send a request. */
  function VerbOf(methodName: string): (v: Verb)
    ensures v.Other? <==> methodName != "GET" && methodName != "POST" && methodName != "PUT" && methodName != "DELETE"
    ensures v.Other? ==> v.name == methodName
    ensures v == Get <==> methodName == "GET"
    ensures v == Post <==> methodName == "POST"
    ensures v == Put <==> methodName == "PUT"
    ensures v == Delete <==> methodName == "DELETE"
  {
    if methodName == "GET" then Get
    else if methodName == "POST" then Post
    else if methodName == "PUT" then Put
    else if methodName == "DELETE" then Delete
    else Other(methodName)
  }

  /** What came back for a request: a response with its status code, or a
      failure (timeout, connection error or any other exception). */
  datatype Observation = Responded(status: int) | RequestFailed

  /** One test: the method it uses (`VerbOf` of its method name), the status
      it expects and what was observed. */
  datatype Test = Test(verb: Verb, expected: int, observed: Observation)

  /** The runner's counters. */
  datatype Counts = Counts(testsRun: nat, testsPassed: nat)

  /** The counters after one test and the success flag the test returns. */
  datatype Outcome = Outcome(counts: Counts, success: bool)

  /** The counters of a fresh runner. */
  const Initial: Counts := Counts(0, 0)

  /** The invariant of the counters: never more passes than tests. */
  predicate Consistent(t: Counts)
  {
    t.testsPassed <= t.testsRun
  }

  /** A test passes when a request was actually sent and answered with the
      expected status code. */
  predicate Passes(test: Test)
  {
    !test.verb.Other? && test.observed == Responded(test.expected)
  }

  /** One test run: count the test, then count a pass only when the status
      code matches. An unknown method leaves the response unbound, which the
      catch-all handler reports as a failure. */
  function RunTest(t: Counts, test: Test): (o: Outcome)
    ensures o.counts.testsRun == t.testsRun + 1
    ensures o.success <==> Passes(test)
    ensures o.counts.testsPassed == if o.success then t.testsPassed + 1 else t.testsPassed
    ensures Consistent(t) ==> Consistent(o.counts)
  {
    var counted := t.(testsRun := t.testsRun + 1);
    if test.verb.Other? then Outcome(counted, false)
    else
      match test.observed
      case RequestFailed => Outcome(counted, false)
      case Responded(status) =>
        if status == test.expected then Outcome(counted.(testsPassed := t.testsPassed + 1), true)
        else Outcome(counted, false)
  }

  /** The counters after running `tests` in order, starting from `t`. */
  function RunAll(t: Counts, tests: seq<Test>): Counts
    decreases |tests|
  {
    if |tests| == 0 then t
    else RunAll(RunTest(t, tests[0]).counts, tests[1..])
  }

  /** Number of tests in `tests` that pass (the reference count). */
  function PassCount(tests: seq<Test>): (n: nat)
    ensures n <= |tests|
  {
    if |tests| == 0 then 0
    else (if Passes(tests[0]) then 1 else 0) + PassCount(tests[1..])
  }

  /** A test named by its method string passes exactly when the name is one
      of the four the runner sends and the expected status came back. */
  lemma NamedTestPasses(t: Counts, methodName: string, expected: int, observed: Observation)
    ensures RunTest(t, Test(VerbOf(methodName), expected, observed)).success <==>
              (methodName == "GET" || methodName == "POST" || methodName == "PUT" || methodName == "DELETE") &&
              observed == Responded(expected)
  {
  }

  /** Running a sequence of tests adds its length to `testsRun` and its
      number of passing tests to `testsPassed`, and keeps the invariant. */
  lemma {:induction false} RunAllCounts(t: Counts, tests: seq<Test>)
    ensures RunAll(t, tests).testsRun == t.testsRun + |tests|
    ensures RunAll(t, tests).testsPassed == t.testsPassed + PassCount(tests)
    ensures Consistent(t) ==> Consistent(RunAll(t, tests))
    decreases |tests|
  {
    if |tests| > 0 {
      RunAllCounts(RunTest(t, tests[0]).counts, tests[1..]);
    }
  }

  /** The pass count equals the number of tests exactly when every test passes. */
  lemma {:induction false} PassCountFull(tests: seq<Test>)
    ensures PassCount(tests) == |tests| <==> forall i :: 0 <= i < |tests| ==> Passes(tests[i])
  {
    if |tests| > 0 {
      PassCountFull(tests[1..]);
      assert forall i :: 0 < i < |tests| ==> tests[i] == tests[1..][i - 1];
    }
  }

  /** The final summary: all passed, or the number of failed tests. */
  datatype Report = AllPassed | SomeFailed(failedTests: int)

  /** The summary printed at the end of a run. */
  function FinalReport(t: Counts): (r: Report)
    ensures r.AllPassed? <==> t.testsPassed == t.testsRun
    ensures r.SomeFailed? ==> r.failedTests == t.testsRun - t.testsPassed
    ensures Consistent(t) && r.SomeFailed? ==> r.failedTests > 0
  {
    if t.testsPassed == t.testsRun then AllPassed
    else SomeFailed(t.testsRun - t.testsPassed)
  }

  /** The process exit code: 0 when all tests passed, 1 otherwise. */
  function ExitCode(t: Counts): (code: int)
    ensures code == 0 || code == 1
    ensures code == 0 <==> t.testsPassed == t.testsRun
  {
    match FinalReport(t)
    case AllPassed => 0
    case SomeFailed(_) => 1
  }

  /** A run that starts from fresh counters exits with 0 exactly when every
      one of its tests passed, and otherwise reports a positive failure count. */
  lemma ExitZeroIffAllPass(tests: seq<Test>)
    ensures ExitCode(RunAll(Initial, tests)) == 0 <==> forall i :: 0 <= i < |tests| ==> Passes(tests[i])
    ensures FinalReport(RunAll(Initial, tests)).SomeFailed? ==>
              FinalReport(RunAll(Initial, tests)).failedTests == |tests| - PassCount(tests) > 0
  {
    RunAllCounts(Initial, tests);
    PassCountFull(tests);
  }
}
