/**
  Health gating of a deployment: the HTTP probe loop under a deadline
  (apps/api/health-checker.ts) and the three calls of an in-process probe
  (apps/api/deployment-service.ts).  The probed service and the clock are inputs.
*/
module HealthCheck {
  import opened Options

  /** What one HTTP probe came to. */
  datatype Response = Status(code: int) | Refused(message: string) | Aborted

  /** A probe whose loop test read `now` on the clock and then got `response`. */
  datatype Attempt = Attempt(now: int, response: Response) {
    predicate Success() { response == Status(200) }
  }

  datatype HealthResult = HealthResult(
    passed: bool, consecutiveSuccesses: nat, probesAttempted: nat, lastStatusCode: Option<int>, lastError: Option<string>)

  /** What an in-process probe did: only a strict `true` is a success. */
  datatype ProbeOutcome = ReturnedTrue | ReturnedOther | Threw

  const REQUIRED_HEALTHY_PROBES: nat := 3

  /** How many successes end the first `n` outcomes in a row. */
  function Streak(outcomes: seq<bool>, n: nat): nat
    requires n <= |outcomes|
  {
    if n == 0 || !outcomes[n - 1] then 0 else 1 + Streak(outcomes, n - 1)
  }

  /** After `n` probes the last one succeeded and ended a run of the required length. */
  predicate Satisfied(outcomes: seq<bool>, n: nat, required: int)
    requires n <= |outcomes|
  {
    n > 0 && outcomes[n - 1] && Streak(outcomes, n) >= required
  }

  function Outcomes(attempts: seq<Attempt>): (r: seq<bool>)
    ensures |r| == |attempts|
  {
    seq(|attempts|, i requires 0 <= i < |attempts| => attempts[i].Success())
  }

  /** The probes begun before the deadline: the loop ends at the first late reading. */
  function InTime(attempts: seq<Attempt>, deadline: int): (n: nat)
    ensures n <= |attempts|
    ensures forall i :: 0 <= i < n ==> attempts[i].now < deadline
    ensures n < |attempts| ==> attempts[n].now >= deadline
  {
    if attempts == [] || attempts[0].now >= deadline then 0 else 1 + InTime(attempts[1..], deadline)
  }

  /** The `k` probes before the `n`th, and no fewer, were answered with status 200. */
  predicate AllAnswered200(attempts: seq<Attempt>, n: nat, k: nat)
    requires n <= |attempts|
  {
    k <= n && forall i :: n - k <= i < n ==> attempts[i].response.Status? && attempts[i].response.code == 200
  }

  lemma {:induction false} StreakIsAtLeast(outcomes: seq<bool>, n: nat, k: nat)
    requires k <= n <= |outcomes| && forall i :: n - k <= i < n ==> outcomes[i]
    ensures Streak(outcomes, n) >= k
  {
    if k > 0 { StreakIsAtLeast(outcomes, n - 1, k - 1); }
  }

  /** A run of the required length is that many answers of status 200 in a row. */
  lemma SatisfiedIff(attempts: seq<Attempt>, n: nat, required: int)
    requires n <= |attempts|
    ensures Satisfied(Outcomes(attempts), n, required) <==> n > 0 && AllAnswered200(attempts, n, if required > 1 then required else 1)
  {
    var outcomes := Outcomes(attempts);
    StreakIsTheLastRun(outcomes, n);
    var k := if required > 1 then required else 1;
    if n > 0 && AllAnswered200(attempts, n, k) {
      StreakIsAtLeast(outcomes, n, k);
    }
    if Satisfied(outcomes, n, required) {
      assert Streak(outcomes, n) >= 1;
      forall i | n - k <= i < n ensures attempts[i].response == Status(200) { assert outcomes[i]; }
    }
  }

  lemma InTimeReached(attempts: seq<Attempt>, deadline: int, n: nat)
    requires n <= |attempts| && (forall i :: 0 <= i < n ==> attempts[i].now < deadline)
    requires n == |attempts| || attempts[n].now >= deadline
    ensures n == InTime(attempts, deadline)
  {}

  /** The result tells what the last probe came to: its status code, or why there was none. */
  predicate Reports(r: HealthResult, last: Option<Response>) {
    match last
    case None => r.lastStatusCode == None && r.lastError == None
    case Some(Status(code)) => r.lastStatusCode == Some(code) && r.lastError == None
    case Some(Refused(message)) => r.lastStatusCode == None && r.lastError == Some(message)
    case Some(Aborted) => r.lastStatusCode == None && r.lastError == Some("Timeout")
  }

  /** The gate passes exactly when some probe begun in time ends a run of the required
      length, and it stops at the first that does.  The clock passes the deadline when
      the attempts run out. */
  method ExecuteHealthCheck(attempts: seq<Attempt>, required: int, startTime: int, totalTimeoutMs: int) returns (r: HealthResult)
    ensures var outcomes, last := Outcomes(attempts), InTime(attempts, startTime + totalTimeoutMs);
      r.probesAttempted <= last && r.consecutiveSuccesses == Streak(outcomes, r.probesAttempted)
      && (forall n :: 0 <= n < r.probesAttempted ==> !Satisfied(outcomes, n, required))
      && (r.passed <==> Satisfied(outcomes, r.probesAttempted, required))
      && (!r.passed ==> r.probesAttempted == last)
    ensures r.passed <==> r.probesAttempted > 0 && AllAnswered200(attempts, r.probesAttempted, if required > 1 then required else 1)
    ensures Reports(r, if r.probesAttempted == 0 then None else Some(attempts[r.probesAttempted - 1].response))
  {
    hide AllAnswered200;
    ghost var outcomes := Outcomes(attempts);
    var totalDeadline := startTime + totalTimeoutMs;
    r := HealthResult(false, 0, 0, None, None);
    while r.probesAttempted < |attempts| && attempts[r.probesAttempted].now < totalDeadline
      invariant r.probesAttempted <= |attempts| && !r.passed
      invariant forall i :: 0 <= i < r.probesAttempted ==> attempts[i].now < totalDeadline
      invariant r.consecutiveSuccesses == Streak(outcomes, r.probesAttempted)
      invariant forall n :: 0 <= n <= r.probesAttempted ==> !Satisfied(outcomes, n, required)
      invariant Reports(r, if r.probesAttempted == 0 then None else Some(attempts[r.probesAttempted - 1].response))
    {
      var attempt := attempts[r.probesAttempted];
      r := r.(probesAttempted := r.probesAttempted + 1, lastError := None, lastStatusCode := None);
      var success := false;
      match attempt.response {
        case Status(code) =>
          r := r.(lastStatusCode := Some(code));
          success := code == 200;
        case Refused(message) => r := r.(lastError := Some(message));
        case Aborted => r := r.(lastError := Some("Timeout"));
      }
      if success {
        r := r.(consecutiveSuccesses := r.consecutiveSuccesses + 1);
        if r.consecutiveSuccesses >= required {
          InTimeAtLeast(attempts, totalDeadline, r.probesAttempted);
          r := r.(passed := true);
          SatisfiedIff(attempts, r.probesAttempted, required);
          return;
        }
      } else {
        r := r.(consecutiveSuccesses := 0);
      }
    }
    InTimeReached(attempts, totalDeadline, r.probesAttempted);
    SatisfiedIff(attempts, r.probesAttempted, required);
  }

  lemma InTimeAtLeast(attempts: seq<Attempt>, deadline: int, n: nat)
    requires n <= |attempts| && (forall i :: 0 <= i < n ==> attempts[i].now < deadline)
    ensures n <= InTime(attempts, deadline)
  {}

  /** The in-process gate: three strict successes, stopping at the first that is not. */
  method CallProbe(probe: seq<ProbeOutcome>) returns (healthy: bool, called: nat)
    requires |probe| >= REQUIRED_HEALTHY_PROBES
    ensures healthy <==> forall i :: 0 <= i < REQUIRED_HEALTHY_PROBES ==> probe[i] == ReturnedTrue
    ensures called <= REQUIRED_HEALTHY_PROBES && (forall i :: 0 <= i < called - 1 ==> probe[i] == ReturnedTrue)
    ensures if healthy then called == 3 else called > 0 && probe[called - 1] != ReturnedTrue
  {
    healthy, called := true, 0;
    while called < REQUIRED_HEALTHY_PROBES
      invariant called <= REQUIRED_HEALTHY_PROBES && healthy
      invariant forall i :: 0 <= i < called ==> probe[i] == ReturnedTrue
    {
      called := called + 1;
      if probe[called - 1] != ReturnedTrue {
        healthy := false;
        break;
      }
    }
  }

  /** How a deployment is gated: an in-process probe (none at all counts as one that
      always succeeds) or an HTTP probe with its required run. */
  datatype Gate = InProcess | Http(required: int)

  /** What the probes so far decide. */
  predicate Passed(gate: Gate, outcomes: seq<bool>) {
    match gate
    case InProcess => outcomes == [true, true, true]
    case Http(required) => Satisfied(outcomes, |outcomes|, required)
  }

  predicate GaveUp(gate: Gate, outcomes: seq<bool>) {
    match gate
    case InProcess => outcomes != [] && !outcomes[|outcomes| - 1]
    case Http(_) => !Passed(gate, outcomes)
  }

  /** A streak is exactly a run of successes: the last `k` outcomes and no more. */
  lemma {:induction false} StreakIsTheLastRun(outcomes: seq<bool>, n: nat)
    requires n <= |outcomes|
    ensures Streak(outcomes, n) <= n
    ensures forall i :: n - Streak(outcomes, n) <= i < n ==> outcomes[i]
    ensures Streak(outcomes, n) < n ==> !outcomes[n - Streak(outcomes, n) - 1]
  {
    if n > 0 && outcomes[n - 1] { StreakIsTheLastRun(outcomes, n - 1); }
  }

  /** A passed gate ended in the required run of consecutive successes. */
  lemma PassedEndsInRequiredRun(gate: Gate, outcomes: seq<bool>)
    requires Passed(gate, outcomes)
    ensures var required := if gate.InProcess? then REQUIRED_HEALTHY_PROBES else gate.required;
      |outcomes| >= 1 && outcomes[|outcomes| - 1] && |outcomes| >= required
      && forall i :: 0 <= i < |outcomes| && i >= |outcomes| - required ==> outcomes[i]
  {
    if gate.Http? { StreakIsTheLastRun(outcomes, |outcomes|); }
  }
}
