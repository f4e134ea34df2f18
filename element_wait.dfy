/**
 * `wait_for_element`: poll the browser for a selector until it is found or a
 * time budget runs out.  Time is a tick count in milliseconds; only a probe and
 * a sleep advance it.
 */
module ElementWait {
  import opened Browser

  /** The fixed sleep between two probes, `Duration::from_millis(500)`. */
  const PollIntervalMs: nat := 500

  /** The text of the error the loop gives up with. */
  const TimeoutMessage: string := "Timeout waiting for element"

  /** What the browser does during a wait: the outcome of the k-th
      `driver.find`, how long that call takes, and how much the k-th 500 ms
      sleep overshoots (a sleep never wakes early). A probe error and "not
      found" are the same thing to the loop: any `Err`. */
  datatype Schedule = Schedule(probe: nat -> Res<()>, probeCost: nat -> nat, sleepExtra: nat -> nat)

  /** The elapsed time the loop measures at the top of iteration `n`, provided
      the probes of iterations `0 .. n-1` all failed. */
  function ElapsedBefore(s: Schedule, n: nat): nat
  {
    if n == 0 then 0
    else ElapsedBefore(s, n - 1) + s.probeCost(n - 1) + PollIntervalMs + s.sleepExtra(n - 1)
  }

  /** Iterations `0 .. n-1` all passed the time check and their probes found nothing. */
  ghost predicate FailedThrough(s: Schedule, timeout: nat, n: nat)
  {
    forall j: nat :: j < n ==> !s.probe(j).Ok? && ElapsedBefore(s, j) <= timeout
  }

  /** The wait can succeed: some probe succeeds in an iteration whose time
      check has not yet gone past the budget. */
  ghost predicate WithinBudget(s: Schedule, timeout: nat)
  {
    exists j: nat :: s.probe(j).Ok? && ElapsedBefore(s, j) <= timeout
  }

  /** Between the top of iteration `j` and the top of iteration `k` there are
      `k - j` sleeps of at least 500 ms each. */
  lemma {:induction false} ElapsedGrowth(s: Schedule, j: nat, k: nat)
    requires j <= k
    ensures ElapsedBefore(s, k) >= ElapsedBefore(s, j) + PollIntervalMs * (k - j)
    decreases k
  {
    if j < k {
      ElapsedGrowth(s, j, k - 1);
    }
  }

  /** Two successive probes are separated by the earlier probe's own duration
      and a full sleep. */
  lemma ProbeSpacing(s: Schedule, j: nat)
    ensures ElapsedBefore(s, j + 1) - ElapsedBefore(s, j) >= s.probeCost(j) + PollIntervalMs
  {
  }

  /** A wait that has probed `n` times has seen at most `timeout / 500 + 1`
      time checks pass. */
  lemma ProbeBound(s: Schedule, timeout: nat, n: nat)
    requires n > 0 && ElapsedBefore(s, n - 1) <= timeout
    ensures n <= timeout / PollIntervalMs + 1
  {
    ElapsedGrowth(s, 0, n - 1);
    assert PollIntervalMs * (n - 1) <= timeout;
  }

  /** `wait_for_element(driver, selector, timeout)`. Besides the result it
      returns how many probes ran and the elapsed time at return. */
  method WaitForElement(s: Schedule, timeout: nat) returns (r: Res<()>, probes: nat, elapsed: nat)
    ensures r == Ok(()) || r == Err(Timeout(TimeoutMessage))
    // success exactly when some probe succeeds before the budget is exceeded
    ensures r.Ok? <==> WithinBudget(s, timeout)
    // on success: the first successful probe, after a passed time check
    ensures r.Ok? ==>
              probes > 0 && s.probe(probes - 1).Ok? && FailedThrough(s, timeout, probes - 1) &&
              ElapsedBefore(s, probes - 1) <= timeout &&
              elapsed == ElapsedBefore(s, probes - 1) + s.probeCost(probes - 1)
    // on timeout: never early, and only after every probe so far failed
    ensures r.Err? ==>
              FailedThrough(s, timeout, probes) && elapsed == ElapsedBefore(s, probes) && elapsed > timeout
    ensures probes <= timeout / PollIntervalMs + 1
  {
    var start := 0;
    var now := start;
    probes := 0;
    while now - start <= timeout
      invariant now == start + ElapsedBefore(s, probes)
      invariant FailedThrough(s, timeout, probes)
      invariant probes > 0 ==> ElapsedBefore(s, probes - 1) <= timeout
      decreases timeout - (now - start)
    {
      var found := s.probe(probes);
      now := now + s.probeCost(probes);
      probes := probes + 1;
      if found.Ok? {
        r, elapsed := Ok(()), now - start;
        ProbeBound(s, timeout, probes);
        return;
      }
      now := now + PollIntervalMs + s.sleepExtra(probes - 1);
    }
    r, elapsed := Err(Timeout(TimeoutMessage)), now - start;
    if probes > 0 {
      ProbeBound(s, timeout, probes);
    }
    forall j: nat | s.probe(j).Ok? && ElapsedBefore(s, j) <= timeout
      ensures false
    {
      ElapsedGrowth(s, probes, j);
    }
  }
}
