/** The job-completion polling loop: fetch the job status over and over until
    it is terminal, tolerating up to three consecutive failed fetches.

    The remote fetch is an oracle: the loop consumes a finite sequence of
    fetch outcomes, one per call. Running out of that sequence is reported as
    `OutOfInput`, a result the real loop never has. Delays, console lines, the
    stopwatch and the cancellation token are recorded as events of a trace. */
module Polling {
  import opened ExportModel

  /** The retry budget a poll starts with and returns to after each success. */
  const InitialRetries: nat := 3
  /** The pause after a failed fetch, in milliseconds. */
  const RetryDelayMs: int := 3000

  /** What one call of the fetch delegate gives back. */
  datatype FetchOutcome =
    | Fetched(response: JobResponse)
    | NullResponse
    | Thrown

  /** A null response is treated as a failure, like a thrown exception. */
  predicate IsFailure(o: FetchOutcome)
  {
    o.NullResponse? || o.Thrown?
  }

  datatype PollResult =
    | Terminal(response: JobResponse)
    | Error
    | OutOfInput

  /** The observable steps of the loop, in order. */
  datatype Event =
    | FetchCalled
    | StatusLogged(jobId: string, status: ExportStatus)
    | Delayed(ms: int)
    | RetryWarned(retriesLeft: int)
    | ExceptionWritten
    | WatchRestarted
    | TokenCancelled
    | FailureReported(errorCode: string, errorMessage: string)

  /** The result, the number of fetches made, and the trace. */
  datatype PollRun = PollRun(result: PollResult, fetches: nat, trace: seq<Event>)

  /** What happens after the loop leaves with a terminal response. */
  function ExitEvents(resp: JobResponse): seq<Event>
  {
    [TokenCancelled] +
    if resp.value.jobStatus == Failed
    then [FailureReported(resp.value.errorCode, resp.value.errorMessage)]
    else []
  }

  /** The loop from fetch number `i` on, with `retries` failures still allowed. */
  function PollFrom(outcomes: seq<FetchOutcome>, i: nat, retries: nat, frequency: int): PollRun
    requires i <= |outcomes|
    decreases |outcomes| - i
  {
    if i == |outcomes| then PollRun(OutOfInput, 0, [])
    else match outcomes[i]
      case Fetched(resp) =>
        if IsTerminal(resp.value.jobStatus) then
          PollRun(Terminal(resp), 1, SuccessEvents(resp, frequency) + ExitEvents(resp))
        else
          var rest := PollFrom(outcomes, i + 1, InitialRetries, frequency);
          PollRun(rest.result, rest.fetches + 1, SuccessEvents(resp, frequency) + rest.trace)
      case _ =>
        if retries > 0 then
          var rest := PollFrom(outcomes, i + 1, retries - 1, frequency);
          PollRun(rest.result, rest.fetches + 1, RetryEvents(retries - 1) + rest.trace)
        else
          PollRun(Error, 1, [FetchCalled, ExceptionWritten, WatchRestarted])
  }

  /** The whole poll, from a fresh retry budget. */
  function Poll(outcomes: seq<FetchOutcome>, frequency: int): PollRun
  {
    PollFrom(outcomes, 0, InitialRetries, frequency)
  }

  /** The state of the loop after `fetched` fetches and the events `trace`,
      combined with what the rest of the loop does. */
  function Continue(fetched: nat, trace: seq<Event>, rest: PollRun): PollRun
  {
    PollRun(rest.result, fetched + rest.fetches, trace + rest.trace)
  }

  /** The events of a successful fetch that is not the last one. */
  function SuccessEvents(resp: JobResponse, frequency: int): seq<Event>
  {
    [FetchCalled, StatusLogged(resp.exportJobId, resp.value.jobStatus), Delayed(frequency), WatchRestarted]
  }

  /** The events of a failed fetch that the budget still allows. */
  function RetryEvents(retriesLeft: int): seq<Event>
  {
    [FetchCalled, RetryWarned(retriesLeft), Delayed(RetryDelayMs), WatchRestarted]
  }

  lemma UnfoldSuccess(s: seq<FetchOutcome>, i: nat, retries: nat, frequency: int)
    requires i < |s| && s[i].Fetched? && !IsTerminal(s[i].response.value.jobStatus)
    ensures PollFrom(s, i, retries, frequency) ==
      Continue(1, SuccessEvents(s[i].response, frequency), PollFrom(s, i + 1, InitialRetries, frequency))
  {
  }

  lemma UnfoldTerminal(s: seq<FetchOutcome>, i: nat, retries: nat, frequency: int)
    requires i < |s| && s[i].Fetched? && IsTerminal(s[i].response.value.jobStatus)
    ensures PollFrom(s, i, retries, frequency) ==
      PollRun(Terminal(s[i].response), 1, SuccessEvents(s[i].response, frequency) + ExitEvents(s[i].response))
  {
  }

  lemma UnfoldRetry(s: seq<FetchOutcome>, i: nat, retries: nat, frequency: int)
    requires i < |s| && IsFailure(s[i]) && retries > 0
    ensures PollFrom(s, i, retries, frequency) ==
      Continue(1, RetryEvents(retries - 1), PollFrom(s, i + 1, retries - 1, frequency))
  {
  }

  lemma UnfoldFatal(s: seq<FetchOutcome>, i: nat, frequency: int)
    requires i < |s| && IsFailure(s[i])
    ensures PollFrom(s, i, 0, frequency) == PollRun(Error, 1, [FetchCalled, ExceptionWritten, WatchRestarted])
  {
  }

  lemma ContinueContinue(a: nat, t: seq<Event>, b: nat, u: seq<Event>, r: PollRun)
    ensures Continue(a, t, Continue(b, u, r)) == Continue(a + b, t + u, r)
  {
    assert t + (u + r.trace) == (t + u) + r.trace;
  }

  /** One pass of the loop body: the fetch inside the `try`, the two `catch`
      clauses and the `finally`. `jobStatus` is the last response assigned,
      which a thrown fetch leaves unchanged and a null response clears. */
  method Attempt(outcome: FetchOutcome, jobStatus: Option<JobResponse>, retries: nat, frequency: int)
    returns (newStatus: Option<JobResponse>, newRetries: nat, events: seq<Event>, rethrown: bool)
    ensures outcome.Fetched? ==>
      && newStatus == Some(outcome.response) && newRetries == InitialRetries
      && events == SuccessEvents(outcome.response, frequency) && !rethrown
    ensures IsFailure(outcome) && retries > 0 ==>
      && newStatus == (if outcome.NullResponse? then None else jobStatus) && newRetries == retries - 1
      && events == RetryEvents(retries - 1) && !rethrown
    ensures IsFailure(outcome) && retries == 0 ==>
      events == [FetchCalled, ExceptionWritten, WatchRestarted] && rethrown
  {
    newStatus, newRetries, rethrown := jobStatus, retries, false;
    events := [FetchCalled];
    if outcome.Fetched? {
      newStatus := Some(outcome.response);
      events := events + [StatusLogged(outcome.response.exportJobId, outcome.response.value.jobStatus),
                          Delayed(frequency)];
      newRetries := InitialRetries;
    } else {
      if outcome.NullResponse? {
        newStatus := None;
      }
      if retries > 0 {
        newRetries := retries - 1;
        events := events + [RetryWarned(newRetries), Delayed(RetryDelayMs)];
      } else {
        events := events + [ExceptionWritten];
        rethrown := true;
      }
    }
    events := events + [WatchRestarted];
  }

  /** The loop state after an attempt that did not rethrow, joined with the
      rest of the loop, is the loop state before it joined with the rest. */
  lemma AttemptContinues(s: seq<FetchOutcome>, i: nat, retries: nat, frequency: int, trace: seq<Event>,
                         events: seq<Event>, newRetries: nat)
    requires i < |s| && !(IsFailure(s[i]) && retries == 0)
    requires s[i].Fetched? ==> events == SuccessEvents(s[i].response, frequency) && newRetries == InitialRetries
    requires IsFailure(s[i]) ==> events == RetryEvents(retries - 1) && newRetries == retries - 1
    ensures s[i].Fetched? && IsTerminal(s[i].response.value.jobStatus) ==>
      Continue(i, trace, PollFrom(s, i, retries, frequency)) ==
        PollRun(Terminal(s[i].response), i + 1, trace + events + ExitEvents(s[i].response))
    ensures !(s[i].Fetched? && IsTerminal(s[i].response.value.jobStatus)) ==>
      Continue(i, trace, PollFrom(s, i, retries, frequency)) ==
        Continue(i + 1, trace + events, PollFrom(s, i + 1, newRetries, frequency))
  {
    if s[i].Fetched? && IsTerminal(s[i].response.value.jobStatus) {
      UnfoldTerminal(s, i, retries, frequency);
      assert trace + (events + ExitEvents(s[i].response)) == trace + events + ExitEvents(s[i].response);
    } else {
      if s[i].Fetched? {
        UnfoldSuccess(s, i, retries, frequency);
      } else {
        UnfoldRetry(s, i, retries, frequency);
      }
      ContinueContinue(i, trace, 1, events, PollFrom(s, i + 1, newRetries, frequency));
    }
  }

  /** The polling loop: attempts until the last response assigned has a
      terminal status, as the original's `do … while` condition reads it. */
  method WaitForJobToBeCompleted(outcomes: seq<FetchOutcome>, frequency: int) returns (run: PollRun)
    ensures run == Poll(outcomes, frequency)
  {
    var jobStatus: Option<JobResponse> := None;
    var retries: nat := InitialRetries;
    var i := 0;
    var trace: seq<Event> := [];
    ghost var total := Poll(outcomes, frequency);
    while true
      invariant i <= |outcomes|
      invariant retries <= InitialRetries
      invariant jobStatus.None? || !IsTerminal(jobStatus.value.value.jobStatus)
      invariant total == Continue(i, trace, PollFrom(outcomes, i, retries, frequency))
      decreases |outcomes| - i
    {
      if i == |outcomes| {
        return PollRun(OutOfInput, i, trace);
      }
      var outcome := outcomes[i];
      var newStatus, newRetries, events, rethrown := Attempt(outcome, jobStatus, retries, frequency);
      if rethrown {
        UnfoldFatal(outcomes, i, frequency);
        return PollRun(Error, i + 1, trace + events);
      }
      AttemptContinues(outcomes, i, retries, frequency, trace, events, newRetries);
      jobStatus, retries, trace := newStatus, newRetries, trace + events;
      i := i + 1;
      if jobStatus.Some? && IsTerminal(jobStatus.value.value.jobStatus) {
        break;
      }
    }
    var resp := jobStatus.value;
    ghost var before := trace;
    trace := trace + [TokenCancelled];
    if resp.value.jobStatus == Failed {
      trace := trace + [FailureReported(resp.value.errorCode, resp.value.errorMessage)];
    }
    assert trace == before + ExitEvents(resp);
    run := PollRun(Terminal(resp), i, trace);
  }

  // ---------------------------------------------------------------------------
  // A reference description of where the loop stops, by index into the input.

  /** Fetch number `k` returned a terminal status. */
  predicate TerminalAt(s: seq<FetchOutcome>, k: nat)
    requires k < |s|
  {
    s[k].Fetched? && IsTerminal(s[k].response.value.jobStatus)
  }

  /** Fetch number `k` is the fourth of four consecutive failures. */
  predicate FatalAt(s: seq<FetchOutcome>, k: nat)
    requires k < |s|
  {
    3 <= k && IsFailure(s[k - 3]) && IsFailure(s[k - 2]) && IsFailure(s[k - 1]) && IsFailure(s[k])
  }

  predicate StopsAt(s: seq<FetchOutcome>, k: nat)
    requires k < |s|
  {
    TerminalAt(s, k) || FatalAt(s, k)
  }

  /** The number of consecutive failures just before fetch number `i`. */
  function FailureRun(s: seq<FetchOutcome>, i: nat): nat
    requires i <= |s|
  {
    if i == 0 || !IsFailure(s[i - 1]) then 0 else FailureRun(s, i - 1) + 1
  }

  lemma FatalAtRun(s: seq<FetchOutcome>, k: nat)
    requires k < |s|
    ensures FatalAt(s, k) <==> IsFailure(s[k]) && FailureRun(s, k) >= 3
  {
    if IsFailure(s[k]) && FailureRun(s, k) >= 3 {
      assert FailureRun(s, k - 1) >= 2;
      assert FailureRun(s, k - 2) >= 1;
      assert IsFailure(s[k - 3]) && IsFailure(s[k - 2]) && IsFailure(s[k - 1]);
    }
    if FatalAt(s, k) {
      assert IsFailure(s[k - 3]) && IsFailure(s[k - 2]) && IsFailure(s[k - 1]);
      assert FailureRun(s, k - 2) >= 1;
      assert FailureRun(s, k - 1) >= 2;
    }
  }

  /** `r` is a run of the loop from fetch `i` that stops where the reference
      description says: at the first terminal fetch or fourth consecutive
      failure at or after `i`, or at the end of the input if there is none. */
  ghost predicate StopsAsDescribed(s: seq<FetchOutcome>, i: nat, r: PollRun)
    requires i <= |s|
  {
    && r.fetches <= |s| - i
    && (r.result.OutOfInput? ==> r.fetches == |s| - i && forall k | i <= k < |s| :: !StopsAt(s, k))
    && (!r.result.OutOfInput? ==>
          && 1 <= r.fetches
          && StopsAt(s, i + r.fetches - 1)
          && forall k | i <= k < i + r.fetches - 1 :: !StopsAt(s, k))
    && (r.result.Terminal? ==>
          s[i + r.fetches - 1] == Fetched(r.result.response) && IsTerminal(r.result.response.value.jobStatus))
    && (r.result.Error? ==> FatalAt(s, i + r.fetches - 1))
  }

  /** An attempt that does not stop the loop moves the description one fetch on. */
  lemma StopsAsDescribedStep(s: seq<FetchOutcome>, i: nat, trace: seq<Event>, rest: PollRun)
    requires i < |s| && !StopsAt(s, i)
    requires StopsAsDescribed(s, i + 1, rest)
    ensures StopsAsDescribed(s, i, Continue(1, trace, rest))
  {
    var r := Continue(1, trace, rest);
    assert i + r.fetches - 1 == i + 1 + rest.fetches - 1;
  }

  /** The loop from fetch `i`, with a budget that matches the failures seen so
      far, stops as described. */
  lemma {:induction false} PollFromStops(s: seq<FetchOutcome>, i: nat, retries: nat, frequency: int)
    requires i <= |s|
    requires FailureRun(s, i) <= InitialRetries
    requires retries == InitialRetries - FailureRun(s, i)
    decreases |s| - i
    ensures StopsAsDescribed(s, i, PollFrom(s, i, retries, frequency))
  {
    if i < |s| {
      FatalAtRun(s, i);
      if s[i].Fetched? {
        if IsTerminal(s[i].response.value.jobStatus) {
          UnfoldTerminal(s, i, retries, frequency);
        } else {
          UnfoldSuccess(s, i, retries, frequency);
          PollFromStops(s, i + 1, InitialRetries, frequency);
          StopsAsDescribedStep(s, i, SuccessEvents(s[i].response, frequency), PollFrom(s, i + 1, InitialRetries, frequency));
        }
      } else if retries > 0 {
        UnfoldRetry(s, i, retries, frequency);
        PollFromStops(s, i + 1, retries - 1, frequency);
        StopsAsDescribedStep(s, i, RetryEvents(retries - 1), PollFrom(s, i + 1, retries - 1, frequency));
      } else {
        UnfoldFatal(s, i, frequency);
      }
    }
  }

  /** The poll returns at the first fetch that is terminal or is the fourth
      consecutive failure, and makes no fetch after it; a terminal result is
      exactly the terminal response fetched there; it runs out of input only
      when no fetch is either. */
  lemma PollStops(s: seq<FetchOutcome>, frequency: int)
    ensures var r := Poll(s, frequency);
      && (r.result.OutOfInput? <==> forall k | 0 <= k < |s| :: !StopsAt(s, k))
      && (r.result.OutOfInput? ==> r.fetches == |s|)
      && (!r.result.OutOfInput? ==>
            && 1 <= r.fetches <= |s|
            && StopsAt(s, r.fetches - 1)
            && forall k | 0 <= k < r.fetches - 1 :: !StopsAt(s, k))
      && (r.result.Terminal? ==>
            s[r.fetches - 1] == Fetched(r.result.response) && IsTerminal(r.result.response.value.jobStatus))
      && (r.result.Error? ==> FatalAt(s, r.fetches - 1) && !TerminalAt(s, r.fetches - 1))
  {
    PollFromStops(s, 0, InitialRetries, frequency);
  }

  /** Never four consecutive failures: the poll never errors. */
  lemma NoFourFailuresNoError(s: seq<FetchOutcome>, frequency: int)
    requires forall k | 0 <= k < |s| :: !FatalAt(s, k)
    ensures !Poll(s, frequency).result.Error?
  {
    PollStops(s, frequency);
  }

  // ---------------------------------------------------------------------------
  // The trace.

  /** The number of occurrences of `e` in `t`. */
  function CountOf(t: seq<Event>, e: Event): nat
  {
    if t == [] then 0 else (if t[0] == e then 1 else 0) + CountOf(t[1..], e)
  }

  lemma {:induction false} CountOfAppend(a: seq<Event>, b: seq<Event>, e: Event)
    ensures CountOf(a + b, e) == CountOf(a, e) + CountOf(b, e)
  {
    if a == [] {
      assert a + b == b;
    } else {
      assert (a + b)[0] == a[0];
      assert (a + b)[1..] == a[1..] + b;
      CountOfAppend(a[1..], b, e);
    }
  }

  lemma {:induction false} CountOfAbsent(t: seq<Event>, e: Event)
    requires e !in t
    ensures CountOf(t, e) == 0
  {
    if t != [] {
      CountOfAbsent(t[1..], e);
    }
  }

  /** Each step of the loop holds exactly one fetch and one stopwatch restart. */
  lemma StepCounts(step: seq<Event>)
    requires |step| == 4 && step[0] == FetchCalled && step[3] == WatchRestarted
    requires step[1] != FetchCalled && step[1] != WatchRestarted
    requires step[2] != FetchCalled && step[2] != WatchRestarted
    ensures CountOf(step, FetchCalled) == 1 && CountOf(step, WatchRestarted) == 1
  {
    assert step[3..][1..] == [];
    assert step[2..][1..] == step[3..];
    assert step[1..][1..] == step[2..];
    assert CountOf(step[3..], FetchCalled) == 0 && CountOf(step[3..], WatchRestarted) == 1;
    assert CountOf(step[2..], FetchCalled) == 0 && CountOf(step[2..], WatchRestarted) == 1;
    assert CountOf(step[1..], FetchCalled) == 0 && CountOf(step[1..], WatchRestarted) == 1;
  }

  /** Every attempt calls the fetch delegate once and restarts the stopwatch
      once, whether it succeeded or failed. */
  lemma {:induction false} PollFromCounts(s: seq<FetchOutcome>, i: nat, retries: nat, frequency: int)
    requires i <= |s|
    decreases |s| - i
    ensures var r := PollFrom(s, i, retries, frequency);
      CountOf(r.trace, FetchCalled) == r.fetches && CountOf(r.trace, WatchRestarted) == r.fetches
  {
    if i < |s| {
      if s[i].Fetched? {
        var resp := s[i].response;
        var step := SuccessEvents(resp, frequency);
        StepCounts(step);
        if IsTerminal(resp.value.jobStatus) {
          UnfoldTerminal(s, i, retries, frequency);
          CountOfAbsent(ExitEvents(resp), FetchCalled);
          CountOfAbsent(ExitEvents(resp), WatchRestarted);
          CountOfAppend(step, ExitEvents(resp), FetchCalled);
          CountOfAppend(step, ExitEvents(resp), WatchRestarted);
        } else {
          UnfoldSuccess(s, i, retries, frequency);
          var rest := PollFrom(s, i + 1, InitialRetries, frequency);
          CountOfAppend(step, rest.trace, FetchCalled);
          CountOfAppend(step, rest.trace, WatchRestarted);
          PollFromCounts(s, i + 1, InitialRetries, frequency);
        }
      } else if retries > 0 {
        UnfoldRetry(s, i, retries, frequency);
        var step := RetryEvents(retries - 1);
        StepCounts(step);
        var rest := PollFrom(s, i + 1, retries - 1, frequency);
        CountOfAppend(step, rest.trace, FetchCalled);
        CountOfAppend(step, rest.trace, WatchRestarted);
        PollFromCounts(s, i + 1, retries - 1, frequency);
      } else {
        UnfoldFatal(s, i, frequency);
      }
    }
  }

  lemma PollCounts(s: seq<FetchOutcome>, frequency: int)
    ensures var r := Poll(s, frequency);
      CountOf(r.trace, FetchCalled) == r.fetches && CountOf(r.trace, WatchRestarted) == r.fetches
  {
    PollFromCounts(s, 0, InitialRetries, frequency);
  }

  /** The cancellation token is cancelled only on the normal exit. */
  lemma {:induction false} PollFromToken(s: seq<FetchOutcome>, i: nat, retries: nat, frequency: int)
    requires i <= |s|
    decreases |s| - i
    ensures var r := PollFrom(s, i, retries, frequency);
      TokenCancelled in r.trace <==> r.result.Terminal?
  {
    if i < |s| {
      if s[i].Fetched? {
        if IsTerminal(s[i].response.value.jobStatus) {
          UnfoldTerminal(s, i, retries, frequency);
        } else {
          UnfoldSuccess(s, i, retries, frequency);
          PollFromToken(s, i + 1, InitialRetries, frequency);
        }
      } else if retries > 0 {
        UnfoldRetry(s, i, retries, frequency);
        PollFromToken(s, i + 1, retries - 1, frequency);
      } else {
        UnfoldFatal(s, i, frequency);
      }
    }
  }

  /** A failure report is written exactly when the returned status is Failed,
      as the last event, with the job's error code and message. */
  lemma {:induction false} PollFromFailureReport(s: seq<FetchOutcome>, i: nat, retries: nat, frequency: int)
    requires i <= |s|
    decreases |s| - i
    ensures var r := PollFrom(s, i, retries, frequency);
      && ((forall e | e in r.trace :: !e.FailureReported?) <==>
            !(r.result.Terminal? && r.result.response.value.jobStatus == Failed))
      && (r.result.Terminal? && r.result.response.value.jobStatus == Failed ==>
            r.trace[|r.trace| - 1] ==
              FailureReported(r.result.response.value.errorCode, r.result.response.value.errorMessage))
  {
    if i < |s| {
      var r := PollFrom(s, i, retries, frequency);
      if s[i].Fetched? {
        var resp := s[i].response;
        if IsTerminal(resp.value.jobStatus) {
          UnfoldTerminal(s, i, retries, frequency);
          if resp.value.jobStatus == Failed {
            assert r.trace[|r.trace| - 1] in r.trace;
          }
        } else {
          UnfoldSuccess(s, i, retries, frequency);
          PollFromFailureReport(s, i + 1, InitialRetries, frequency);
        }
      } else if retries > 0 {
        UnfoldRetry(s, i, retries, frequency);
        PollFromFailureReport(s, i + 1, retries - 1, frequency);
      } else {
        UnfoldFatal(s, i, frequency);
      }
    }
  }

  /** The token is cancelled only when the poll returns a response; a failure
      report is written exactly when the returned status is Failed, and it is
      the last thing the poll does. */
  lemma PollExit(s: seq<FetchOutcome>, frequency: int)
    ensures var r := Poll(s, frequency);
      && (TokenCancelled in r.trace <==> r.result.Terminal?)
      && ((forall e | e in r.trace :: !e.FailureReported?) <==>
            !(r.result.Terminal? && r.result.response.value.jobStatus == Failed))
      && (r.result.Terminal? && r.result.response.value.jobStatus == Failed ==>
            r.trace[|r.trace| - 1] ==
              FailureReported(r.result.response.value.errorCode, r.result.response.value.errorMessage))
  {
    PollFromToken(s, 0, InitialRetries, frequency);
    PollFromFailureReport(s, 0, InitialRetries, frequency);
  }

  /** Every pause is either the polling frequency or the retry back-off, and
      every retry warning announces a budget between 0 and 2. */
  lemma {:induction false} PollFromDelays(s: seq<FetchOutcome>, i: nat, retries: nat, frequency: int)
    requires i <= |s|
    requires retries <= InitialRetries
    decreases |s| - i
    ensures var r := PollFrom(s, i, retries, frequency);
      && (forall e | e in r.trace && e.Delayed? :: e.ms == frequency || e.ms == RetryDelayMs)
      && (forall e | e in r.trace && e.RetryWarned? :: 0 <= e.retriesLeft < InitialRetries)
  {
    if i < |s| {
      if s[i].Fetched? {
        if IsTerminal(s[i].response.value.jobStatus) {
          UnfoldTerminal(s, i, retries, frequency);
        } else {
          UnfoldSuccess(s, i, retries, frequency);
          PollFromDelays(s, i + 1, InitialRetries, frequency);
        }
      } else if retries > 0 {
        UnfoldRetry(s, i, retries, frequency);
        PollFromDelays(s, i + 1, retries - 1, frequency);
      } else {
        UnfoldFatal(s, i, frequency);
      }
    }
  }

  lemma PollDelays(s: seq<FetchOutcome>, frequency: int)
    ensures var r := Poll(s, frequency);
      && (forall e | e in r.trace && e.Delayed? :: e.ms == frequency || e.ms == RetryDelayMs)
      && (forall e | e in r.trace && e.RetryWarned? :: 0 <= e.retriesLeft < InitialRetries)
  {
    PollFromDelays(s, 0, InitialRetries, frequency);
  }

  // ---------------------------------------------------------------------------
  // Failures: a null response is handled like an exception, and the budget
  // returns to 3 after each success.

  /** Two outcome sequences that differ only in which kind of failure occurs
      where give the same run. */
  lemma {:induction false} FailureKindIrrelevantFrom(s: seq<FetchOutcome>, t: seq<FetchOutcome>, i: nat, retries: nat, frequency: int)
    requires |s| == |t| && i <= |s|
    requires forall k | 0 <= k < |s| :: s[k] == t[k] || (IsFailure(s[k]) && IsFailure(t[k]))
    decreases |s| - i
    ensures PollFrom(s, i, retries, frequency) == PollFrom(t, i, retries, frequency)
  {
    if i < |s| {
      if s[i].Fetched? {
        assert t[i] == s[i];
        FailureKindIrrelevantFrom(s, t, i + 1, InitialRetries, frequency);
      } else {
        assert IsFailure(t[i]);
        if retries > 0 {
          FailureKindIrrelevantFrom(s, t, i + 1, retries - 1, frequency);
        }
      }
    }
  }

  lemma NullLikeThrown(s: seq<FetchOutcome>, t: seq<FetchOutcome>, frequency: int)
    requires |s| == |t|
    requires forall k | 0 <= k < |s| :: s[k] == t[k] || (IsFailure(s[k]) && IsFailure(t[k]))
    ensures Poll(s, frequency) == Poll(t, frequency)
  {
    FailureKindIrrelevantFrom(s, t, 0, InitialRetries, frequency);
  }

  /** The stop indices of `p + [x] + rest`, for a non-terminal success `x`,
      are those of `p` and those of `rest` shifted past `x`. */
  lemma StopsAcrossSuccess(p: seq<FetchOutcome>, x: FetchOutcome, rest: seq<FetchOutcome>, k: nat)
    requires x.Fetched? && !IsTerminal(x.response.value.jobStatus)
    requires k < |p| + 1 + |rest|
    ensures var full := p + [x] + rest;
      && (k < |p| ==> (StopsAt(full, k) <==> StopsAt(p, k)))
      && (k == |p| ==> !StopsAt(full, k))
      && (k > |p| ==> (StopsAt(full, k) <==> StopsAt(rest, k - |p| - 1)))
  {
    var full := p + [x] + rest;
    if k > |p| {
      var m := k - |p| - 1;
      if FatalAt(full, k) {
        assert IsFailure(full[k - 3]) && IsFailure(full[k - 2]) && IsFailure(full[k - 1]);
        assert 3 <= m;
      }
      assert forall j :: |p| < j < |full| ==> full[j] == rest[j - |p| - 1];
    } else if k < |p| {
      assert forall j :: 0 <= j < |p| ==> full[j] == p[j];
    } else {
      assert full[k] == x;
    }
  }

  /** A success resets the budget: after a prefix that neither stops nor runs
      past a non-terminal success, the poll behaves as a fresh poll of what
      follows, so failures on both sides of a success never add up. */
  lemma ResetAfterSuccess(p: seq<FetchOutcome>, x: FetchOutcome, rest: seq<FetchOutcome>, frequency: int)
    requires x.Fetched? && !IsTerminal(x.response.value.jobStatus)
    requires Poll(p, frequency).result.OutOfInput?
    ensures Poll(p + [x] + rest, frequency).result == Poll(rest, frequency).result
    ensures Poll(p + [x] + rest, frequency).fetches == |p| + 1 + Poll(rest, frequency).fetches
  {
    var full := p + [x] + rest;
    var n := |p| + 1;
    PollStops(p, frequency);
    PollStops(rest, frequency);
    PollStops(full, frequency);
    var rf, rr := Poll(full, frequency), Poll(rest, frequency);
    forall k | 0 <= k < |full|
      ensures k < n ==> !StopsAt(full, k)
      ensures k >= n ==> (StopsAt(full, k) <==> StopsAt(rest, k - n))
    {
      StopsAcrossSuccess(p, x, rest, k);
    }
    if rr.result.OutOfInput? {
      forall k | 0 <= k < |full| ensures !StopsAt(full, k) {
        if k >= n { assert !StopsAt(rest, k - n); }
      }
    } else {
      var m := rr.fetches - 1;
      assert StopsAt(full, n + m);
      assert !rf.result.OutOfInput?;
      var kf := rf.fetches - 1;
      assert kf >= n;
      assert StopsAt(rest, kf - n);
      assert kf == n + m;
      assert full[kf] == rest[m];
      if rr.result.Terminal? {
        assert TerminalAt(full, kf);
      } else {
        assert !TerminalAt(rest, m);
      }
    }
  }

  // ---------------------------------------------------------------------------
  // Two concrete runs.

  /** Three failures and then a completed job: the poll returns the completed
      response after four fetches, announcing 2, 1 and 0 retries left. */
  lemma ThreeFailuresThenCompleted(resp: JobResponse, frequency: int)
    requires resp.value.jobStatus == Completed
    ensures var r := Poll([Thrown, Thrown, Thrown, Fetched(resp)], frequency);
      && r.result == Terminal(resp)
      && r.fetches == 4
      && RetryWarned(2) in r.trace && RetryWarned(1) in r.trace && RetryWarned(0) in r.trace
  {
    var s := [Thrown, Thrown, Thrown, Fetched(resp)];
    assert PollFrom(s, 3, 0, frequency).result == Terminal(resp);
    assert PollFrom(s, 2, 1, frequency).fetches == 2;
    assert PollFrom(s, 1, 2, frequency).fetches == 3;
  }

  /** Four failures: the fourth is rethrown and no response is returned. */
  lemma FourFailuresError(frequency: int)
    ensures var r := Poll([Thrown, Thrown, Thrown, Thrown], frequency);
      r.result == Error && r.fetches == 4
  {
    var s := [Thrown, Thrown, Thrown, Thrown];
    assert PollFrom(s, 3, 0, frequency).result == Error;
    assert PollFrom(s, 2, 1, frequency).fetches == 2;
    assert PollFrom(s, 1, 2, frequency).fetches == 3;
  }
}
