/** Starting every runnable export job at once: optionally create four jobs,
    list the jobs, keep those with status New, start and poll each one, and
    join the per-job results into one message and one status list.

    The service's answers are oracle inputs: one validation result per
    creation, the listed jobs, and per runnable job a start response and the
    outcomes of its status fetches. The concurrent fan-out is modelled as a
    loop over the jobs in list order; the original collects the results in an
    unordered bag, so only the multiset of results is significant. */
module BulkRun {
  import opened ExportModel
  import Polling
  import Logger

  /** The number of example jobs created before listing. */
  const JobsToCreate: nat := 4
  /** The polling frequency used for each started job, in milliseconds. */
  const RunJobFrequencyMs: int := 4000
  /** What separates the per-job messages in the final message. */
  const ResultSeparator: string := "\n\n"

  /** The outcome of one job of a bulk run: a message and, when the job was
      polled to the end, its final status. */
  datatype RunnableJobResult = RunnableJobResult(resultMessage: string, resultStatus: Option<ExportStatus>)

  /** The service's answer to a start request; an empty message means the job
      started. */
  datatype StartResponse = StartResponse(errorCode: string, errorMessage: string)

  /** The service's answer to a create request. */
  datatype ValidationResult = ValidationResult(
    isSuccess: bool,
    errorCode: string,
    errorMessage: string,
    validationErrors: seq<(string, string)>)

  /** What the service answers for one runnable job. */
  datatype JobOracle = JobOracle(start: StartResponse, fetches: seq<Polling.FetchOutcome>)

  /** A console line written while creating jobs. */
  datatype ConsoleLine = LogLine(text: string) | ErrorLine(text: string)

  // ---------------------------------------------------------------------------
  // Joining strings.

  /** The summed length of the strings in `xs`. */
  function TotalLength(xs: seq<string>): nat
  {
    if |xs| == 0 then 0 else |xs[0]| + TotalLength(xs[1..])
  }

  /** The strings of `xs` with `sep` between each two of them. */
  function Join(xs: seq<string>, sep: string): (r: string)
    ensures |xs| == 0 ==> r == ""
    ensures |xs| > 0 ==> |r| + |sep| == TotalLength(xs) + |xs| * |sep|
  {
    if |xs| == 0 then ""
    else if |xs| == 1 then xs[0]
    else xs[0] + sep + Join(xs[1..], sep)
  }

  /** The joined text begins with the first string. */
  lemma {:induction false} JoinStartsWithFirst(xs: seq<string>, sep: string)
    requires |xs| > 0
    ensures |Join(xs, sep)| >= |xs[0]| && Join(xs, sep)[..|xs[0]|] == xs[0]
  {
    if |xs| > 1 {
      assert Join(xs, sep) == xs[0] + (sep + Join(xs[1..], sep));
    }
  }

  /** With a non-empty separator the joined text is empty exactly when there
      is nothing to join, or one empty string. */
  lemma {:induction false} JoinEmpty(xs: seq<string>, sep: string)
    requires sep != ""
    ensures Join(xs, sep) == "" <==> |xs| == 0 || (|xs| == 1 && xs[0] == "")
  {
    if |xs| > 1 {
      assert |Join(xs, sep)| >= |sep|;
    }
  }

  // ---------------------------------------------------------------------------
  // One job.

  /** The message recorded for a job whose start was refused. */
  function StartErrorText(start: StartResponse): string
  {
    "<" + start.errorCode + "> " + start.errorMessage
  }

  /** The label that begins each line of the summary, in order. */
  const SummaryLabels: seq<string> :=
    ["Export job ID: ", "Correlation ID: ", "Job status: ", "Job error count: ",
     "Total records: ", "Processed records: ", "Records with warnings: ",
     "Records with errors: ", "Output URL: "]

  /** The lines of the summary of a polled job. The line labelled as records
      with warnings shows the records with errors, as the original does. */
  function SummaryLines(resp: JobResponse): (lines: seq<string>)
    ensures |lines| == |SummaryLabels|
    ensures forall k | 0 <= k < |lines| ::
      |SummaryLabels[k]| <= |lines[k]| && lines[k][..|SummaryLabels[k]|] == SummaryLabels[k]
    ensures lines[0][|SummaryLabels[0]|..] == resp.exportJobId
    ensures lines[6][|SummaryLabels[6]|..] == lines[7][|SummaryLabels[7]|..] == CountText(resp.value.recordsWithErrors)
  {
    ["Export job ID: " + resp.exportJobId,
     "Correlation ID: " + resp.value.correlationId,
     "Job status: " + StatusName(resp.value.jobStatus),
     "Job error count: " + CountText(resp.value.jobErrorsCount),
     "Total records: " + CountText(resp.value.totalRecords),
     "Processed records: " + CountText(resp.value.processedRecords),
     "Records with warnings: " + CountText(resp.value.recordsWithErrors),
     "Records with errors: " + CountText(resp.value.recordsWithErrors),
     "Output URL: " + Logger.Colour("orange1", resp.value.outputUrl)]
  }

  /** The summary of a polled job: its lines, one per row. */
  function Summary(resp: JobResponse): (text: string)
    ensures |text| >= |SummaryLabels[0]| + |resp.exportJobId|
    ensures text[..|SummaryLabels[0]| + |resp.exportJobId|] == SummaryLabels[0] + resp.exportJobId
  {
    var lines := SummaryLines(resp);
    JoinStartsWithFirst(lines, "\n");
    assert lines[0] == SummaryLabels[0] + resp.exportJobId;
    Join(lines, "\n")
  }

  /** The count of records with warnings never shows in the summary: two
      responses that differ only in it have the same summary. */
  lemma SummaryIgnoresWarnings(resp: JobResponse, warnings: Option<int32>)
    ensures Summary(resp.(value := resp.value.(recordsWithWarnings := warnings))) == Summary(resp)
  {
    var other := resp.(value := resp.value.(recordsWithWarnings := warnings));
    assert SummaryLines(other) == SummaryLines(resp);
  }

  datatype JobOutcome =
    | Finished(result: RunnableJobResult)
    | Faulted      // the poll rethrew its fourth consecutive failure
    | Exhausted    // the oracle ran out of fetch outcomes

  /** What happened to one job, and the poll, if it was polled. */
  datatype JobRun = JobRun(outcome: JobOutcome, poll: Option<Polling.PollRun>)

  /** Start one job; if the start was refused, record the error and do not
      poll; otherwise poll it to the end and record its summary and status. */
  function RunJob(oracle: JobOracle): (r: JobRun)
    ensures r.poll.None? <==> oracle.start.errorMessage != ""
    ensures oracle.start.errorMessage != "" ==>
      r.outcome == Finished(RunnableJobResult(StartErrorText(oracle.start), None))
    ensures r.poll.Some? ==> r.poll.value == Polling.Poll(oracle.fetches, RunJobFrequencyMs)
    ensures r.outcome.Finished? && r.outcome.result.resultStatus.Some? ==>
      && r.poll.Some? && r.poll.value.result.Terminal?
      && r.outcome.result.resultStatus.value == r.poll.value.result.response.value.jobStatus
      && IsTerminal(r.outcome.result.resultStatus.value)
    ensures r.poll.Some? ==>
      && (r.outcome.Finished? <==> r.poll.value.result.Terminal?)
      && (r.outcome.Faulted? <==> r.poll.value.result.Error?)
    ensures r.outcome.Finished? ==> r.outcome.result.resultMessage != ""
  {
    if oracle.start.errorMessage != "" then
      JobRun(Finished(RunnableJobResult(StartErrorText(oracle.start), None)), None)
    else
      var run := Polling.Poll(oracle.fetches, RunJobFrequencyMs);
      Polling.PollStops(oracle.fetches, RunJobFrequencyMs);
      match run.result
      case Terminal(resp) =>
        JobRun(Finished(RunnableJobResult(Summary(resp), Some(resp.value.jobStatus))), Some(run))
      case Error => JobRun(Faulted, Some(run))
      case OutOfInput => JobRun(Exhausted, Some(run))
  }

  // ---------------------------------------------------------------------------
  // All runnable jobs.

  /** The jobs that can be started: those with status New, in list order. */
  function RunnableJobs(jobs: seq<ExportJob>): (r: seq<ExportJob>)
    ensures forall j | j in r :: j.jobStatus == New
    ensures forall j | j in jobs && j.jobStatus == New :: j in r
    ensures forall j :: multiset(r)[j] == if j.jobStatus == New then multiset(jobs)[j] else 0
  {
    if jobs == [] then []
    else
      var rest := RunnableJobs(jobs[..|jobs| - 1]);
      var last := jobs[|jobs| - 1];
      assert jobs == jobs[..|jobs| - 1] + [last];
      if last.jobStatus == New then rest + [last] else rest
  }

  /** Filtering keeps the order: it distributes over concatenation. */
  lemma {:induction false} RunnableJobsAppend(a: seq<ExportJob>, b: seq<ExportJob>)
    ensures RunnableJobs(a + b) == RunnableJobs(a) + RunnableJobs(b)
  {
    if b != [] {
      var b' := b[..|b| - 1];
      assert a + b == (a + b') + [b[|b| - 1]];
      assert (a + b)[..|a + b| - 1] == a + b';
      RunnableJobsAppend(a, b');
    } else {
      assert a + b == a;
    }
  }

  /** The runs of the runnable jobs, job by job. */
  function RunAll(oracles: seq<JobOracle>): (runs: seq<JobRun>)
    ensures |runs| == |oracles|
    ensures forall k | 0 <= k < |oracles| :: runs[k] == RunJob(oracles[k])
  {
    seq(|oracles|, k requires 0 <= k < |oracles| => RunJob(oracles[k]))
  }

  /** The results that reach the bag: those of the jobs that finished. */
  function FinishedResults(runs: seq<JobRun>): seq<RunnableJobResult>
  {
    if runs == [] then []
    else
      var last := runs[|runs| - 1];
      FinishedResults(runs[..|runs| - 1]) + if last.outcome.Finished? then [last.outcome.result] else []
  }

  lemma FinishedResultsStep(runs: seq<JobRun>, i: nat)
    requires i < |runs|
    ensures FinishedResults(runs[..i + 1]) ==
      FinishedResults(runs[..i]) + if runs[i].outcome.Finished? then [runs[i].outcome.result] else []
    ensures AnyEnded(runs[..i + 1], true) == (AnyEnded(runs[..i], true) || runs[i].outcome.Faulted?)
    ensures AnyEnded(runs[..i + 1], false) == (AnyEnded(runs[..i], false) || runs[i].outcome.Exhausted?)
  {
    assert runs[..i + 1][..i] == runs[..i];
  }

  /** When every job finished there is exactly one result per job, in order. */
  lemma {:induction false} FinishedResultsAll(runs: seq<JobRun>)
    requires forall k | 0 <= k < |runs| :: runs[k].outcome.Finished?
    ensures |FinishedResults(runs)| == |runs|
    ensures forall k | 0 <= k < |runs| :: FinishedResults(runs)[k] == runs[k].outcome.result
  {
    if runs != [] {
      FinishedResultsAll(runs[..|runs| - 1]);
    }
  }

  /** The outcome of starting all runnable jobs. Waiting for all of them
      rethrows when one poll faulted, so then no result list is returned. */
  datatype BulkOutcome =
    | AllFinished(results: seq<RunnableJobResult>)
    | SomeFaulted
    | InputExhausted

  /** Whether some run ended with `Faulted` (when `faulted`) or `Exhausted`. */
  function AnyEnded(runs: seq<JobRun>, faulted: bool): (b: bool)
    ensures b <==> exists k | 0 <= k < |runs| ::
      if faulted then runs[k].outcome.Faulted? else runs[k].outcome.Exhausted?
  {
    if runs == [] then false
    else
      var last := runs[|runs| - 1];
      assert forall k | 0 <= k < |runs| - 1 :: runs[..|runs| - 1][k] == runs[k];
      AnyEnded(runs[..|runs| - 1], faulted) || (if faulted then last.outcome.Faulted? else last.outcome.Exhausted?)
  }

  function BulkOf(runs: seq<JobRun>): (b: BulkOutcome)
    ensures b.AllFinished? <==> forall k | 0 <= k < |runs| :: runs[k].outcome.Finished?
  {
    if AnyEnded(runs, false) then InputExhausted
    else if AnyEnded(runs, true) then SomeFaulted
    else AllFinished(FinishedResults(runs))
  }

  /** Start and poll every runnable job, collecting the results. */
  method StartMultipleJobs(runnableJobs: seq<ExportJob>, oracles: seq<JobOracle>) returns (outcome: BulkOutcome)
    requires |oracles| == |runnableJobs|
    ensures outcome == BulkOf(RunAll(oracles))
    ensures outcome.AllFinished? ==>
      && |outcome.results| == |runnableJobs|
      && forall k | 0 <= k < |runnableJobs| :: outcome.results[k] == RunJob(oracles[k]).outcome.result
  {
    ghost var runs := RunAll(oracles);
    var jobResults: seq<RunnableJobResult> := [];
    var faulted, exhausted := false, false;
    for i := 0 to |runnableJobs|
      invariant jobResults == FinishedResults(runs[..i])
      invariant faulted == AnyEnded(runs[..i], true)
      invariant exhausted == AnyEnded(runs[..i], false)
    {
      var jobRun := RunJob(oracles[i]);
      assert jobRun == runs[i];
      FinishedResultsStep(runs, i);
      if jobRun.outcome.Finished? {
        jobResults := jobResults + [jobRun.outcome.result];
      } else if jobRun.outcome.Faulted? {
        faulted := true;
      } else {
        exhausted := true;
      }
    }
    assert runs[..|runnableJobs|] == runs;
    if exhausted {
      outcome := InputExhausted;
    } else if faulted {
      outcome := SomeFaulted;
    } else {
      FinishedResultsAll(runs);
      outcome := AllFinished(jobResults);
    }
  }

  // ---------------------------------------------------------------------------
  // Creating the example jobs.

  /** The console lines of one creation: a refused creation reports the code
      and message and one line per validation error, and stops there. */
  function CreateJob(validation: ValidationResult): (lines: seq<ConsoleLine>)
    ensures |lines| >= 2 && lines[0] == LogLine("Creating job")
    ensures validation.isSuccess ==> lines == [LogLine("Creating job"), LogLine("Job created successfully")]
    ensures !validation.isSuccess ==>
      && |lines| == 2 + |validation.validationErrors|
      && lines[1] == ErrorLine("<" + validation.errorCode + "> " + validation.errorMessage)
      && (forall k | 0 <= k < |validation.validationErrors| ::
            lines[2 + k] == ErrorLine(validation.validationErrors[k].0 + " - " + validation.validationErrors[k].1))
      && LogLine("Job created successfully") !in lines
  {
    if validation.isSuccess then
      [LogLine("Creating job"), LogLine("Job created successfully")]
    else
      [LogLine("Creating job"), ErrorLine("<" + validation.errorCode + "> " + validation.errorMessage)] +
      seq(|validation.validationErrors|, k requires 0 <= k < |validation.validationErrors| =>
        ErrorLine(validation.validationErrors[k].0 + " - " + validation.validationErrors[k].1))
  }

  /** The console lines of a series of creations, one after another. */
  function CreateLogs(validations: seq<ValidationResult>): seq<ConsoleLine>
  {
    if validations == [] then []
    else CreateLogs(validations[..|validations| - 1]) + CreateJob(validations[|validations| - 1])
  }

  /** The number of lines equal to `line`. */
  function LineCount(lines: seq<ConsoleLine>, line: ConsoleLine): nat
  {
    if lines == [] then 0
    else LineCount(lines[..|lines| - 1], line) + if lines[|lines| - 1] == line then 1 else 0
  }

  lemma {:induction false} LineCountAppend(a: seq<ConsoleLine>, b: seq<ConsoleLine>, line: ConsoleLine)
    ensures LineCount(a + b, line) == LineCount(a, line) + LineCount(b, line)
  {
    if b != [] {
      var b' := b[..|b| - 1];
      assert (a + b)[..|a + b| - 1] == a + b';
      LineCountAppend(a, b', line);
    } else {
      assert a + b == a;
    }
  }

  /** The number of creations the service accepted. */
  function Accepted(validations: seq<ValidationResult>): nat
  {
    if validations == [] then 0
    else Accepted(validations[..|validations| - 1]) + if validations[|validations| - 1].isSuccess then 1 else 0
  }

  /** Every creation logs "Creating job" once, and exactly the accepted ones
      log "Job created successfully". */
  lemma {:induction false} CreateLogsCounts(validations: seq<ValidationResult>)
    ensures LineCount(CreateLogs(validations), LogLine("Creating job")) == |validations|
    ensures LineCount(CreateLogs(validations), LogLine("Job created successfully")) == Accepted(validations)
  {
    if validations != [] {
      var n := |validations| - 1;
      var v := validations[n];
      CreateLogsCounts(validations[..n]);
      LineCountAppend(CreateLogs(validations[..n]), CreateJob(v), LogLine("Creating job"));
      LineCountAppend(CreateLogs(validations[..n]), CreateJob(v), LogLine("Job created successfully"));
      OneCreationCounts(v);
    }
  }

  lemma OneCreationCounts(v: ValidationResult)
    ensures LineCount(CreateJob(v), LogLine("Creating job")) == 1
    ensures LineCount(CreateJob(v), LogLine("Job created successfully")) == if v.isSuccess then 1 else 0
  {
    var lines := CreateJob(v);
    var creating, created := LogLine("Creating job"), LogLine("Job created successfully");
    assert "Job created successfully"[0] != "Creating job"[0];
    assert creating != created;
    var head, tail := [creating], lines[1..];
    assert lines == head + tail;
    assert head[..0] == [];
    assert LineCount(head, creating) == 1 && LineCount(head, created) == 0;
    LineCountAppend(head, tail, creating);
    LineCountAppend(head, tail, created);
    if v.isSuccess {
      assert tail == [created] && tail[..0] == [];
    } else {
      NoLogLines(tail, creating);
      NoLogLines(tail, created);
    }
  }

  /** Error lines are never counted as a log line. */
  lemma {:induction false} NoLogLines(lines: seq<ConsoleLine>, line: ConsoleLine)
    requires line.LogLine?
    requires forall k | 0 <= k < |lines| :: lines[k].ErrorLine?
    ensures LineCount(lines, line) == 0
  {
    if lines != [] {
      NoLogLines(lines[..|lines| - 1], line);
    }
  }

  /** Create the example jobs, `JobsToCreate` of them; `validations[i]` is
      what the service answers when the i-th one is validated. */
  method CreateJobs(validations: seq<ValidationResult>) returns (creations: nat, createLog: seq<ConsoleLine>)
    requires |validations| >= JobsToCreate
    ensures creations == JobsToCreate
    ensures createLog == CreateLogs(validations[..JobsToCreate])
  {
    creations, createLog := 0, [];
    for i := 0 to JobsToCreate
      invariant creations == i
      invariant createLog == CreateLogs(validations[..i])
    {
      assert validations[..i + 1][..i] == validations[..i];
      createLog := createLog + CreateJob(validations[i]);
      creations := creations + 1;
    }
  }

  /** What a whole run produces before it is reported: the creations made,
      their console lines, the runnable jobs and, when every job finished,
      the final message and the status list. */
  datatype AllJobsRun = AllJobsRun(
    creations: nat,
    createLog: seq<ConsoleLine>,
    runnable: seq<ExportJob>,
    outcome: BulkOutcome,
    finalMessage: string,
    statuses: seq<Option<ExportStatus>>)

  /** The whole sample: create (when asked), list, filter, run, join. */
  method StartAllRunnableJobs(createJobs: bool, validations: seq<ValidationResult>, listed: seq<ExportJob>, oracles: seq<JobOracle>)
    returns (run: AllJobsRun)
    requires createJobs ==> |validations| >= JobsToCreate
    requires |oracles| == |RunnableJobs(listed)|
    ensures run.creations == if createJobs then JobsToCreate else 0
    ensures run.createLog == if createJobs then CreateLogs(validations[..JobsToCreate]) else []
    ensures run.runnable == RunnableJobs(listed)
    ensures run.outcome == BulkOf(RunAll(oracles))
    ensures run.outcome.AllFinished? ==>
      && |run.statuses| == |run.outcome.results| == |run.runnable|
      && run.finalMessage == Join(MessagesOf(run.outcome.results), ResultSeparator)
      && forall k | 0 <= k < |run.statuses| :: run.statuses[k] == run.outcome.results[k].resultStatus
  {
    var creations: nat, createLog: seq<ConsoleLine> := 0, [];
    if createJobs {
      creations, createLog := CreateJobs(validations);
    }
    var runnableJobs := RunnableJobs(listed);
    var outcome := StartMultipleJobs(runnableJobs, oracles);
    var finalMessage := "";
    var statuses: seq<Option<ExportStatus>> := [];
    if outcome.AllFinished? {
      finalMessage := Join(MessagesOf(outcome.results), ResultSeparator);
      statuses := StatusesOf(outcome.results);
    }
    run := AllJobsRun(creations, createLog, runnableJobs, outcome, finalMessage, statuses);
  }

  function MessagesOf(results: seq<RunnableJobResult>): (m: seq<string>)
    ensures |m| == |results|
    ensures forall k | 0 <= k < |results| :: m[k] == results[k].resultMessage
  {
    seq(|results|, k requires 0 <= k < |results| => results[k].resultMessage)
  }

  function StatusesOf(results: seq<RunnableJobResult>): (s: seq<Option<ExportStatus>>)
    ensures |s| == |results|
    ensures forall k | 0 <= k < |results| :: s[k] == results[k].resultStatus
  {
    seq(|results|, k requires 0 <= k < |results| => results[k].resultStatus)
  }

  // ---------------------------------------------------------------------------
  // Properties of a finished bulk run.

  /** Every job has its result; a null status marks exactly the jobs whose
      start was refused, and every other status is terminal. */
  lemma BulkResults(oracles: seq<JobOracle>)
    requires BulkOf(RunAll(oracles)).AllFinished?
    ensures var results := BulkOf(RunAll(oracles)).results;
      && |results| == |oracles|
      && (forall k | 0 <= k < |oracles| ::
            results[k].resultStatus.None? <==> oracles[k].start.errorMessage != "")
      && (forall k | 0 <= k < |oracles| ::
            results[k].resultStatus.Some? ==> IsTerminal(results[k].resultStatus.value))
  {
    var runs := RunAll(oracles);
    assert forall k | 0 <= k < |runs| :: runs[k].outcome.Finished?;
    FinishedResultsAll(runs);
  }

  /** The number of refused starts among the oracles. */
  function RefusedStarts(oracles: seq<JobOracle>): nat
  {
    if oracles == [] then 0
    else RefusedStarts(oracles[..|oracles| - 1]) + if oracles[|oracles| - 1].start.errorMessage != "" then 1 else 0
  }

  /** The statuses of a finished bulk run split exactly into the breakdown's
      four buckets and one null per refused start. */
  lemma {:induction false} BulkBreakdownCounts(oracles: seq<JobOracle>)
    requires BulkOf(RunAll(oracles)).AllFinished?
    ensures var statuses := StatusesOf(BulkOf(RunAll(oracles)).results);
      Logger.Total(Logger.BulkBreakdown(statuses)) + RefusedStarts(oracles) == |oracles|
  {
    var results := BulkOf(RunAll(oracles)).results;
    BulkResults(oracles);
    var statuses := StatusesOf(results);
    NullsAreRefusals(oracles, statuses);
    TerminalOrNull(statuses);
  }

  /** Statuses that are null exactly where the start was refused have as many
      nulls as there were refusals. */
  lemma {:induction false} NullsAreRefusals(oracles: seq<JobOracle>, statuses: seq<Option<ExportStatus>>)
    requires |statuses| == |oracles|
    requires forall k | 0 <= k < |oracles| :: statuses[k].None? <==> oracles[k].start.errorMessage != ""
    ensures multiset(statuses)[None] == RefusedStarts(oracles)
  {
    if oracles != [] {
      var n := |oracles| - 1;
      assert statuses == statuses[..n] + [statuses[n]];
      NullsAreRefusals(oracles[..n], statuses[..n]);
    }
  }

  /** When every status is null or terminal, the breakdown counts every
      non-null status. */
  lemma {:induction false} TerminalOrNull(statuses: seq<Option<ExportStatus>>)
    requires forall k | 0 <= k < |statuses| :: statuses[k].Some? ==> IsTerminal(statuses[k].value)
    ensures Logger.Total(Logger.BulkBreakdown(statuses)) + multiset(statuses)[None] == |statuses|
  {
    if statuses != [] {
      var x, rest := statuses[0], statuses[1..];
      assert statuses == [x] + rest;
      assert forall k | 0 <= k < |rest| :: rest[k] == statuses[k + 1];
      TerminalOrNull(rest);
      assert multiset(statuses)[None] == multiset(rest)[None] + if x.None? then 1 else 0;
      Logger.TotalStep(statuses);
    }
  }

  /** Every per-job message is non-empty, so the final message is empty, and
      the bulk report (drawn as `Logger.PrintBulkExportJobResult` draws it)
      falls back to its default headline, exactly when there was no runnable
      job. */
  lemma DefaultHeadlineIffNoJobs(oracles: seq<JobOracle>)
    requires BulkOf(RunAll(oracles)).AllFinished?
    ensures var finalMessage := Join(MessagesOf(BulkOf(RunAll(oracles)).results), ResultSeparator);
      && (finalMessage == "" <==> |oracles| == 0)
      && (|oracles| == 0 ==> Logger.BulkHeadline(finalMessage) == "Bulk export completed")
      && (|oracles| > 0 ==> Logger.BulkHeadline(finalMessage) == finalMessage)
  {
    var runs := RunAll(oracles);
    assert forall k | 0 <= k < |runs| :: runs[k].outcome.Finished?;
    FinishedResultsAll(runs);
    var messages := MessagesOf(BulkOf(runs).results);
    JoinEmpty(messages, ResultSeparator);
  }

  lemma StatusesOfAppend(a: seq<RunnableJobResult>, b: seq<RunnableJobResult>)
    ensures StatusesOf(a + b) == StatusesOf(a) + StatusesOf(b)
  {
    assert forall k | 0 <= k < |a + b| :: (a + b)[k] == if k < |a| then a[k] else b[k - |a|];
  }

  /** Taking out the element at `j` takes one copy of it out of the multiset. */
  lemma RemoveAt<T>(s: seq<T>, j: nat)
    requires j < |s|
    ensures multiset(s[..j] + s[j + 1..]) == multiset(s) - multiset{s[j]}
  {
    assert s == s[..j] + [s[j]] + s[j + 1..];
  }

  /** Statuses of a reordered result list are the statuses reordered. */
  lemma {:induction false} StatusesOfReordered(a: seq<RunnableJobResult>, b: seq<RunnableJobResult>)
    requires multiset(a) == multiset(b)
    ensures multiset(StatusesOf(a)) == multiset(StatusesOf(b))
  {
    if a == [] {
      assert |b| == |multiset(b)| == 0;
      assert b == [];
    } else {
      var x := a[0];
      assert x in multiset(b);
      var j :| 0 <= j < |b| && b[j] == x;
      var b' := b[..j] + b[j + 1..];
      RemoveAt(b, j);
      assert a == [x] + a[1..];
      assert multiset(a) == multiset{x} + multiset(a[1..]);
      assert multiset(a[1..]) == multiset(b');
      StatusesOfReordered(a[1..], b');
      SplitStatuses(a, 0);
      assert a[..0] + a[1..] == a[1..];
      SplitStatuses(b, j);
    }
  }

  /** The statuses of a list are the status at `j` plus those of the rest. */
  lemma SplitStatuses(s: seq<RunnableJobResult>, j: nat)
    requires j < |s|
    ensures multiset(StatusesOf(s)) == multiset{s[j].resultStatus} + multiset(StatusesOf(s[..j] + s[j + 1..]))
  {
    var pre, x, post := s[..j], s[j], s[j + 1..];
    assert s == (pre + [x]) + post;
    StatusesOfAppend(pre + [x], post);
    StatusesOfAppend(pre, [x]);
    StatusesOfAppend(pre, post);
    var sp, sq := StatusesOf(pre), StatusesOf(post);
    assert StatusesOf([x]) == [x.resultStatus];
    assert StatusesOf(s) == sp + [x.resultStatus] + sq;
    assert multiset(sp + [x.resultStatus] + sq) == multiset(sp) + multiset{x.resultStatus} + multiset(sq);
  }

  /** The results are collected in an unordered bag: whatever order they
      arrive in, the breakdown drawn by `Logger.PrintBulkExportJobResult` is
      the same. */
  lemma BreakdownIgnoresArrivalOrder(results: seq<RunnableJobResult>, arrived: seq<RunnableJobResult>, now: string)
    requires multiset(arrived) == multiset(results)
    ensures Logger.PrintBulkExportJobResult(Join(MessagesOf(arrived), ResultSeparator), StatusesOf(arrived), now).chart ==
            Logger.PrintBulkExportJobResult(Join(MessagesOf(results), ResultSeparator), StatusesOf(results), now).chart
  {
    StatusesOfReordered(arrived, results);
    Logger.BreakdownPermutation(StatusesOf(arrived), StatusesOf(results));
  }
}
