# Relativity export samples: polling, bulk run and logger, in Dafny

This project models the core of the Relativity export samples console: the
loop that polls an export job until it reaches a terminal status, the
"start all runnable jobs" sample built on it, and the logger that reports
the results.

- `export_model.dfy` (`ExportModel`) holds the shared values. These are the
  export job snapshot and its envelope (`ExportJob`, `JobResponse`), the
  job status with its terminal subset, the 32-bit nullable counters with
  explicit wrap-around, and how a counter prints.
- `polling.dfy` (`Polling`) models `WaitForJobToBeCompletedAsync`.
  - It is an imperative method with a `while` loop, proved equal to a
    recursive specification (`PollFrom`).
  - That specification is then characterised by lemmas. They cover where
    the loop stops, how the retry budget behaves, and what the trace of
    events contains.
  - The remote fetch is an oracle, a finite sequence of fetch outcomes.
  - Delays, console lines, the stopwatch and the cancellation token are
    recorded as events.
- `bulk_run.dfy` (`BulkRun`) models `Job_StartAllRunnableJobs` and its
  helpers:
  - create four example jobs;
  - list the jobs and keep those with status New;
  - start and poll each one with a 4000 ms frequency;
  - join the per-job messages and collect the statuses.
  The service's answers are oracle inputs.
- `logger.dfy` (`Logger`) models the pure parts of `Logger`:
  - level tags and message markup;
  - the log row;
  - the sample-data grid;
  - the per-job records chart, whose processed count uses lifted,
    wrapping `int?` arithmetic;
  - the bulk status breakdown.
- `logger_extensions.dfy` (`LoggerExtensions`) models the extension methods
  on the logger.

Where a counter is null, the model uses `None`. A null string is the empty
string, because every use in the core treats the two alike
(`string.IsNullOrEmpty`, string interpolation).

## Model

| member | source | states |
|---|---|---|
| ExportModel.IsTerminal | Relativity.Export.Samples.RelConsole/SampleCollection/BaseExportService.cs:89-92 | A status is terminal if and only if it is none of New, Scheduled and Running, which is the set the loop condition leaves on. |
| ExportModel.Wrap32 | Relativity.Export.Samples.RelConsole/Helpers/Logger.cs:108 | The wrapped value is congruent to the input modulo 2^32, and equals it when the input fits in 32 bits (unchecked C# `int` arithmetic). |
| Polling.WaitForJobToBeCompleted | Relativity.Export.Samples.RelConsole/SampleCollection/BaseExportService.cs:35-102 | The loop's result, number of fetches and event trace are exactly those of the recursive specification `Poll`. It keeps the last response assigned, which a null response clears and a thrown fetch leaves alone, and it tests the `do … while` condition on it. |
| Polling.Attempt | Relativity.Export.Samples.RelConsole/SampleCollection/BaseExportService.cs:57-88 | One pass of the loop body. A response is assigned and logged, waits `frequency`, and restores 3 retries. A failure with retries left spends one, warns and waits 3000 ms; a null response clears the last response, a throw keeps it. A failure with none left writes the exception and rethrows. The stopwatch is restarted on every path. |
| Polling.AttemptContinues | Relativity.Export.Samples.RelConsole/SampleCollection/BaseExportService.cs:55-92 | One attempt that does not rethrow moves the loop to the next fetch with the new budget, or ends it with the terminal response and the exit events. |
| Polling.UnfoldSuccess | Relativity.Export.Samples.RelConsole/SampleCollection/BaseExportService.cs:59-71 | A non-terminal response logs the status, waits `frequency` ms, restores the budget of 3 retries and continues with the next fetch. |
| Polling.UnfoldTerminal | Relativity.Export.Samples.RelConsole/SampleCollection/BaseExportService.cs:89-101 | A terminal response ends the loop at this fetch; the token is cancelled and, for Failed, the error is reported. |
| Polling.UnfoldRetry | Relativity.Export.Samples.RelConsole/SampleCollection/BaseExportService.cs:73-79 | A failed fetch with retries left uses one retry, warns with the retries left, waits 3000 ms and continues. |
| Polling.UnfoldFatal | Relativity.Export.Samples.RelConsole/SampleCollection/BaseExportService.cs:80-84 | A failed fetch with no retry left writes the exception and rethrows. The stopwatch restart of the `finally` block still happens. |
| Polling.FatalAtRun | Relativity.Export.Samples.RelConsole/SampleCollection/BaseExportService.cs:40 | Fetch k is the fourth consecutive failure exactly when it fails and at least three failures precede it directly. |
| Polling.PollFromStops | Relativity.Export.Samples.RelConsole/SampleCollection/BaseExportService.cs:55-92 | The poll starts at any fetch whose budget matches the failures just before it. It stops at the first later fetch that is terminal or is a fourth consecutive failure, never fetches again after it, or runs out of input. |
| Polling.PollStops | Relativity.Export.Samples.RelConsole/SampleCollection/BaseExportService.cs:55-92 | The poll returns at the first terminal fetch or fourth consecutive failure and fetches nothing after it. A returned response is the terminal one fetched there, and an error means four consecutive failures. It runs out of input if and only if no fetch is a stop. |
| Polling.NoFourFailuresNoError | Relativity.Export.Samples.RelConsole/SampleCollection/BaseExportService.cs:73-84 | Without four consecutive failed fetches the poll never throws. |
| Polling.PollFromCounts | Relativity.Export.Samples.RelConsole/SampleCollection/BaseExportService.cs:57-88 | From any point, each attempt calls the fetch delegate once and restarts the stopwatch once, whether it succeeded or failed. |
| Polling.PollCounts | Relativity.Export.Samples.RelConsole/SampleCollection/BaseExportService.cs:57-88 | Over a whole poll, the fetch calls and the stopwatch restarts both equal the number of attempts. |
| Polling.PollFromToken | Relativity.Export.Samples.RelConsole/SampleCollection/BaseExportService.cs:94 | The token is cancelled if and only if the loop leaves normally with a terminal response. |
| Polling.PollFromFailureReport | Relativity.Export.Samples.RelConsole/SampleCollection/BaseExportService.cs:96-99 | An error is reported if and only if the returned status is Failed, as the last event, with the job's code and message. |
| Polling.PollExit | Relativity.Export.Samples.RelConsole/SampleCollection/BaseExportService.cs:94-101 | For a whole poll, the token and failure-report properties combined. |
| Polling.PollFromDelays | Relativity.Export.Samples.RelConsole/SampleCollection/BaseExportService.cs:70-77 | Every delay is either the polling frequency or 3000 ms, and every retry warning reports 0 to 2 retries left. |
| Polling.PollDelays | Relativity.Export.Samples.RelConsole/SampleCollection/BaseExportService.cs:70-77 | The same, for a whole poll. |
| Polling.FailureKindIrrelevantFrom | Relativity.Export.Samples.RelConsole/SampleCollection/BaseExportService.cs:61-62 | A null response and a thrown fetch give the same run, since the null is turned into an exception. |
| Polling.NullLikeThrown | Relativity.Export.Samples.RelConsole/SampleCollection/BaseExportService.cs:61-62 | The same, for a whole poll. |
| Polling.StopsAcrossSuccess | Relativity.Export.Samples.RelConsole/SampleCollection/BaseExportService.cs:71 | In prefix + non-terminal success + rest, the stop indices are the prefix's, none at the success (it clears any failure run), and the rest's shifted past it. |
| Polling.ResetAfterSuccess | Relativity.Export.Samples.RelConsole/SampleCollection/BaseExportService.cs:71 | A poll over prefix, non-terminal success, rest has the result of a fresh poll of the rest, and the prefix's fetches plus one more. |
| Polling.ThreeFailuresThenCompleted | Relativity.Export.Samples.RelConsole/SampleCollection/BaseExportService.cs:73-79 | Three failures followed by a Completed response return that response after four fetches. |
| Polling.FourFailuresError | Relativity.Export.Samples.RelConsole/SampleCollection/BaseExportService.cs:80-84 | Four failures in a row throw after four fetches. |
| BulkRun.Join | Relativity.Export.Samples.RelConsole/SampleCollection/Job_StartAllRunnableJobs.cs:63 | Nothing joined gives the empty text. Otherwise the length is the sum of the parts plus one separator between each two of them. |
| BulkRun.JoinStartsWithFirst | Relativity.Export.Samples.RelConsole/SampleCollection/Job_StartAllRunnableJobs.cs:63 | A joined text begins with its first element. |
| BulkRun.JoinEmpty | Relativity.Export.Samples.RelConsole/SampleCollection/Job_StartAllRunnableJobs.cs:63 | With a non-empty separator, the join is empty if and only if there is nothing to join or a single empty string. |
| BulkRun.SummaryLines | Relativity.Export.Samples.RelConsole/SampleCollection/Job_StartAllRunnableJobs.cs:255-264 | Nine lines, each starting with its label in order. The first carries the job ID, and the lines labelled "Records with warnings" and "Records with errors" both show the records-with-errors counter. |
| BulkRun.Summary | Relativity.Export.Samples.RelConsole/SampleCollection/Job_StartAllRunnableJobs.cs:255-264 | The summary text begins with "Export job ID: " followed by the job ID. |
| BulkRun.SummaryIgnoresWarnings | Relativity.Export.Samples.RelConsole/SampleCollection/Job_StartAllRunnableJobs.cs:262 | The records-with-warnings counter never affects the summary: responses that differ only in it have the same summary. |
| BulkRun.RunJob | Relativity.Export.Samples.RelConsole/SampleCollection/Job_StartAllRunnableJobs.cs:234-269 | A refused start (non-empty error message) gives "<code> message" with a null status, and no poll. Otherwise the job is polled with frequency 4000. It finishes exactly when the poll returns a response, and then its status is that response's terminal status. It faults exactly when the poll throws. A finished job's message is never empty. |
| BulkRun.RunnableJobs | Relativity.Export.Samples.RelConsole/SampleCollection/Job_StartAllRunnableJobs.cs:48 | Keeps exactly the jobs with status New, each as often as in the list. |
| BulkRun.RunnableJobsAppend | Relativity.Export.Samples.RelConsole/SampleCollection/Job_StartAllRunnableJobs.cs:48 | The filter keeps list order: it distributes over concatenation. |
| BulkRun.RunAll | Relativity.Export.Samples.RelConsole/SampleCollection/Job_StartAllRunnableJobs.cs:217-225 | One run per runnable job, each that job's `RunJob`. |
| BulkRun.FinishedResultsAll | Relativity.Export.Samples.RelConsole/SampleCollection/Job_StartAllRunnableJobs.cs:223-231 | When every job finished, there is exactly one collected result per job, in order. |
| BulkRun.AnyEnded | Relativity.Export.Samples.RelConsole/SampleCollection/Job_StartAllRunnableJobs.cs:229 | True if and only if some job's run faulted (or ran out of input). |
| BulkRun.BulkOf | Relativity.Export.Samples.RelConsole/SampleCollection/Job_StartAllRunnableJobs.cs:227-231 | Waiting for all the jobs yields a result list if and only if every job finished. |
| BulkRun.StartMultipleJobs | Relativity.Export.Samples.RelConsole/SampleCollection/Job_StartAllRunnableJobs.cs:209-232 | The loop's outcome is `BulkOf(RunAll(...))`. When it returns a list, the list holds one result per runnable job, each that job's `RunJob` result. |
| BulkRun.CreateJob | Relativity.Export.Samples.RelConsole/SampleCollection/Job_StartAllRunnableJobs.cs:184-206 | Always logs "Creating job". A success logs "Job created successfully". A failure reports "<code> message", then one "key - value" line per validation error in order, and never claims success. |
| BulkRun.CreateJobs | Relativity.Export.Samples.RelConsole/SampleCollection/Job_StartAllRunnableJobs.cs:26-43 | The loop makes exactly 4 creations (`JobsToCreate`), and the console lines are those of each creation in turn, the i-th taking the i-th validation answer. |
| BulkRun.OneCreationCounts | Relativity.Export.Samples.RelConsole/SampleCollection/Job_StartAllRunnableJobs.cs:184-206 | A creation logs "Creating job" exactly once. It logs "Job created successfully" once if the service accepted it and never otherwise. |
| BulkRun.CreateLogsCounts | Relativity.Export.Samples.RelConsole/SampleCollection/Job_StartAllRunnableJobs.cs:26-43 | Over all creations, "Creating job" appears once per attempt, and "Job created successfully" once per accepted creation. |
| BulkRun.StartAllRunnableJobs | Relativity.Export.Samples.RelConsole/SampleCollection/Job_StartAllRunnableJobs.cs:14-67 | Makes 4 creation attempts with their console lines when creation is on, and none otherwise. It runs exactly the New jobs. When every job finished, the final message is the results' messages joined by a blank line, and the statuses are the results' statuses in the same order. |
| BulkRun.MessagesOf | Relativity.Export.Samples.RelConsole/SampleCollection/Job_StartAllRunnableJobs.cs:63 | The message of every result, position by position. |
| BulkRun.StatusesOf | Relativity.Export.Samples.RelConsole/SampleCollection/Job_StartAllRunnableJobs.cs:64 | The status of every result, position by position. |
| BulkRun.BulkResults | Relativity.Export.Samples.RelConsole/SampleCollection/Job_StartAllRunnableJobs.cs:241-268 | In a finished bulk run every job has a result. A status is null if and only if that job's start was refused, and every other status is terminal. |
| BulkRun.NullsAreRefusals | Relativity.Export.Samples.RelConsole/SampleCollection/Job_StartAllRunnableJobs.cs:245 | The number of null statuses equals the number of refused starts. |
| BulkRun.TerminalOrNull | Relativity.Export.Samples.RelConsole/Helpers/Logger.cs:121-124 | When each status is null or terminal, the four breakdown buckets plus the nulls add up to the list length. |
| BulkRun.BulkBreakdownCounts | Relativity.Export.Samples.RelConsole/SampleCollection/Job_StartAllRunnableJobs.cs:61-66 | In the bulk report, drawn as `Logger.PrintBulkExportJobResult` draws it, the four breakdown buckets count exactly the jobs whose start was accepted. |
| BulkRun.DefaultHeadlineIffNoJobs | Relativity.Export.Samples.RelConsole/Helpers/Logger.cs:126 | The final message is empty if and only if no job was runnable, so the report shows "Bulk export completed" only then. Otherwise it shows the joined messages. |
| BulkRun.StatusesOfAppend | Relativity.Export.Samples.RelConsole/SampleCollection/Job_StartAllRunnableJobs.cs:64 | Collecting statuses distributes over concatenation. |
| BulkRun.StatusesOfReordered | Relativity.Export.Samples.RelConsole/SampleCollection/Job_StartAllRunnableJobs.cs:214 | Reordering the results reorders their statuses: equal multisets in, equal multisets out. |
| BulkRun.BreakdownIgnoresArrivalOrder | Relativity.Export.Samples.RelConsole/SampleCollection/Job_StartAllRunnableJobs.cs:214-231 | The results come from an unordered bag, and whatever order they arrive in, the bulk report's breakdown chart is the same. |
| Logger.LevelToMessage | Relativity.Export.Samples.RelConsole/Helpers/Logger.cs:136-142 | The tag is "[bold]", then the level's short name in angle brackets wrapped in the level's colour tag, then "[/]"; removing that colour tag gives back exactly the bracketed name. |
| Logger.InformationTagText | Relativity.Export.Samples.RelConsole/Helpers/Logger.cs:138 | The Information tag is "[bold][aquamarine1]<INFO>[/][/]". |
| Logger.WarningTagText | Relativity.Export.Samples.RelConsole/Helpers/Logger.cs:139 | The Warning tag is "[bold][orange1]<WARN>[/][/]". |
| Logger.ErrorTagText | Relativity.Export.Samples.RelConsole/Helpers/Logger.cs:140 | The Error tag is "[bold][red]<ERR>[/][/]". |
| Logger.LevelTagsDistinct | Relativity.Export.Samples.RelConsole/Helpers/Logger.cs:136-142 | Each level has its own tag. |
| Logger.Colour | Relativity.Export.Samples.RelConsole/Helpers/Logger.cs:53 | The marked-up text is "[" + colour + "]", then the text unchanged, then "[/]", and its length is that of the three parts. |
| Logger.ColourRoundTrip | Relativity.Export.Samples.RelConsole/Helpers/Logger.cs:53 | Removing a colour tag that was added gives back the text. |
| Logger.LogWarning | Relativity.Export.Samples.RelConsole/Helpers/Logger.cs:51-54 | Warning level, and the message is the original wrapped in orange. |
| Logger.LogInformation | Relativity.Export.Samples.RelConsole/Helpers/Logger.cs:56-59 | Information level, and the message is unchanged. |
| Logger.LogError | Relativity.Export.Samples.RelConsole/Helpers/Logger.cs:61-64 | Error level, and the message is the original wrapped in red. |
| Logger.Log | Relativity.Export.Samples.RelConsole/Helpers/Logger.cs:66-81 | The row shows the level's tag, the given clock reading and the message unchanged. |
| Logger.PrintSampleData | Relativity.Export.Samples.RelConsole/Helpers/Logger.cs:83-104 | The panel is headed "Sample Data" in aquamarine. It has one row per entry in order, with the key wrapped in orange and the value unchanged. |
| Logger.Sub32 | Relativity.Export.Samples.RelConsole/Helpers/Logger.cs:108 | 32-bit subtraction is congruent to the true difference modulo 2^32. |
| Logger.Processed | Relativity.Export.Samples.RelConsole/Helpers/Logger.cs:108 | It is 0 when any of the three counters is null. Otherwise it is processed minus errors minus warnings, modulo 2^32. |
| Logger.ProcessedOfConsistentCounts | Relativity.Export.Samples.RelConsole/Helpers/Logger.cs:108 | With non-negative counters whose errors plus warnings do not exceed processed, nothing wraps and the result is the plain non-negative difference. |
| Logger.CountOrZero | Relativity.Export.Samples.RelConsole/Helpers/Logger.cs:115-116 | A null counter is drawn as 0, any other as its value. |
| Logger.RecordsChart | Relativity.Export.Samples.RelConsole/Helpers/Logger.cs:112-116 | Three items, in order: processed, records with errors, and records with warnings; missing counters are drawn as 0. |
| Logger.PrintExportJobResult | Relativity.Export.Samples.RelConsole/Helpers/Logger.cs:106-117 | An information row holding the final message and the records chart of the job. |
| Logger.CountStatus | Relativity.Export.Samples.RelConsole/Helpers/Logger.cs:121-124 | The count equals the number of occurrences of that status in the list. |
| Logger.BulkBreakdown | Relativity.Export.Samples.RelConsole/Helpers/Logger.cs:121-124 | Each bucket holds the number of occurrences of its status. |
| Logger.TotalStep | Relativity.Export.Samples.RelConsole/Helpers/Logger.cs:121-124 | The first status adds one to the buckets exactly when it is a non-null terminal status. |
| Logger.BreakdownTotal | Relativity.Export.Samples.RelConsole/Helpers/Logger.cs:121-124 | The buckets never add up to more than the list length. They equal it if and only if every entry is a non-null terminal status. |
| Logger.BreakdownPermutation | Relativity.Export.Samples.RelConsole/Helpers/Logger.cs:121-124 | The breakdown does not depend on the order of the statuses. |
| Logger.BulkHeadline | Relativity.Export.Samples.RelConsole/Helpers/Logger.cs:126 | An empty final message becomes "Bulk export completed". Any other message is kept. |
| Logger.BreakdownChart | Relativity.Export.Samples.RelConsole/Helpers/Logger.cs:128-133 | Four items in order: Success, Completed With Errors, Failed, Cancelled. |
| Logger.PrintBulkExportJobResult | Relativity.Export.Samples.RelConsole/Helpers/Logger.cs:119-134 | An information row holding the headline, and the chart of the status breakdown. |
| LoggerExtensions.PrintAliases | Relativity.Export.Samples.RelConsole/Helpers/LoggerExtensions.cs:8-11 | The dictionary is drawn unchanged under the title "Field Aliases". |
| LoggerExtensions.PrintSampleData | Relativity.Export.Samples.RelConsole/Helpers/LoggerExtensions.cs:13-16 | The dictionary is drawn unchanged under the title "Sample Data". |
| LoggerExtensions.PrintExportJobResult | Relativity.Export.Samples.RelConsole/Helpers/LoggerExtensions.cs:18-30 | An information row with no time stamp, and the records chart of the job. |
| LoggerExtensions.PrintBulkExportJobResult | Relativity.Export.Samples.RelConsole/Helpers/LoggerExtensions.cs:32-48 | An information row with no time stamp holding the headline, and the chart of the status breakdown. |
| LoggerExtensions.SameAsLogger | Relativity.Export.Samples.RelConsole/Helpers/LoggerExtensions.cs:18-48 | The extension summaries draw the same charts and messages as the logger's own. They differ only in hiding the time stamp. |

## Behaviour of the C# code worth noting

- The cancellation token is cancelled only when the loop ends normally
  (`BaseExportService.cs:94`). When the fourth consecutive failure is
  rethrown, no cancellation happens (`Polling.PollFromToken`).
- A poll that rethrows inside the bulk run makes `Task.WhenAll` throw
  (`Job_StartAllRunnableJobs.cs:229`). The whole bulk run then ends without
  a result list; no failure is recorded for that one job alone
  (`BulkRun.BulkOf`, outcome `SomeFaulted`).
- The per-job summary labels its seventh line "Records with warnings" but
  prints the records-with-errors counter there
  (`Job_StartAllRunnableJobs.cs:262`). `BulkRun.SummaryLines` prints the
  same, and `BulkRun.SummaryIgnoresWarnings` states that the
  records-with-warnings counter never reaches the summary.

## Left out

- Real time: the delays (`frequency`, 3000 ms) are recorded as events and
  not waited out. The stopwatch readings and the background task that prints
  them are left out. The `updateStatus` parameter only controls that task,
  so it is not modelled either.
- Remote calls: `GetAsync`, `StartAsync`, `ListAsync` and `CreateAsync` are
  oracle inputs. An exception thrown by `StartAsync`, `ListAsync` or
  `CreateAsync` is not modelled. Neither is a response whose `Value` is
  null, which the real loop dereferences in its condition.
- Polling.WaitForJobToBeCompleted: the fetch oracle is finite, so the model
  adds the result `OutOfInput`, which the real loop never has. It stands for
  "still polling when the input ends".
- Polling.WaitForJobToBeCompleted, Polling.PollFrom, Polling.Poll: the
  `frequency` wait is taken to complete for every value. In C#,
  `Task.Delay(-1)` waits forever, and a frequency below -1 makes
  `Task.Delay` throw inside the `try`. That exception would count as a
  failed fetch. The model covers neither case, so the lemmas about the poll
  (`Polling.PollStops`, `Polling.PollExit`, `Polling.ResetAfterSuccess` and
  the rest) describe negative frequencies with the wait completing too.
  Every caller in the samples passes 1000 or 4000.
- Concurrency: the four creations and the per-job runs execute
  concurrently in the original. The model runs them one after another in
  list order. The order-independence that the unordered bag calls for is
  stated by `BulkRun.BreakdownIgnoresArrivalOrder`.
- BulkRun.CreateJobs: of each creation, only the count and the lines it logs
  from "Creating job" on are modelled (`Job_StartAllRunnableJobs.cs:184-206`).
  The job settings built for it (`Job_StartAllRunnableJobs.cs:69-182`) are
  left out. So is the "Sample Data" panel each creation draws first
  (`Job_StartAllRunnableJobs.cs:85-94`). That panel shows the workspace,
  view, folder and artifact type IDs, a freshly generated job GUID, the
  application name and the correlation ID.
- Console output: the "Runnable jobs:" listing, the status-bar updates, and
  the lines printed around the start and the poll of a job are left out.
  The same holds for the layout of tables, panels and charts, which are
  represented by the values drawn.
- `Logger.PrintJobJson` is left out. It is JSON serialisation of the job
  settings behind a command-line switch.
- The throwing arm of `LevelToMessage` (`Logger.cs:141`) is taken when a
  C# `LogLevel` holds a value outside its named members. The model's
  `LogLevel` is a closed datatype, so it cannot express such a value, and
  the model has no case for that arm. Every call in the program passes a
  named level.
- `LoggerExtensions.cs:10`, `:15`, `:22` and `:39` call `PrintDictionaryData`
  and a `LogInformation` overload that takes `hideTimeStamp`. `Logger.cs`
  defines neither of them, so their bodies are not available here. The
  model takes the dictionary printer as a request for a titled panel, and a
  hidden time stamp as an absent time.
- `OutputHelper`'s console helpers `PrintLog`, `PrintError` and
  `PrintWarning` are not part of this model. Their calls appear as events
  or console lines carrying the same text.
- BulkRun.BulkBreakdownCounts, BulkRun.DefaultHeadlineIffNoJobs,
  BulkRun.BreakdownIgnoresArrivalOrder: the bulk run reports through
  `OutputHelper.PrintBulkExportJobResult(finalMessage, jobsStatuses)`
  (`Job_StartAllRunnableJobs.cs:66`). `OutputHelper.cs` has no such method,
  so that report's body is not available here, and
  `BulkRun.StartAllRunnableJobs` stops at the final message and the status
  list. These three lemmas assume the report draws the headline and the
  status breakdown of `Logger.PrintBulkExportJobResult`
  (`Logger.cs:119-134`), and apply that to the bulk results.
- `ExportStatus` is defined in the service SDK, outside the repository.
  It is modelled with the values New, Scheduled,
  Running, Completed, CompletedWithErrors, Failed and Cancelled. The four
  terminal ones are those named by the loop condition.
