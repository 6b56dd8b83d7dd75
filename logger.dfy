/** The console logger: log levels and their tags, the markup each kind of
    log line gets, the sample-data grid, and the two result summaries (the
    per-job records chart and the bulk status breakdown). Rendering is
    represented by the values that would be drawn: rows, grid cells and chart
    items. The clock reading of a log row is a parameter. */
module Logger {
  import opened ExportModel

  datatype LogLevel = Information | Warning | Error

  datatype SampleLog = SampleLog(logLevel: LogLevel, message: string)

  /** One row of the log table: level tag, time (absent when hidden), message. */
  datatype LogRow = LogRow(levelTag: string, time: Option<string>, message: string)

  /** The colour of a level's tag. */
  function LevelColour(logLevel: LogLevel): string
  {
    match logLevel
    case Information => "aquamarine1"
    case Warning => "orange1"
    case Error => "red"
  }

  /** The short name of a level, as its tag shows it. */
  function LevelLabel(logLevel: LogLevel): string
  {
    match logLevel
    case Information => "INFO"
    case Warning => "WARN"
    case Error => "ERR"
  }

  /** The markup tag shown in front of a log line of the given level: the
      level's short name in angle brackets, in the level's colour, in bold. */
  function LevelToMessage(logLevel: LogLevel): (tag: string)
    ensures |tag| >= 9 && tag[..6] == "[bold]" && tag[|tag| - 3..] == "[/]"
    ensures Uncolour(LevelColour(logLevel), tag[6..|tag| - 3]) == Some("<" + LevelLabel(logLevel) + ">")
  {
    var inner := Colour(LevelColour(logLevel), "<" + LevelLabel(logLevel) + ">");
    ColourRoundTrip(LevelColour(logLevel), "<" + LevelLabel(logLevel) + ">");
    var tag := "[bold]" + inner + "[/]";
    assert tag[..6] == "[bold]" && tag[6..|tag| - 3] == inner && tag[|tag| - 3..] == "[/]";
    tag
  }

  /** The tags as they appear in the console markup, one level at a time. */
  lemma InformationTagText()
    ensures LevelToMessage(Information) == "[bold][aquamarine1]<INFO>[/][/]"
  {
  }

  lemma WarningTagText()
    ensures LevelToMessage(Warning) == "[bold][orange1]<WARN>[/][/]"
  {
  }

  lemma ErrorTagText()
    ensures LevelToMessage(Error) == "[bold][red]<ERR>[/][/]"
  {
  }

  /** Each level has its own tag. */
  lemma LevelTagsDistinct(a: LogLevel, b: LogLevel)
    ensures LevelToMessage(a) == LevelToMessage(b) <==> a == b
  {
  }

  /** Wraps `text` in a colour markup tag. */
  function Colour(colour: string, text: string): (r: string)
    ensures |r| == |colour| + |text| + 5
    ensures r[..|colour| + 2] == "[" + colour + "]"
    ensures r[|colour| + 2..|r| - 3] == text
    ensures r[|r| - 3..] == "[/]"
  {
    var open := "[" + colour + "]";
    var r := open + text + "[/]";
    assert r[..|open|] == open;
    assert r[|open|..|r| - 3] == text;
    r
  }

  /** Removes a colour markup tag, if `text` is wrapped in exactly that tag. */
  function Uncolour(colour: string, text: string): (r: Option<string>)
    ensures r.Some? ==> Colour(colour, r.value) == text
  {
    var open := "[" + colour + "]";
    if |text| >= |open| + 3 && text[..|open|] == open && text[|text| - 3..] == "[/]"
    then
      assert text == text[..|open|] + text[|open|..|text| - 3] + text[|text| - 3..];
      Some(text[|open|..|text| - 3])
    else None
  }

  lemma ColourRoundTrip(colour: string, text: string)
    ensures Uncolour(colour, Colour(colour, text)) == Some(text)
  {
    var open := "[" + colour + "]";
    var w := Colour(colour, text);
    assert w == open + text + "[/]";
    assert w[..|open|] == open;
    assert w[|w| - 3..] == "[/]";
    assert w[|open|..|w| - 3] == text;
  }

  function LogWarning(message: string): (log: SampleLog)
    ensures log.logLevel == Warning
    ensures Uncolour("orange1", log.message) == Some(message)
  {
    ColourRoundTrip("orange1", message);
    SampleLog(Warning, Colour("orange1", message))
  }

  function LogInformation(message: string): (log: SampleLog)
    ensures log.logLevel == Information && log.message == message
  {
    SampleLog(Information, message)
  }

  function LogError(message: string): (log: SampleLog)
    ensures log.logLevel == Error
    ensures Uncolour("red", log.message) == Some(message)
  {
    ColourRoundTrip("red", message);
    SampleLog(Error, Colour("red", message))
  }

  /** The row a log line becomes; `time` is the clock reading, or None when
      the caller hides the time stamp. */
  function Log(log: SampleLog, time: Option<string>): (row: LogRow)
    ensures LevelToMessage(log.logLevel) == row.levelTag
    ensures row.message == log.message && row.time == time
  {
    LogRow(LevelToMessage(log.logLevel), time, log.message)
  }

  // ---------------------------------------------------------------------------
  // Sample data grid.

  datatype GridRow = GridRow(key: string, value: string)

  datatype Panel = Panel(header: string, rows: seq<GridRow>)

  /** Builds the sample-data panel row by row, in the dictionary's order. */
  method PrintSampleData(data: seq<(string, string)>) returns (panel: Panel)
    ensures panel.header == Colour("aquamarine1", "Sample Data")
    ensures |panel.rows| == |data|
    ensures forall k | 0 <= k < |data| ::
      Uncolour("orange1", panel.rows[k].key) == Some(data[k].0) && panel.rows[k].value == data[k].1
  {
    var rows: seq<GridRow> := [];
    for i := 0 to |data|
      invariant |rows| == i
      invariant forall k | 0 <= k < i ::
        Uncolour("orange1", rows[k].key) == Some(data[k].0) && rows[k].value == data[k].1
    {
      ColourRoundTrip("orange1", data[i].0);
      rows := rows + [GridRow(Colour("orange1", data[i].0), data[i].1)];
    }
    panel := Panel(Colour("aquamarine1", "Sample Data"), rows);
  }

  // ---------------------------------------------------------------------------
  // Charts.

  datatype ChartItem = ChartItem(name: string, value: int)

  /** The information row and the breakdown chart a result summary draws. */
  datatype ResultReport = ResultReport(info: LogRow, chart: seq<ChartItem>)

  /** `a - b` on 32-bit integers, wrapping as unchecked C# arithmetic does. */
  function Sub32(a: int32, b: int32): (r: int32)
    ensures (r as int - (a as int - b as int)) % 0x1_0000_0000 == 0
  {
    Wrap32(a as int - b as int)
  }

  /** Two differences that are multiples of 2^32 add up to one. */
  lemma CongruentSum(x: int, y: int)
    requires x % 0x1_0000_0000 == 0 && y % 0x1_0000_0000 == 0
    ensures (x + y) % 0x1_0000_0000 == 0
  {
    var q, r := x / 0x1_0000_0000, y / 0x1_0000_0000;
    assert x == 0x1_0000_0000 * q;
    assert y == 0x1_0000_0000 * r;
    assert x + y == 0x1_0000_0000 * (q + r);
  }

  /** Processed records minus records with errors minus records with warnings;
      the lifted subtraction is null when a counter is, and then 0 is used. */
  function Processed(job: ExportJob): (n: int32)
    ensures job.processedRecords.None? || job.recordsWithErrors.None? || job.recordsWithWarnings.None? ==> n == 0
    ensures job.processedRecords.Some? && job.recordsWithErrors.Some? && job.recordsWithWarnings.Some? ==>
      (n as int - (job.processedRecords.value as int - job.recordsWithErrors.value as int
                   - job.recordsWithWarnings.value as int)) % 0x1_0000_0000 == 0
  {
    match (job.processedRecords, job.recordsWithErrors, job.recordsWithWarnings)
    case (Some(p), Some(e), Some(w)) =>
      var d := Sub32(p, e);
      var n := Sub32(d, w);
      CongruentSum(n as int - (d as int - w as int), d as int - (p as int - e as int));
      n
    case _ => 0
  }

  /** With consistent counters (none negative, errors and warnings not more
      than processed) there is no wrap-around, and the result is the plain
      difference. */
  lemma ProcessedOfConsistentCounts(job: ExportJob, p: int32, e: int32, w: int32)
    requires job.processedRecords == Some(p) && job.recordsWithErrors == Some(e) && job.recordsWithWarnings == Some(w)
    requires 0 <= e && 0 <= w && e as int + w as int <= p as int
    ensures Processed(job) as int == p as int - e as int - w as int >= 0
  {
    assert Sub32(p, e) as int == p as int - e as int;
  }

  /** A missing counter is drawn as 0. */
  function CountOrZero(c: Option<int32>): (v: int)
    ensures c.None? ==> v == 0
    ensures c.Some? ==> v == c.value as int
  {
    match c
    case None => 0
    case Some(x) => x as int
  }

  /** The records chart of one job: processed, with errors, with warnings. */
  function RecordsChart(job: ExportJob): (chart: seq<ChartItem>)
    ensures |chart| == 3
    ensures chart[0] == ChartItem("Processed", Processed(job) as int)
    ensures chart[1] == ChartItem("Records with errors", CountOrZero(job.recordsWithErrors))
    ensures chart[2] == ChartItem("Records with warnings", CountOrZero(job.recordsWithWarnings))
  {
    [ChartItem("Processed", Processed(job) as int),
     ChartItem("Records with errors", CountOrZero(job.recordsWithErrors)),
     ChartItem("Records with warnings", CountOrZero(job.recordsWithWarnings))]
  }

  /** The summary of one finished job, logged with the clock reading `now`. */
  function PrintExportJobResult(finalMessage: string, exportJob: JobResponse, now: string): (report: ResultReport)
    ensures report.info == LogRow(LevelToMessage(Information), Some(now), finalMessage)
    ensures report.chart == RecordsChart(exportJob.value)
  {
    ResultReport(Log(LogInformation(finalMessage), Some(now)), RecordsChart(exportJob.value))
  }

  // ---------------------------------------------------------------------------
  // Bulk breakdown.

  /** The number of entries equal to `Some(s)`. */
  function CountStatus(statuses: seq<Option<ExportStatus>>, s: ExportStatus): (n: nat)
    ensures n == multiset(statuses)[Some(s)]
    ensures n <= |statuses|
  {
    if statuses == [] then 0
    else
      assert statuses == [statuses[0]] + statuses[1..];
      (if statuses[0] == Some(s) then 1 else 0) + CountStatus(statuses[1..], s)
  }

  datatype Breakdown = Breakdown(success: nat, completedWithErrors: nat, failed: nat, cancelled: nat)

  function BulkBreakdown(statuses: seq<Option<ExportStatus>>): (b: Breakdown)
    ensures b.success == multiset(statuses)[Some(Completed)]
    ensures b.completedWithErrors == multiset(statuses)[Some(CompletedWithErrors)]
    ensures b.failed == multiset(statuses)[Some(Failed)]
    ensures b.cancelled == multiset(statuses)[Some(Cancelled)]
  {
    Breakdown(CountStatus(statuses, Completed), CountStatus(statuses, CompletedWithErrors),
              CountStatus(statuses, Failed), CountStatus(statuses, Cancelled))
  }

  function Total(b: Breakdown): nat
  {
    b.success + b.completedWithErrors + b.failed + b.cancelled
  }

  /** The first entry adds one to the buckets exactly when it is a terminal
      status. */
  lemma TotalStep(statuses: seq<Option<ExportStatus>>)
    requires statuses != []
    ensures Total(BulkBreakdown(statuses)) == Total(BulkBreakdown(statuses[1..])) +
      if statuses[0].Some? && IsTerminal(statuses[0].value) then 1 else 0
  {
    var x, rest := statuses[0], statuses[1..];
    assert CountStatus(statuses, Completed) == (if x == Some(Completed) then 1 else 0) + CountStatus(rest, Completed);
    assert CountStatus(statuses, CompletedWithErrors) ==
      (if x == Some(CompletedWithErrors) then 1 else 0) + CountStatus(rest, CompletedWithErrors);
    assert CountStatus(statuses, Failed) == (if x == Some(Failed) then 1 else 0) + CountStatus(rest, Failed);
    assert CountStatus(statuses, Cancelled) == (if x == Some(Cancelled) then 1 else 0) + CountStatus(rest, Cancelled);
  }

  /** Each entry falls in at most one bucket, and a null or non-terminal entry
      in none: the buckets add up to the list length exactly when every entry
      is a terminal status. */
  lemma {:induction false} BreakdownTotal(statuses: seq<Option<ExportStatus>>)
    ensures Total(BulkBreakdown(statuses)) <= |statuses|
    ensures Total(BulkBreakdown(statuses)) == |statuses| <==>
      forall k | 0 <= k < |statuses| :: statuses[k].Some? && IsTerminal(statuses[k].value)
  {
    if statuses != [] {
      var rest := statuses[1..];
      BreakdownTotal(rest);
      TotalStep(statuses);
      assert forall k | 1 <= k < |statuses| :: statuses[k] == rest[k - 1];
      if Total(BulkBreakdown(statuses)) == |statuses| {
        forall k | 0 <= k < |statuses| ensures statuses[k].Some? && IsTerminal(statuses[k].value) {
          if k > 0 { assert statuses[k] == rest[k - 1]; }
        }
      }
    }
  }

  /** The order of the statuses does not matter. */
  lemma BreakdownPermutation(a: seq<Option<ExportStatus>>, b: seq<Option<ExportStatus>>)
    requires multiset(a) == multiset(b)
    ensures BulkBreakdown(a) == BulkBreakdown(b)
  {
  }

  /** The message of a bulk run, with a default for an empty one. */
  function BulkHeadline(finalMessage: string): (m: string)
    ensures finalMessage == "" ==> m == "Bulk export completed"
    ensures finalMessage != "" ==> m == finalMessage
  {
    if finalMessage == "" then "Bulk export completed" else finalMessage
  }

  function BreakdownChart(b: Breakdown): (chart: seq<ChartItem>)
    ensures |chart| == 4
    ensures chart[0] == ChartItem("Success", b.success)
    ensures chart[1] == ChartItem("Completed With Errors", b.completedWithErrors)
    ensures chart[2] == ChartItem("Failed", b.failed)
    ensures chart[3] == ChartItem("Cancelled", b.cancelled)
  {
    [ChartItem("Success", b.success), ChartItem("Completed With Errors", b.completedWithErrors),
     ChartItem("Failed", b.failed), ChartItem("Cancelled", b.cancelled)]
  }

  /** The summary of a bulk run, logged with the clock reading `now`. */
  function PrintBulkExportJobResult(finalMessage: string, exportStatuses: seq<Option<ExportStatus>>, now: string): (report: ResultReport)
    ensures report.info == LogRow(LevelToMessage(Information), Some(now), BulkHeadline(finalMessage))
    ensures report.chart == BreakdownChart(BulkBreakdown(exportStatuses))
  {
    ResultReport(Log(LogInformation(BulkHeadline(finalMessage)), Some(now)),
                 BreakdownChart(BulkBreakdown(exportStatuses)))
  }
}
