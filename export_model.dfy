/** Values shared by the polling loop, the bulk run and the reports: the export
    job snapshot returned by the export service, its status, and the 32-bit
    nullable counters it carries. */
module ExportModel {

  datatype Option<+T> = None | Some(value: T)

  /** A C# `int`: the counters of a job snapshot are 32-bit signed values. */
  newtype int32 = x: int | -0x8000_0000 <= x < 0x8000_0000

  /** Wraps an unbounded integer into 32 bits, as unchecked C# arithmetic does. */
  function Wrap32(x: int): (r: int32)
    ensures (r as int - x) % 0x1_0000_0000 == 0
    ensures -0x8000_0000 <= x < 0x8000_0000 ==> r as int == x
  {
    ((x + 0x8000_0000) % 0x1_0000_0000 - 0x8000_0000) as int32
  }

  /** The status of an export job, as reported by the export service. */
  datatype ExportStatus =
    | New
    | Scheduled
    | Running
    | Completed
    | CompletedWithErrors
    | Failed
    | Cancelled

  /** The statuses that end polling. */
  function IsTerminal(s: ExportStatus): (terminal: bool)
    ensures terminal <==> !(s == New || s == Scheduled || s == Running)
  {
    s == Completed || s == CompletedWithErrors || s == Failed || s == Cancelled
  }

  /** A point-in-time view of one export job. A null string of the service is
      the empty string here: every use below treats the two alike. */
  datatype ExportJob = ExportJob(
    id: string,
    applicationName: string,
    correlationId: string,
    jobStatus: ExportStatus,
    errorCode: string,
    errorMessage: string,
    jobErrorsCount: Option<int32>,
    totalRecords: Option<int32>,
    processedRecords: Option<int32>,
    recordsWithErrors: Option<int32>,
    recordsWithWarnings: Option<int32>,
    outputUrl: string)

  /** The envelope of a status fetch: the job identifier and the snapshot. */
  datatype JobResponse = JobResponse(exportJobId: string, value: ExportJob)

  /** The name of a status, as the enum prints it. */
  function StatusName(s: ExportStatus): string
  {
    match s
    case New => "New"
    case Scheduled => "Scheduled"
    case Running => "Running"
    case Completed => "Completed"
    case CompletedWithErrors => "CompletedWithErrors"
    case Failed => "Failed"
    case Cancelled => "Cancelled"
  }

  function DigitChar(d: nat): char
    requires d < 10
  {
    "0123456789"[d]
  }

  /** The decimal text of a natural number. */
  function NatText(n: nat): (t: string)
    ensures |t| >= 1
  {
    if n < 10 then [DigitChar(n)] else NatText(n / 10) + [DigitChar(n % 10)]
  }

  /** The decimal text of a counter, as string interpolation prints it; a
      missing counter prints as nothing. */
  function CountText(c: Option<int32>): string
  {
    match c
    case None => ""
    case Some(v) => if v < 0 then "-" + NatText(-(v as int)) else NatText(v as int)
  }
}
