/** Extension methods on the logger. The dictionary printers delegate to the
    logger's dictionary panel with a fixed title; the two result summaries
    compute what the logger's own summaries compute, but log their message
    without a time stamp. */
module LoggerExtensions {
  import opened ExportModel
  import Logger

  /** A request to draw a dictionary under a title. The drawing itself is not
      part of this model. */
  datatype DictionaryPanel<K> = DictionaryPanel(title: string, data: seq<(K, string)>)

  function PrintDictionaryData<K>(data: seq<(K, string)>, title: string): DictionaryPanel<K>
  {
    DictionaryPanel(title, data)
  }

  function PrintAliases(data: seq<(int, string)>): (panel: DictionaryPanel<int>)
    ensures panel.title == "Field Aliases" && panel.data == data
  {
    PrintDictionaryData(data, "Field Aliases")
  }

  function PrintSampleData(data: seq<(string, string)>): (panel: DictionaryPanel<string>)
    ensures panel.title == "Sample Data" && panel.data == data
  {
    PrintDictionaryData(data, "Sample Data")
  }

  function PrintExportJobResult(finalMessage: string, exportJob: ExportJob): (report: Logger.ResultReport)
    ensures report.info == Logger.LogRow(Logger.LevelToMessage(Logger.Information), None, finalMessage)
    ensures report.chart == Logger.RecordsChart(exportJob)
  {
    Logger.ResultReport(Logger.Log(Logger.LogInformation(finalMessage), None), Logger.RecordsChart(exportJob))
  }

  function PrintBulkExportJobResult(finalMessage: string, exportStatuses: seq<Option<ExportStatus>>): (report: Logger.ResultReport)
    ensures report.info == Logger.LogRow(Logger.LevelToMessage(Logger.Information), None, Logger.BulkHeadline(finalMessage))
    ensures report.chart == Logger.BreakdownChart(Logger.BulkBreakdown(exportStatuses))
  {
    Logger.ResultReport(Logger.Log(Logger.LogInformation(Logger.BulkHeadline(finalMessage)), None),
                        Logger.BreakdownChart(Logger.BulkBreakdown(exportStatuses)))
  }

  /** The extension summaries draw the same charts and messages as the
      logger's own, and differ only in hiding the time stamp. */
  lemma SameAsLogger(finalMessage: string, response: JobResponse, statuses: seq<Option<ExportStatus>>, now: string)
    ensures PrintExportJobResult(finalMessage, response.value).chart ==
      Logger.PrintExportJobResult(finalMessage, response, now).chart
    ensures PrintExportJobResult(finalMessage, response.value).info ==
      Logger.PrintExportJobResult(finalMessage, response, now).info.(time := None)
    ensures PrintBulkExportJobResult(finalMessage, statuses).chart ==
      Logger.PrintBulkExportJobResult(finalMessage, statuses, now).chart
    ensures PrintBulkExportJobResult(finalMessage, statuses).info ==
      Logger.PrintBulkExportJobResult(finalMessage, statuses, now).info.(time := None)
  {
  }
}
