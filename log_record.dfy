/** The record one access-log line is parsed into. */
module LogRecord {

  /** A parsed line: the time the request was made (a time_t, in seconds; its
      width is not modelled), the text between the first pair of double quotes
      and the HTTP status code. */
  datatype LogEntry = LogEntry(timestamp: int, request: string, status: int)
}
