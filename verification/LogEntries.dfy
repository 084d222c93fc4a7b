/** The log record shared by the producers, the write buffer and the store. */
module LogEntries {

  datatype Option<+T> = None | Some(value: T)

  /** Timestamps are Unix milliseconds. */
  datatype LogEntry = LogEntry(
    timestamp: int,
    level: string,
    service: string,
    message: string,
    attributes: map<string, string>)

  /** Milliseconds of the zero `time.Time` (1 January of year 1, UTC). */
  const ZERO_TIME: int := -62135596800000
}
