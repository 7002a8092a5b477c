/** The records the log parser produces: the `details` mapping of one message and the
    event it is attached to. */
module Events {
  import opened Trees

  /** A value stored under a details key: an integer code (`CEID`, `AlarmID`, `RPTID`,
      `PanelCount`), a captured string (`RCMD`, `LotID`), or one element of a report
      payload, which the source stores as it finds it in the tree (a string or a nested
      list). */
  datatype Detail = Num(n: int) | Str(s: string) | Item(t: Tree)

  /** A Python dict from field name to value. Insertion order is not modelled. */
  type Details = map<string, Detail>

  /** One entry of the scanner's output: a header's timestamp, the message name taken
      from the header, and the details extracted from the message body. */
  datatype Event = Event(timestamp: string, messageName: string, details: Details)
}
