/**
  The records that flow through the pipeline: `Task` (src/main.py:20-24),
  the warnings a parser collects instead of failing, and the outcome of
  looking at one line.
*/
module Tasks {
  import opened Calendar

  /** A task: its text (the identity key when syncing), its timestamp and
      whether it is done. */
  datatype Task = Task(content: string, stamp: DateTime, done: bool)

  /** One constructor per place the parsers append to `self.warnings`; each
      carries the text the message quotes. */
  datatype Warning =
    | BeOrgBadStamp(stampText: string)
    | BeOrgMalformed(header: string)
    | BeOrgAtEnd(header: string)
    | JournellyBadStamp(stampText: string)
    | JournellyNoTaskLine(header: string)
    | JournellyAtEnd(header: string)
  {
    /** The message as the parsers word it. */
    function Message(): string {
      match this
      case BeOrgBadStamp(s) =>
        "Skipping entry in BeOrg file due to invalid timestamp: '" + s + "'"
      case BeOrgMalformed(h) =>
        "Skipping malformed BeOrg task (timestamp missing or wrong format): '" + h + "'"
      case BeOrgAtEnd(h) =>
        "Skipping BeOrg task at end of file (timestamp missing): '" + h + "'"
      case JournellyBadStamp(s) =>
        "Skipping entry in Journelly file due to invalid timestamp: '" + s + "'"
      case JournellyNoTaskLine(h) =>
        "Skipping malformed Journelly entry (task line missing after timestamp): '" + h + "'"
      case JournellyAtEnd(h) =>
        "Skipping malformed Journelly entry (task line missing at end of file): '" + h + "'"
    }
  }

  /** What a parser makes of the line at the scan position: not an entry
      (skipped silently), a task (the next line consumed too), or a
      malformed entry (skipped with a warning). */
  datatype Step = Ignored | Found(task: Task) | Rejected(warning: Warning)

  /** A parser's result: the tasks in text order and the warnings it
      collected. */
  datatype Parsed = Parsed(tasks: seq<Task>, warnings: seq<Warning>)
}
