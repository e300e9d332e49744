/**
  The BeOrg inbox format (`BeOrgParser`, src/main.py:94-168). A task is two
  lines:

      * TODO <content>            (or `* DONE <content>`)
      [YYYY-MM-DD Dow HH:MM]
*/
module BeOrg {
  import opened Wrappers
  import opened Text
  import opened Calendar
  import opened Tasks
  import opened Base

  const TodoMarker: string := "* TODO "
  const DoneMarker: string := "* DONE "

  /** A level-one TODO or DONE heading. */
  predicate IsHeader(line: string) {
    StartsWith(line, TodoMarker) || StartsWith(line, DoneMarker)
  }

  /** `re.match(r'\[(\d{4}-\d{2}-\d{2} \w{3} \d{2}:\d{2})\]', line)`: the
      captured text when the line starts with a bracketed stamp. The match is
      anchored at the start only, so anything may follow the `]`. */
  function BracketedStamp(line: string): (r: Option<string>)
    ensures r.Some? ==> StampShape(r.value) && StartsWith(line, "[" + r.value + "]")
    ensures forall s :: StampShape(s) && StartsWith(line, "[" + s + "]") ==> r == Some(s)
  {
    assert forall s :: StampShape(s) && StartsWith(line, "[" + s + "]") ==>
      |line| >= 22 && line[0] == '[' && line[1..21] == s && line[21] == ']' by {
      forall s | StampShape(s) && StartsWith(line, "[" + s + "]")
        ensures |line| >= 22 && line[0] == '[' && line[1..21] == s && line[21] == ']'
      {
        Bracketed(line, "[", s, "]");
      }
    }
    if |line| >= 22 && line[0] == '[' && StampShape(line[1..21]) && line[21] == ']' then
      assert line[..22] == "[" + line[1..21] + "]";
      Some(line[1..21])
    else
      None
  }

  /** The heading `_format_tasks` writes for a task. */
  function HeaderLine(t: Task): string {
    (if t.done then DoneMarker else TodoMarker) + t.content
  }

  /** The timestamp line `_format_tasks` writes. */
  function StampLine(d: DateTime): string {
    "[" + FormatStamp(d) + "]"
  }

  /** `_parse_task_from_line` with `_parse_beorg_timestamp_and_create_task`:
      how the stripped line at the scan position is read, given the stripped
      next line if there is one. */
  function Entry(line: string, next: Option<string>): Step
  {
    if !IsHeader(line) then Ignored
    else if next.None? then Rejected(BeOrgAtEnd(line))
    else
      match BracketedStamp(next.value)
      case None => Rejected(BeOrgMalformed(line))
      case Some(text) =>
        match ParseStamp(text)
        case None => Rejected(BeOrgBadStamp(text))
        case Some(d) => Found(Task(line[7..], d, StartsWith(line, DoneMarker)))
  }

  /** Only headings count. A heading yields a task exactly when the next
      line starts with a bracketed stamp that `strptime` accepts; the task
      is the one whose heading is that line, stamped with what `strptime`
      read. */
  lemma EntryOutcome(line: string, next: Option<string>)
    ensures Entry(line, next).Ignored? <==> !IsHeader(line)
    ensures Entry(line, next).Found? <==>
      IsHeader(line) && next.Some? && BracketedStamp(next.value).Some?
      && ParseStamp(BracketedStamp(next.value).value).Some?
    ensures Entry(line, next).Found? ==>
      line == HeaderLine(Entry(line, next).task)
      && Some(Entry(line, next).task.stamp) == ParseStamp(BracketedStamp(next.value).value)
  {
    if Entry(line, next).Found? {
      var t := Entry(line, next).task;
      assert line == line[..7] + line[7..];
      assert line[..7] == (if t.done then DoneMarker else TodoMarker);
    }
  }

  /** The timestamp line written for a task. */
  function TaskStampLine(t: Task): string {
    StampLine(t.stamp)
  }

  /** `_format_tasks`: each task as its heading and its timestamp line. */
  function Format(ts: seq<Task>): seq<string> {
    Render(ts, HeaderLine, TaskStampLine)
  }

  /** `BeOrgParser._parse_tasks`. */
  function Parse(text: string): Parsed {
    ParseText(text, Entry)
  }

  /** The text `write_file` writes for these tasks. */
  function Write(tasks: seq<Task>): string {
    WriteText(Format(SortDescending(tasks)))
  }

  // ----- the scan, line by line --------------------------------------------

  /** A line that is not a heading is passed over without a warning. */
  lemma SkipsNonHeader(ls: seq<string>)
    requires |ls| >= 1 && !IsHeader(Strip(ls[0]))
    ensures Scan(ls, Entry) == Scan(ls[1..], Entry)
  {
    assert StepAt(ls, 0, Entry) == Ignored;
    ScanIgnores(ls, Entry);
  }

  /** A heading followed by a line that starts with a valid stamp is read
      as the text after the 7-character marker, that stamp, and DONE as
      completion. */
  lemma EntryReads(line: string, next: Option<string>, d: DateTime)
    requires IsHeader(line) && next.Some? && BracketedStamp(next.value).Some?
    requires ParseStamp(BracketedStamp(next.value).value) == Some(d)
    ensures Entry(line, next) == Found(Task(line[7..], d, StartsWith(line, DoneMarker)))
  {
  }

  /** The three ways a heading fails, each with its own warning: no next
      line, a next line without a bracketed stamp, or a stamp `strptime`
      refuses. */
  lemma EntryWarns(line: string, next: Option<string>)
    requires IsHeader(line)
    ensures next.None? ==> Entry(line, next) == Rejected(BeOrgAtEnd(line))
    ensures next.Some? && BracketedStamp(next.value).None? ==>
      Entry(line, next) == Rejected(BeOrgMalformed(line))
    ensures
      && next.Some? && BracketedStamp(next.value).Some?
      && ParseStamp(BracketedStamp(next.value).value).None?
      ==>
      Entry(line, next) == Rejected(BeOrgBadStamp(BracketedStamp(next.value).value))
  {
  }

  /** A heading followed by a line that starts with a valid bracketed stamp
      yields the task ahead of the tasks after it; both lines are
      consumed. */
  lemma ReadsEntry(ls: seq<string>, d: DateTime)
    requires |ls| >= 2 && IsHeader(Strip(ls[0]))
    requires BracketedStamp(Strip(ls[1])).Some? && ParseStamp(BracketedStamp(Strip(ls[1])).value) == Some(d)
    ensures var h := Strip(ls[0]);
            var rest := Scan(ls[2..], Entry);
            Scan(ls, Entry)
              == Parsed([Task(h[7..], d, StartsWith(h, DoneMarker))] + rest.tasks, rest.warnings)
  {
    var h, n := Strip(ls[0]), NextLine(ls, 0);
    assert n == Some(Strip(ls[1]));
    EntryReads(h, n, d);
    ScanFinds(ls, Entry, Task(h[7..], d, StartsWith(h, DoneMarker)));
  }

  /** A heading on the last line yields no task and exactly one warning. */
  lemma RejectsAtEnd(ls: seq<string>)
    requires |ls| == 1 && IsHeader(Strip(ls[0]))
    ensures Scan(ls, Entry) == Parsed([], [BeOrgAtEnd(Strip(ls[0]))])
  {
    var h, n := Strip(ls[0]), NextLine(ls, 0);
    assert n == None;
    EntryWarns(h, n);
    ScanRejects(ls, Entry, BeOrgAtEnd(h));
    assert ls[1..] == [];
  }

  /** A heading whose next line does not start with a bracketed stamp
      yields no task and exactly one warning, and the scan moves on by one
      line only, so the line after the heading is looked at again. */
  lemma RejectsMalformed(ls: seq<string>)
    requires |ls| >= 2 && IsHeader(Strip(ls[0])) && BracketedStamp(Strip(ls[1])).None?
    ensures var rest := Scan(ls[1..], Entry);
            Scan(ls, Entry) == Parsed(rest.tasks, [BeOrgMalformed(Strip(ls[0]))] + rest.warnings)
  {
    var h, n := Strip(ls[0]), NextLine(ls, 0);
    assert n == Some(Strip(ls[1]));
    EntryWarns(h, n);
    ScanRejects(ls, Entry, BeOrgMalformed(h));
  }

  /** A heading whose next line starts with a bracketed stamp that
      `strptime` refuses yields no task and exactly one warning quoting the
      stamp, and the scan moves on by one line only. */
  lemma RejectsBadStamp(ls: seq<string>)
    requires |ls| >= 2 && IsHeader(Strip(ls[0])) && BracketedStamp(Strip(ls[1])).Some?
    requires ParseStamp(BracketedStamp(Strip(ls[1])).value).None?
    ensures var rest := Scan(ls[1..], Entry);
            Scan(ls, Entry)
              == Parsed(rest.tasks, [BeOrgBadStamp(BracketedStamp(Strip(ls[1])).value)] + rest.warnings)
  {
    var h, n := Strip(ls[0]), NextLine(ls, 0);
    assert n == Some(Strip(ls[1]));
    EntryWarns(h, n);
    ScanRejects(ls, Entry, BeOrgBadStamp(BracketedStamp(Strip(ls[1])).value));
  }

  /** A task found in clean lines has storable text: the text after the
      marker is not empty, holds no line break and does not end in
      whitespace. */
  lemma FoundStorable(line: string, next: Option<string>)
    requires Clean(line) && (next.Some? ==> Clean(next.value))
    ensures Entry(line, next).Found? ==> Storable(Entry(line, next).task.content)
  {
    if Entry(line, next).Found? {
      var t := Entry(line, next).task;
      EntryOutcome(line, next);
      var c := t.content;
      assert line == (if t.done then DoneMarker else TodoMarker) + c;
      assert c != [];
      assert c[|c| - 1] == line[|line| - 1];
      forall k | 0 <= k < |c| ensures c[k] != '\n' {
        assert c[k] == line[k + 7];
      }
    }
  }

  /** Every task read from a BeOrg file has storable text, so it survives
      being written back. */
  lemma ParsedStorable(text: string)
    ensures forall t :: t in Parse(text).tasks ==> Storable(t.content)
  {
    forall line, next: Option<string> | Clean(line) && (next.Some? ==> Clean(next.value))
      ensures Entry(line, next).Found? ==> Storable(Entry(line, next).task.content)
    {
      FoundStorable(line, next);
    }
    ParsedTasksHave(text, Entry, (t: Task) => Storable(t.content));
  }

  // ----- round trip ---------------------------------------------------------

  /** The heading written for a task is a heading, reads back its text and
      its completion, and survives being written and read back when the
      text is storable. */
  lemma HeaderLineReads(t: Task)
    ensures IsHeader(HeaderLine(t))
    ensures HeaderLine(t)[7..] == t.content
    ensures StartsWith(HeaderLine(t), DoneMarker) == t.done
    ensures Storable(t.content) ==> Solid(HeaderLine(t))
  {
    var h := HeaderLine(t);
    assert h[..7] == (if t.done then DoneMarker else TodoMarker);
    if Storable(t.content) {
      assert h[|h| - 1] == t.content[|t.content| - 1];
      forall k | 0 <= k < |h| ensures h[k] != '\n' {
        if k >= 7 {
          assert h[k] == t.content[k - 7];
        }
      }
    }
  }

  /** The timestamp line written for a datetime survives being written and
      read back, and its bracketed stamp is what `strftime` wrote. */
  lemma StampLineReads(d: DateTime)
    ensures Solid(StampLine(d))
    ensures BracketedStamp(StampLine(d)) == Some(FormatStamp(d))
  {
    var s := StampLine(d);
    StampRoundTrip(d);
    StampHasNoNewline(FormatStamp(d));
    assert s[1..21] == FormatStamp(d);
    assert s[0] == '[' && s[|s| - 1] == ']';
  }

  /** The two lines written for a task with storable text are read back
      as that task. */
  lemma EntryReadsFormatted(t: Task)
    requires Storable(t.content)
    ensures ReadsBack(t, HeaderLine, TaskStampLine, Entry)
  {
    HeaderLineReads(t);
    StampLineReads(t.stamp);
    StampRoundTrip(t.stamp);
    EntryReads(HeaderLine(t), Some(StampLine(t.stamp)), t.stamp);
  }

  /** A blank line is not a heading. */
  lemma BlankIgnored()
    ensures Entry("", None) == Ignored
  {
  }

  /** Reading the text written for a list of tasks gives that list back,
      with no warnings, when every task's text is storable. */
  lemma RoundTrip(ts: seq<Task>)
    requires forall i :: 0 <= i < |ts| ==> Storable(ts[i].content)
    ensures Parse(WriteText(Format(ts))) == Parsed(ts, [])
  {
    forall i | 0 <= i < |ts| ensures ReadsBack(ts[i], HeaderLine, TaskStampLine, Entry) {
      EntryReadsFormatted(ts[i]);
    }
    BlankIgnored();
    RoundTripRendered(ts, HeaderLine, TaskStampLine, Entry);
  }

  /** What `write_file` writes reads back as the same tasks, latest first. */
  lemma WriteThenParse(ts: seq<Task>)
    requires forall i :: 0 <= i < |ts| ==> Storable(ts[i].content)
    ensures Parse(Write(ts)) == Parsed(SortDescending(ts), [])
    ensures Descending(Parse(Write(ts)).tasks) && multiset(Parse(Write(ts)).tasks) == multiset(ts)
  {
    forall i | 0 <= i < |ts| ensures ReadsBack(ts[i], HeaderLine, TaskStampLine, Entry) {
      EntryReadsFormatted(ts[i]);
    }
    BlankIgnored();
    WriteThenRead(ts, HeaderLine, TaskStampLine, Entry);
  }
}
