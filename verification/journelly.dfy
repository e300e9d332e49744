/**
  The Journelly journal format (`JournellyParser`, src/main.py:171-238). A
  task is two lines:

      * [YYYY-MM-DD Dow HH:MM] @ -
      - [ ] <content>             (or `- [X] <content>` when done)
*/
module Journelly {
  import opened Wrappers
  import opened Text
  import opened Calendar
  import opened Tasks
  import opened Base

  const OpenMarker: string := "- [ ] "
  const DoneMarker: string := "- [X] "

  /** `re.match(r'\* \[(\d{4}-\d{2}-\d{2} \w{3} \d{2}:\d{2})\] @ -', line)`:
      the captured stamp text when the line starts with a timestamp
      heading. The match is anchored at the start only, so anything may
      follow the `-`. */
  function HeaderStamp(line: string): (r: Option<string>)
    ensures r.Some? ==> StampShape(r.value) && StartsWith(line, "* [" + r.value + "] @ -")
    ensures forall s :: StampShape(s) && StartsWith(line, "* [" + s + "] @ -") ==> r == Some(s)
  {
    assert forall s :: StampShape(s) && StartsWith(line, "* [" + s + "] @ -") ==>
      |line| >= 28 && line[..3] == "* [" && line[3..23] == s && line[23..28] == "] @ -" by {
      forall s | StampShape(s) && StartsWith(line, "* [" + s + "] @ -")
        ensures |line| >= 28 && line[..3] == "* [" && line[3..23] == s && line[23..28] == "] @ -"
      {
        Bracketed(line, "* [", s, "] @ -");
      }
    }
    if |line| >= 28 && line[..3] == "* [" && StampShape(line[3..23]) && line[23..28] == "] @ -" then
      assert line[..28] == "* [" + line[3..23] + "] @ -";
      Some(line[3..23])
    else
      None
  }

  /** A line that carries a task: it opens with an open or a done checkbox. */
  predicate IsTaskLine(line: string) {
    StartsWith(line, OpenMarker) || StartsWith(line, DoneMarker)
  }

  /** The heading `_format_tasks` writes for a timestamp. */
  function HeaderLine(d: DateTime): string {
    "* [" + FormatStamp(d) + "] @ -"
  }

  /** The heading written for a task. */
  function TaskHeaderLine(t: Task): string {
    HeaderLine(t.stamp)
  }

  /** The checkbox line `_format_tasks` writes for a task. */
  function TaskLine(t: Task): string {
    (if t.done then DoneMarker else OpenMarker) + t.content
  }

  /** `_parse_journelly_task_from_line`: how the stripped line at the scan
      position is read, given the stripped next line if there is one. The
      timestamp is checked before the next line is looked at, so a bad
      timestamp is reported even on the last line. */
  function Entry(line: string, next: Option<string>): Step
  {
    match HeaderStamp(line)
    case None => Ignored
    case Some(text) =>
      match ParseStamp(text)
      case None => Rejected(JournellyBadStamp(text))
      case Some(d) =>
        if next.None? then Rejected(JournellyAtEnd(line))
        else if IsTaskLine(next.value) then
          Found(Task(next.value[6..], d, StartsWith(next.value, DoneMarker)))
        else Rejected(JournellyNoTaskLine(line))
  }

  /** Only timestamp headings count. A heading yields a task exactly when
      its timestamp is valid and the next line is a checkbox line; the task
      is the one whose checkbox line that is, stamped with what `strptime`
      read. */
  lemma EntryOutcome(line: string, next: Option<string>)
    ensures Entry(line, next).Ignored? <==> HeaderStamp(line).None?
    ensures Entry(line, next).Found? <==>
      HeaderStamp(line).Some? && ParseStamp(HeaderStamp(line).value).Some?
      && next.Some? && IsTaskLine(next.value)
    ensures Entry(line, next).Found? ==>
      next.value == TaskLine(Entry(line, next).task)
      && Some(Entry(line, next).task.stamp) == ParseStamp(HeaderStamp(line).value)
  {
    if Entry(line, next).Found? {
      var t := Entry(line, next).task;
      var n := next.value;
      assert n == n[..6] + n[6..];
      assert n[..6] == (if t.done then DoneMarker else OpenMarker);
    }
  }

  /** `_format_tasks`: each task as its timestamp heading and its checkbox
      line. */
  function Format(ts: seq<Task>): seq<string> {
    Render(ts, TaskHeaderLine, TaskLine)
  }

  /** `JournellyParser._parse_tasks`. */
  function Parse(text: string): Parsed {
    ParseText(text, Entry)
  }

  /** The text `write_file` writes for these tasks. */
  function Write(tasks: seq<Task>): string {
    WriteText(Format(SortDescending(tasks)))
  }

  // ----- the scan, line by line --------------------------------------------

  /** A line that is not a timestamp heading is passed over without a
      warning. */
  lemma SkipsNonHeader(ls: seq<string>)
    requires |ls| >= 1 && HeaderStamp(Strip(ls[0])).None?
    ensures Scan(ls, Entry) == Scan(ls[1..], Entry)
  {
    assert StepAt(ls, 0, Entry) == Ignored;
    ScanIgnores(ls, Entry);
  }

  /** A heading with a valid timestamp followed by a checkbox line is read
      as the text after the 6-character checkbox, that timestamp, and `[X]`
      as completion. */
  lemma EntryReads(line: string, next: Option<string>, d: DateTime)
    requires HeaderStamp(line).Some? && ParseStamp(HeaderStamp(line).value) == Some(d)
    requires next.Some? && IsTaskLine(next.value)
    ensures Entry(line, next) == Found(Task(next.value[6..], d, StartsWith(next.value, DoneMarker)))
  {
  }

  /** The three ways a heading fails, each with its own warning: a
      timestamp `strptime` refuses (whatever follows), no next line, or a
      next line that is not a checkbox line. */
  lemma EntryWarns(line: string, next: Option<string>)
    requires HeaderStamp(line).Some?
    ensures ParseStamp(HeaderStamp(line).value).None? ==>
      Entry(line, next) == Rejected(JournellyBadStamp(HeaderStamp(line).value))
    ensures ParseStamp(HeaderStamp(line).value).Some? && next.None? ==>
      Entry(line, next) == Rejected(JournellyAtEnd(line))
    ensures ParseStamp(HeaderStamp(line).value).Some? && next.Some? && !IsTaskLine(next.value) ==>
      Entry(line, next) == Rejected(JournellyNoTaskLine(line))
  {
  }

  /** A heading with a valid timestamp followed by a checkbox line yields
      the task ahead of the tasks after it; both lines are consumed. */
  lemma ReadsEntry(ls: seq<string>, d: DateTime)
    requires |ls| >= 2 && HeaderStamp(Strip(ls[0])).Some?
    requires ParseStamp(HeaderStamp(Strip(ls[0])).value) == Some(d)
    requires IsTaskLine(Strip(ls[1]))
    ensures var n := Strip(ls[1]);
            var rest := Scan(ls[2..], Entry);
            Scan(ls, Entry)
              == Parsed([Task(n[6..], d, StartsWith(n, DoneMarker))] + rest.tasks, rest.warnings)
  {
    var h, n := Strip(ls[0]), NextLine(ls, 0);
    assert n == Some(Strip(ls[1]));
    EntryReads(h, n, d);
    ScanFinds(ls, Entry, Task(n.value[6..], d, StartsWith(n.value, DoneMarker)));
  }

  /** A heading whose timestamp `strptime` refuses yields no task and one
      warning quoting the timestamp, whatever follows it and even on the
      last line; the scan moves on by one line only. */
  lemma RejectsBadStamp(ls: seq<string>)
    requires |ls| >= 1 && HeaderStamp(Strip(ls[0])).Some?
    requires ParseStamp(HeaderStamp(Strip(ls[0])).value).None?
    ensures var rest := Scan(ls[1..], Entry);
            Scan(ls, Entry)
              == Parsed(rest.tasks, [JournellyBadStamp(HeaderStamp(Strip(ls[0])).value)] + rest.warnings)
  {
    var h, n := Strip(ls[0]), NextLine(ls, 0);
    EntryWarns(h, n);
    ScanRejects(ls, Entry, JournellyBadStamp(HeaderStamp(h).value));
  }

  /** A heading with a valid timestamp on the last line yields no task and
      one warning. */
  lemma RejectsAtEnd(ls: seq<string>)
    requires |ls| == 1 && HeaderStamp(Strip(ls[0])).Some?
    requires ParseStamp(HeaderStamp(Strip(ls[0])).value).Some?
    ensures Scan(ls, Entry) == Parsed([], [JournellyAtEnd(Strip(ls[0]))])
  {
    var h, n := Strip(ls[0]), NextLine(ls, 0);
    assert n == None;
    EntryWarns(h, n);
    ScanRejects(ls, Entry, JournellyAtEnd(h));
    assert ls[1..] == [];
  }

  /** A heading with a valid timestamp whose next line is not a checkbox
      line yields no task and one warning, and the scan moves on by one
      line only, so the next line is looked at again. */
  lemma RejectsNoTaskLine(ls: seq<string>)
    requires |ls| >= 2 && HeaderStamp(Strip(ls[0])).Some?
    requires ParseStamp(HeaderStamp(Strip(ls[0])).value).Some?
    requires !IsTaskLine(Strip(ls[1]))
    ensures var rest := Scan(ls[1..], Entry);
            Scan(ls, Entry)
              == Parsed(rest.tasks, [JournellyNoTaskLine(Strip(ls[0]))] + rest.warnings)
  {
    var h, n := Strip(ls[0]), NextLine(ls, 0);
    assert n == Some(Strip(ls[1]));
    EntryWarns(h, n);
    ScanRejects(ls, Entry, JournellyNoTaskLine(h));
  }

  /** A task found in clean lines has storable text: the text after the
      checkbox is not empty, holds no line break and does not end in
      whitespace. */
  lemma FoundStorable(line: string, next: Option<string>)
    requires Clean(line) && (next.Some? ==> Clean(next.value))
    ensures Entry(line, next).Found? ==> Storable(Entry(line, next).task.content)
  {
    if Entry(line, next).Found? {
      var t := Entry(line, next).task;
      EntryOutcome(line, next);
      TaskLineReads(t);
      CheckboxTextStorable(next.value);
    }
  }

  /** The text after the checkbox of a clean checkbox line is storable:
      the line cannot end in the checkbox's own trailing space. */
  lemma CheckboxTextStorable(n: string)
    requires Clean(n) && IsTaskLine(n)
    ensures Storable(n[6..])
  {
    assert n[5] == ' ';
    var c := n[6..];
    assert c[|c| - 1] == n[|n| - 1];
    forall k | 0 <= k < |c| ensures c[k] != '\n' {
      assert c[k] == n[k + 6];
    }
  }

  /** Every task read from a Journelly file has storable text, so it
      survives being written back. */
  lemma ParsedStorable(text: string)
    ensures forall t :: t in Parse(text).tasks ==> Storable(t.content)
  {
    forall line, next: Option<string> | Clean(line) && (next.Some? ==> Clean(next.value))
      ensures Entry(line, next).Found? ==> Storable(Entry(line, next).task.content)
    {
      FoundStorable(line, next);
    }
    ParsedTasksHave(text, Entry, (t: Task) => Storable(t.content));
  }

  // ----- round trip ---------------------------------------------------------

  /** The heading written for a datetime survives being written and read
      back, and its stamp is what `strftime` wrote. */
  lemma HeaderLineReads(d: DateTime)
    ensures Solid(HeaderLine(d))
    ensures HeaderStamp(HeaderLine(d)) == Some(FormatStamp(d))
  {
    var h := HeaderLine(d);
    StampRoundTrip(d);
    StampHasNoNewline(FormatStamp(d));
    assert h[3..23] == FormatStamp(d);
    assert h[..3] == "* [" && h[23..28] == "] @ -";
    assert h[0] == '*' && h[|h| - 1] == '-';
  }

  /** The checkbox line written for a task is a checkbox line, reads back
      its text and its completion, and survives being written and read
      back when the text is storable. */
  lemma TaskLineReads(t: Task)
    ensures IsTaskLine(TaskLine(t))
    ensures TaskLine(t)[6..] == t.content
    ensures StartsWith(TaskLine(t), DoneMarker) == t.done
    ensures Storable(t.content) ==> Solid(TaskLine(t))
  {
    var n := TaskLine(t);
    assert n[..6] == (if t.done then DoneMarker else OpenMarker);
    if Storable(t.content) {
      assert n[|n| - 1] == t.content[|t.content| - 1];
      forall k | 0 <= k < |n| ensures n[k] != '\n' {
        if k >= 6 {
          assert n[k] == t.content[k - 6];
        }
      }
    }
  }

  /** The two lines written for a task with storable text are read back
      as that task. */
  lemma EntryReadsFormatted(t: Task)
    requires Storable(t.content)
    ensures ReadsBack(t, TaskHeaderLine, TaskLine, Entry)
  {
    HeaderLineReads(t.stamp);
    TaskLineReads(t);
    StampRoundTrip(t.stamp);
    EntryReads(HeaderLine(t.stamp), Some(TaskLine(t)), t.stamp);
  }

  /** A blank line is not a timestamp heading. */
  lemma BlankIgnored()
    ensures Entry("", None) == Ignored
  {
  }

  /** Reading the text written for a list of tasks gives that list back,
      with no warnings, when every task's text is storable. */
  lemma RoundTrip(ts: seq<Task>)
    requires forall i :: 0 <= i < |ts| ==> Storable(ts[i].content)
    ensures Parse(WriteText(Format(ts))) == Parsed(ts, [])
  {
    forall i | 0 <= i < |ts| ensures ReadsBack(ts[i], TaskHeaderLine, TaskLine, Entry) {
      EntryReadsFormatted(ts[i]);
    }
    BlankIgnored();
    RoundTripRendered(ts, TaskHeaderLine, TaskLine, Entry);
  }

  /** What `write_file` writes reads back as the same tasks, latest first. */
  lemma WriteThenParse(ts: seq<Task>)
    requires forall i :: 0 <= i < |ts| ==> Storable(ts[i].content)
    ensures Parse(Write(ts)) == Parsed(SortDescending(ts), [])
    ensures Descending(Parse(Write(ts)).tasks) && multiset(Parse(Write(ts)).tasks) == multiset(ts)
  {
    forall i | 0 <= i < |ts| ensures ReadsBack(ts[i], TaskHeaderLine, TaskLine, Entry) {
      EntryReadsFormatted(ts[i]);
    }
    BlankIgnored();
    WriteThenRead(ts, TaskHeaderLine, TaskLine, Entry);
  }
}
