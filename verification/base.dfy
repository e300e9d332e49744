/**
  What the two formats share (`BaseParser`, src/main.py:37-91): the
  line-by-line scan of `_parse_tasks`, and the text `write_file` assembles —
  tasks stably sorted latest first, formatted, joined with newlines and
  closed by one newline when there is anything to write.
*/
module Base {
  import opened Wrappers
  import opened Text
  import opened Calendar
  import opened Tasks

  /** How a format reads the (stripped) line at the scan position, given
      the stripped line after it when there is one. */
  type Recognizer = (string, Option<string>) -> Step

  /** `lines[i + 1].strip()` when `i + 1 < len(lines)`. */
  function NextLine(ls: seq<string>, i: int): Option<string>
    requires 0 <= i
  {
    if i + 1 < |ls| then Some(Strip(ls[i + 1])) else None
  }

  /** The outcome of recognising the entry that starts at line `i`. */
  function StepAt(ls: seq<string>, i: int, entry: Recognizer): Step
    requires 0 <= i < |ls|
  {
    entry(Strip(ls[i]), NextLine(ls, i))
  }

  lemma StepAtSuffix(ls: seq<string>, k: nat, entry: Recognizer)
    requires k <= |ls|
    ensures forall i :: 0 <= i < |ls| - k ==> StepAt(ls[k..], i, entry) == StepAt(ls, i + k, entry)
  {
    forall i | 0 <= i < |ls| - k
      ensures StepAt(ls[k..], i, entry) == StepAt(ls, i + k, entry)
    {
      assert ls[k..][i] == ls[i + k];
      assert NextLine(ls[k..], i) == NextLine(ls, i + k);
    }
  }

  /** The `while i < len(lines)` loop of `_parse_tasks`: a task advances
      the scan by two lines, anything else by one; every line yields at
      most one task or warning. */
  function Scan(ls: seq<string>, entry: Recognizer): (r: Parsed)
    ensures |r.tasks| + |r.warnings| <= |ls|
    decreases |ls|
  {
    if ls == [] then Parsed([], [])
    else
      match StepAt(ls, 0, entry)
      case Ignored => Scan(ls[1..], entry)
      case Rejected(w) =>
        var rest := Scan(ls[1..], entry);
        Parsed(rest.tasks, [w] + rest.warnings)
      case Found(t) =>
        var rest := Scan(ls[Skip(ls)..], entry);
        Parsed([t] + rest.tasks, rest.warnings)
  }

  /** How far a found entry moves the scan: past the heading and the line
      after it, or to the end. */
  function Skip(ls: seq<string>): (k: nat)
    requires ls != []
    ensures 1 <= k <= |ls| && k <= 2
  {
    if |ls| >= 2 then 2 else |ls|
  }

  /** One step of the scan: an entry that is passed over. */
  lemma ScanIgnores(ls: seq<string>, entry: Recognizer)
    requires ls != [] && StepAt(ls, 0, entry).Ignored?
    ensures Scan(ls, entry) == Scan(ls[1..], entry)
  {
  }

  /** One step of the scan: a rejected entry warns once and the scan moves
      on by a single line. */
  lemma ScanRejects(ls: seq<string>, entry: Recognizer, w: Warning)
    requires ls != [] && StepAt(ls, 0, entry) == Rejected(w)
    ensures Scan(ls, entry) == Parsed(Scan(ls[1..], entry).tasks, [w] + Scan(ls[1..], entry).warnings)
  {
  }

  /** One step of the scan: a found task comes first, and the scan moves on
      past its two lines. */
  lemma ScanFinds(ls: seq<string>, entry: Recognizer, t: Task)
    requires |ls| >= 2 && StepAt(ls, 0, entry) == Found(t)
    ensures Scan(ls, entry) == Parsed([t] + Scan(ls[2..], entry).tasks, Scan(ls[2..], entry).warnings)
  {
  }

  /** Every task and every warning the scan reports comes from the entry
      recognised at some line. */
  lemma {:induction false} ScanSound(ls: seq<string>, entry: Recognizer)
    ensures forall t :: t in Scan(ls, entry).tasks ==>
      exists i :: 0 <= i < |ls| && StepAt(ls, i, entry) == Found(t)
    ensures forall w :: w in Scan(ls, entry).warnings ==>
      exists i :: 0 <= i < |ls| && StepAt(ls, i, entry) == Rejected(w)
    decreases |ls|
  {
    if ls != [] {
      var k := if StepAt(ls, 0, entry).Found? then Skip(ls) else 1;
      ScanSound(ls[k..], entry);
      StepAtSuffix(ls, k, entry);
    }
  }

  /** A line as the scan sees it: stripped, so a single line with no
      whitespace at either end. */
  predicate Clean(line: string) {
    '\n' !in line && (line == [] || (!IsSpace(line[0]) && !IsSpace(line[|line| - 1])))
  }

  /** A property every task has that a recognizer finds in clean lines
      holds for every task read from any text. */
  lemma ParsedTasksHave(text: string, entry: Recognizer, keep: Task -> bool)
    requires forall line, next: Option<string> ::
      Clean(line) && (next.Some? ==> Clean(next.value)) && entry(line, next).Found? ==>
        keep(entry(line, next).task)
    ensures forall t :: t in ParseText(text, entry).tasks ==> keep(t)
  {
    var ls := Split(Strip(text));
    ScanSound(ls, entry);
    forall t | t in ParseText(text, entry).tasks ensures keep(t) {
      var i :| 0 <= i < |ls| && StepAt(ls, i, entry) == Found(t);
      StripSingleLine(ls[i]);
      if i + 1 < |ls| {
        StripSingleLine(ls[i + 1]);
      }
      assert entry(Strip(ls[i]), NextLine(ls, i)) == Found(t);
    }
  }

  /** `_parse_tasks(content)`: strip the whole text, split it at newlines,
      scan the lines. */
  function ParseText(text: string, entry: Recognizer): Parsed {
    Scan(Split(Strip(text)), entry)
  }

  /** Task text that survives being written and read back in either
      format: not empty, on one line, and not ending in whitespace (which
      `strip` would cut off). */
  predicate Storable(content: string) {
    content != [] && '\n' !in content && !IsSpace(content[|content| - 1])
  }

  // ----- write_file -------------------------------------------------------

  /** Latest first: no task is followed by a later one. */
  predicate Descending(ts: seq<Task>) {
    forall i, j :: 0 <= i < j < |ts| ==> NotAfter(ts[j].stamp, ts[i].stamp)
  }

  /** The tasks stamped `d`, in their order in `ts`. */
  function WithStamp(ts: seq<Task>, d: DateTime): seq<Task> {
    if ts == [] then []
    else if ts[0].stamp == d then [ts[0]] + WithStamp(ts[1..], d)
    else WithStamp(ts[1..], d)
  }

  /** Each task is no later than the one before it. */
  predicate AdjacentDescending(ts: seq<Task>) {
    forall i :: 0 < i < |ts| ==> NotAfter(ts[i].stamp, ts[i - 1].stamp)
  }

  lemma {:induction false} AdjacentIsDescending(ts: seq<Task>)
    requires AdjacentDescending(ts)
    ensures Descending(ts)
  {
    if |ts| > 1 {
      AdjacentIsDescending(ts[1..]);
      forall j | 0 < j < |ts|
        ensures NotAfter(ts[j].stamp, ts[0].stamp)
      {
        assert j == 1 || NotAfter(ts[j].stamp, ts[1].stamp);
      }
    }
  }

  /** Places `x` in front of the first task that is not later than it. */
  function Insert(x: Task, ts: seq<Task>): (r: seq<Task>)
    requires AdjacentDescending(ts)
    ensures AdjacentDescending(r)
    ensures |r| == |ts| + 1 && (r[0] == x || (ts != [] && r[0] == ts[0]))
    ensures multiset(r) == multiset(ts) + multiset{x}
  {
    if ts == [] || !Before(x.stamp, ts[0].stamp) then
      var r := [x] + ts;
      assert r[1..] == ts;
      r
    else
      var rest := Insert(x, ts[1..]);
      var r := [ts[0]] + rest;
      assert r[1..] == rest;
      assert ts == [ts[0]] + ts[1..];
      r
  }

  /** Inserting goes past every task with the same timestamp, so among the
      tasks stamped like `x`, `x` comes first. */
  lemma {:induction false} InsertKeepsTies(x: Task, ts: seq<Task>, d: DateTime)
    requires AdjacentDescending(ts)
    ensures WithStamp(Insert(x, ts), d) == if x.stamp == d then [x] + WithStamp(ts, d) else WithStamp(ts, d)
  {
    var r := Insert(x, ts);
    if ts == [] || !Before(x.stamp, ts[0].stamp) {
      assert r == [x] + ts && r[1..] == ts;
    } else {
      var rest := Insert(x, ts[1..]);
      InsertKeepsTies(x, ts[1..], d);
      assert r == [ts[0]] + rest && r[1..] == rest;
      if ts[0].stamp == d {
        BeforeIsStrictTotalOrder(x.stamp, ts[0].stamp, d);
        assert x.stamp != d;
      }
    }
  }

  /** `sorted(tasks, key=lambda t: t.timestamp, reverse=True)`: the same
      tasks, latest first. */
  function SortDescending(ts: seq<Task>): (r: seq<Task>)
    ensures Descending(r)
    ensures multiset(r) == multiset(ts)
  {
    var r := InsertionSort(ts);
    AdjacentIsDescending(r);
    r
  }

  /** Insertion sort, latest first, each task inserted ahead of the tasks
      it ties with. */
  function InsertionSort(ts: seq<Task>): (r: seq<Task>)
    ensures AdjacentDescending(r)
    ensures multiset(r) == multiset(ts)
  {
    if ts == [] then []
    else
      assert ts == [ts[0]] + ts[1..];
      Insert(ts[0], InsertionSort(ts[1..]))
  }

  /** Python's sort is stable, `reverse` included: tasks with equal
      timestamps keep their original order. */
  lemma {:induction false} SortIsStable(ts: seq<Task>, d: DateTime)
    ensures WithStamp(SortDescending(ts), d) == WithStamp(ts, d)
  {
    InsertionSortIsStable(ts, d);
  }

  lemma {:induction false} InsertionSortIsStable(ts: seq<Task>, d: DateTime)
    ensures WithStamp(InsertionSort(ts), d) == WithStamp(ts, d)
  {
    if ts != [] {
      InsertionSortIsStable(ts[1..], d);
      InsertKeepsTies(ts[0], InsertionSort(ts[1..]), d);
    }
  }

  /** `'\n'.join(lines)` followed by `'\n'` when `lines` is not empty.
      The text is empty exactly when there are no lines; otherwise it ends
      in a newline, and the text before that newline splits back into the
      lines when none of them holds a newline. */
  function WriteText(lines: seq<string>): (r: string)
    ensures r == [] <==> lines == []
    ensures lines != [] ==> r[|r| - 1] == '\n'
    ensures lines != [] && (forall k :: 0 <= k < |lines| ==> '\n' !in lines[k]) ==>
      Split(r[..|r| - 1]) == lines
  {
    if lines == [] then ""
    else
      var r := Join(lines) + "\n";
      assert r[..|r| - 1] == Join(lines);
      if forall k :: 0 <= k < |lines| ==> '\n' !in lines[k] then
        SplitJoin(lines);
        r
      else r
  }

  /** Lines that begin and end with something other than whitespace are
      read back by the scanner exactly as they were written. */
  lemma ReadBackWritten(lines: seq<string>, entry: Recognizer)
    requires |lines| >= 1
    requires forall k :: 0 <= k < |lines| ==> '\n' !in lines[k]
    requires lines[0] != [] && !IsSpace(lines[0][0])
    requires lines[|lines| - 1] != [] && !IsSpace(lines[|lines| - 1][|lines[|lines| - 1]| - 1])
    ensures ParseText(WriteText(lines), entry) == Scan(lines, entry)
  {
    JoinFirst(lines);
    JoinLast(lines);
    StripTrailingNewline(Join(lines));
    SplitJoin(lines);
  }

  // ----- entries of two lines ----------------------------------------------

  /** `_format_tasks` of either format: every task written as a first and a
      second line, in the order given. */
  function Render(ts: seq<Task>, first: Task -> string, second: Task -> string): (r: seq<string>)
    ensures |r| == 2 * |ts|
  {
    if ts == [] then [] else [first(ts[0]), second(ts[0])] + Render(ts[1..], first, second)
  }

  /** Task `i` is written as lines `2i` and `2i + 1`. */
  lemma {:induction false} RenderLayout(ts: seq<Task>, first: Task -> string, second: Task -> string, i: int)
    requires 0 <= i < |ts|
    ensures Render(ts, first, second)[2 * i] == first(ts[i])
    ensures Render(ts, first, second)[2 * i + 1] == second(ts[i])
  {
    var r := Render(ts, first, second);
    var rest := Render(ts[1..], first, second);
    assert r == [first(ts[0]), second(ts[0])] + rest;
    if i > 0 {
      var j := 2 * (i - 1);
      RenderLayout(ts[1..], first, second, i - 1);
      assert r[2 * i] == rest[j] && r[2 * i + 1] == rest[j + 1];
      assert ts[1..][i - 1] == ts[i];
    }
  }

  /** A line that survives being written and read back unchanged: one
      line, neither empty nor starting or ending in whitespace. */
  predicate Solid(line: string) {
    line != [] && '\n' !in line && !IsSpace(line[0]) && !IsSpace(line[|line| - 1])
  }

  /** The two lines written for `t` are solid and read back as `t`. */
  predicate ReadsBack(t: Task, first: Task -> string, second: Task -> string, entry: Recognizer) {
    Solid(first(t)) && Solid(second(t)) && entry(first(t), Some(second(t))) == Found(t)
  }

  /** Scanning rendered lines gives the tasks back, in order, with no
      warnings, when each task's lines read back as that task. */
  lemma {:induction false} ScanRendered(ts: seq<Task>, first: Task -> string, second: Task -> string,
                                        entry: Recognizer)
    requires forall i :: 0 <= i < |ts| ==> ReadsBack(ts[i], first, second, entry)
    ensures Scan(Render(ts, first, second), entry) == Parsed(ts, [])
  {
    if ts != [] {
      var t := ts[0];
      var ls := Render(ts, first, second);
      var rest := Render(ts[1..], first, second);
      assert ReadsBack(t, first, second, entry);
      assert ls == [first(t), second(t)] + rest;
      StripKeeps(first(t));
      StripKeeps(second(t));
      assert ls[0] == first(t) && ls[1] == second(t);
      assert NextLine(ls, 0) == Some(second(t));
      assert StepAt(ls, 0, entry) == Found(t);
      ScanFinds(ls, entry, t);
      assert ls[2..] == rest;
      assert forall i :: 0 <= i < |ts| - 1 ==> ts[1..][i] == ts[i + 1];
      ScanRendered(ts[1..], first, second, entry);
      assert [t] + ts[1..] == ts;
    }
  }

  /** Every rendered line is solid when every task reads back. */
  lemma RenderedIsSolid(ts: seq<Task>, first: Task -> string, second: Task -> string, entry: Recognizer)
    requires forall i :: 0 <= i < |ts| ==> ReadsBack(ts[i], first, second, entry)
    ensures forall k :: 0 <= k < |Render(ts, first, second)| ==> Solid(Render(ts, first, second)[k])
  {
    var r := Render(ts, first, second);
    forall k | 0 <= k < |r| ensures Solid(r[k]) {
      var i := k / 2;
      RenderLayout(ts, first, second, i);
      assert ReadsBack(ts[i], first, second, entry);
      assert k == 2 * i || k == 2 * i + 1;
    }
  }

  /** Reading back the text written for a list of tasks gives the list
      back with no warnings, when every task's lines read back as that task
      and an empty line is passed over. */
  lemma RoundTripRendered(ts: seq<Task>, first: Task -> string, second: Task -> string, entry: Recognizer)
    requires entry("", None) == Ignored
    requires forall i :: 0 <= i < |ts| ==> ReadsBack(ts[i], first, second, entry)
    ensures ParseText(WriteText(Render(ts, first, second)), entry) == Parsed(ts, [])
  {
    if ts == [] {
      assert Strip("") == "";
      assert Split("") == [""];
      assert NextLine([""], 0) == None;
      assert StepAt([""], 0, entry) == Ignored;
      ScanIgnores([""], entry);
    } else {
      var ls := Render(ts, first, second);
      RenderedIsSolid(ts, first, second, entry);
      assert Solid(ls[0]) && Solid(ls[|ls| - 1]);
      ReadBackWritten(ls, entry);
      ScanRendered(ts, first, second, entry);
    }
  }

  /** `write_file` followed by `_parse_tasks`: the tasks come back sorted
      latest first, with no warnings. */
  lemma WriteThenRead(ts: seq<Task>, first: Task -> string, second: Task -> string, entry: Recognizer)
    requires entry("", None) == Ignored
    requires forall i :: 0 <= i < |ts| ==> ReadsBack(ts[i], first, second, entry)
    ensures ParseText(WriteText(Render(SortDescending(ts), first, second)), entry)
      == Parsed(SortDescending(ts), [])
  {
    var sorted := SortDescending(ts);
    forall i | 0 <= i < |sorted| ensures ReadsBack(sorted[i], first, second, entry) {
      assert sorted[i] in multiset(ts);
      var j :| 0 <= j < |ts| && ts[j] == sorted[i];
    }
    RoundTripRendered(sorted, first, second, entry);
  }
}
