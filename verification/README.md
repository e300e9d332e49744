# beorg2journelly, modelled in Dafny

beorg2journelly keeps the TODO tasks of two Org-mode files in step. One file is
a BeOrg inbox. The other is a Journelly journal. This project models the
program's core (`src/main.py`) and proves properties of that model:

- **Tasks and timestamps.** A task is a text, a `datetime` to the minute and a
  completion flag. Timestamps are compared lexicographically and formatted
  with `strftime('%Y-%m-%d %a %H:%M')`. They are read back with `strptime`,
  which checks the calendar (Gregorian leap years) but not that the weekday
  matches the date (`calendar.dfy`).
- **The shared scan.** Both parsers strip the text, split it at `\n`, and walk
  the stripped lines. A parser skips a line silently, reads a task from it and
  the line after it, or rejects it with one warning and moves on by one line
  (`base.dfy`).
- **The two file formats.** BeOrg uses a `* TODO`/`* DONE` heading followed by
  a `[stamp]` line (`beorg.dfy`). Journelly uses a `* [stamp] @ -` heading
  followed by a `- [ ]`/`- [X]` line (`journelly.dfy`). Each format has its
  parser, its warnings (with the exact message text) and its formatter.
- **`write_file`.** It sorts by timestamp, latest first and stably, then joins
  the lines with `\n` and adds a final `\n` when there is at least one line
  (`base.dfy`).
- **`TaskSynchronizer.synchronize`.** It builds one dictionary per file keyed
  by text; the last task with a given text wins. It then decides each text's
  fate (`sync.dfy`).
- **One run.** Parse both files, synchronize, and write both back
  (`pipeline.dfy`).
- **Unit tests.** The cases of the repository's unit tests, stated as lemmas
  (`examples.dfy`).

Python `set` iteration order is not defined. `Synchronize` therefore takes the
order in which texts are visited as a parameter, `order`. `order` must list
every text exactly once (`Sync.Enumerates`). The lemmas show that this order
changes only the order of the output, never its contents.

`_parse_beorg_timestamp_and_create_task` returns `(None, 0)` on every failure
(src/main.py:157). After a bad timestamp the scan therefore moves on by one
line, and the timestamp line is looked at again as a line of its own
(`BeOrg.RejectsBadStamp`).

## Model

| member | source | states |
|---|---|---|
| Text.Strip | src/main.py:105 | `str.strip()` never returns text that starts or ends in whitespace |
| Text.StripCutsOnlySpace | src/main.py:101 | `strip` removes only whitespace, and only at the two ends: the result is a slice with whitespace on both sides |
| Text.StripTrailingNewline | src/main.py:82-84 | stripping the final `\n` of a written text gives back exactly the joined lines |
| Text.Split | src/main.py:101 | `split('\n')` gives at least one piece, no piece holds a `\n`, and joining the pieces with `\n` gives back the text |
| Text.SplitJoin | src/main.py:101 | splitting at `\n` undoes joining with `\n` for lines without a `\n` |
| Text.Pad2OfDigits | src/main.py:138-139 | a two-digit field read by `strptime` and written back by `strftime` is unchanged |
| Text.Pad4OfDigits | src/main.py:138-139 | a four-digit year read by `strptime` and written back by `strftime` is unchanged |
| Calendar.BeforeIsStrictTotalOrder | src/main.py:78 | datetime comparison, which the sort key uses, is irreflexive, transitive and total |
| Calendar.BeforeIsChronological | src/main.py:277-278 | lexicographic datetime comparison agrees with counting minutes from 0001-01-01 |
| Calendar.Min | src/main.py:277-278 | `min` of two datetimes is one of them and is no later than either |
| Calendar.WeekdayAdvances | src/main.py:166 | the weekday `%a` prints moves on by one, modulo 7, from one day to the next |
| Calendar.ParseStampCanonical | src/main.py:133-144 | `strptime` accepts a matched stamp exactly when the date is valid and the weekday token is a day name in any letter case; date and time then format back as they were written |
| Calendar.StampRoundTrip | src/main.py:166 | every datetime's `strftime` text has the pattern's shape and `strptime` reads it back as the same datetime |
| Base.Scan | src/main.py:104-111 | the scan yields at most one task or one warning per line |
| Base.ScanIgnores | src/main.py:118-119 | a line that starts no entry is passed over with no task and no warning |
| Base.ScanRejects | src/main.py:157 | a rejected entry adds one warning and the scan moves on by one line |
| Base.ScanFinds | src/main.py:143 | a found entry adds its task in front and the scan moves on by two lines |
| Base.ScanSound | src/main.py:104-113 | every task and every warning comes from a recognized entry at some line |
| Base.ParsedTasksHave | src/main.py:101-105 | a property of every task found in stripped single lines holds for every task parsed from any text |
| Base.Insert | src/main.py:78 | inserting into a latest-first list keeps it latest first and adds exactly the one task |
| Base.InsertKeepsTies | src/main.py:78 | inserting a task keeps the relative order of the tasks that share its timestamp, with the new one first |
| Base.SortDescending | src/main.py:78 | `sorted(key=timestamp, reverse=True)` is latest first and a permutation of its input |
| Base.SortIsStable | src/main.py:78 | among tasks with equal timestamps the sort keeps the input order |
| Base.WriteText | src/main.py:82-84 | the written text is empty iff there are no lines, otherwise it ends in `\n`, and splitting it before that `\n` gives back the lines |
| Base.ReadBackWritten | src/main.py:80-84 | parsing the written text scans exactly the lines that were written |
| Base.Render | src/main.py:162-168 | a formatter writes two lines per task |
| Base.RenderLayout | src/main.py:162-168 | task i's heading is line 2i and its second line is line 2i+1 |
| Base.ScanRendered | src/main.py:104-111 | when each task's two lines read back as that task, scanning the formatted lines gives the tasks back in order with no warnings |
| Base.RenderedIsSolid | src/main.py:162-168 | under the same condition, no formatted line is empty, holds a `\n`, or starts or ends in whitespace |
| Base.RoundTripRendered | src/main.py:76-84 | the written text parses back to the tasks it was written from, with no warnings |
| Base.WriteThenRead | src/main.py:76-84 | the text `write_file` writes parses back to the sorted tasks with no warnings |
| BeOrg.BracketedStamp | src/main.py:133-136 | the pattern matches exactly when the line starts with `[`, a stamp of the pattern's shape and `]`, and the captured text is that stamp |
| BeOrg.EntryOutcome | src/main.py:115-157 | a line is skipped iff it is no TODO/DONE heading; a task is read iff a heading is followed by a bracketed stamp `strptime` accepts; the task's heading is the line and its stamp is what `strptime` read |
| BeOrg.EntryReads | src/main.py:118-143 | a heading with a good stamp line gives the text after the 7-character marker, that stamp, and completion iff `* DONE ` |
| BeOrg.EntryWarns | src/main.py:131-157 | the three rejections, each with its own warning: no next line, no bracketed stamp, a stamp `strptime` refuses |
| BeOrg.SkipsNonHeader | src/main.py:118-119 | a line that is not a TODO/DONE heading is passed over silently |
| BeOrg.ReadsEntry | src/main.py:104-143 | a good entry puts its task ahead of the rest and consumes both lines |
| BeOrg.RejectsAtEnd | src/main.py:152-157 | a heading on the last line gives no task and exactly the at-end warning |
| BeOrg.RejectsMalformed | src/main.py:148-151 | a heading whose next line has no bracketed stamp gives one warning, and the next line is scanned again |
| BeOrg.RejectsBadStamp | src/main.py:144-147 | a refused stamp gives one warning quoting the stamp, and the scan moves on by one line |
| BeOrg.FoundStorable | src/main.py:121-122 | the text read from a stripped heading is non-empty, on one line and does not end in whitespace |
| BeOrg.ParsedStorable | src/main.py:98-122 | every task parsed from any BeOrg text has such a text |
| BeOrg.HeaderLineReads | src/main.py:164-165 | the written heading is a heading whose text after the marker is the task's text and whose marker gives its completion |
| BeOrg.StampLineReads | src/main.py:166-167 | the written stamp line yields the `strftime` text when matched |
| BeOrg.EntryReadsFormatted | src/main.py:160-168 | the two lines written for a task with storable text read back as that task |
| BeOrg.BlankIgnored | src/main.py:118-119 | an empty line starts no entry |
| BeOrg.RoundTrip | src/main.py:160-168 | parsing the formatted lines of any tasks with storable texts gives them back in order with no warnings |
| BeOrg.WriteThenParse | src/main.py:76-84 | the text written for a BeOrg file parses back to the tasks sorted latest first, a permutation of the input, with no warnings |
| Journelly.HeaderStamp | src/main.py:195-200 | the pattern matches exactly when the line starts with `* [`, a stamp of the pattern's shape and `] @ -`, and the captured text is that stamp |
| Journelly.EntryOutcome | src/main.py:192-227 | a line is skipped iff it is no stamp heading; a task is read iff the stamp is accepted and the next line is a checkbox line; that line is the task's checkbox line |
| Journelly.EntryReads | src/main.py:195-213 | a good entry gives the text after the 6-character checkbox, the stamp, and completion iff `- [X] ` |
| Journelly.EntryWarns | src/main.py:200-227 | the three rejections: a refused stamp whatever follows, no next line, a next line that is no checkbox line |
| Journelly.SkipsNonHeader | src/main.py:196-198 | a line that is not a stamp heading is passed over silently |
| Journelly.ReadsEntry | src/main.py:181-213 | a good entry puts its task ahead of the rest and consumes both lines |
| Journelly.RejectsBadStamp | src/main.py:222-225 | a refused stamp gives one warning and the scan moves on by one line, even when the heading is the last line |
| Journelly.RejectsAtEnd | src/main.py:218-221 | a good heading on the last line gives exactly the at-end warning |
| Journelly.RejectsNoTaskLine | src/main.py:214-217 | a good heading not followed by a checkbox line gives one warning, and the next line is scanned again |
| Journelly.FoundStorable | src/main.py:207-209 | the text read from a stripped checkbox line is non-empty, on one line and does not end in whitespace |
| Journelly.CheckboxTextStorable | src/main.py:207-209 | a stripped checkbox line cannot end at its checkbox, so its text is non-empty |
| Journelly.ParsedStorable | src/main.py:175-213 | every task parsed from any Journelly text has a storable text |
| Journelly.HeaderLineReads | src/main.py:234-235 | the written heading matches the pattern and yields the `strftime` text |
| Journelly.TaskLineReads | src/main.py:236-237 | the written checkbox line is a checkbox line that yields the task's text and completion |
| Journelly.EntryReadsFormatted | src/main.py:230-238 | the two lines written for a task with storable text read back as that task |
| Journelly.BlankIgnored | src/main.py:195-198 | an empty line starts no entry |
| Journelly.RoundTrip | src/main.py:230-238 | parsing the formatted lines of any tasks with storable texts gives them back in order with no warnings |
| Journelly.WriteThenParse | src/main.py:76-84 | the text written for a Journelly file parses back to the tasks sorted latest first, a permutation of the input, with no warnings |
| Sync.ByContent | src/main.py:255-258 | every dictionary entry is filed under its own text |
| Sync.ByContentKeys | src/main.py:255-262 | the dictionary's keys are exactly the texts of the list |
| Sync.ByContentLast | src/main.py:255-258 | the entry for a text is its last occurrence in the list |
| Sync.ByContentOfDistinct | src/main.py:255-258 | with distinct texts, each task is its own text's entry |
| Sync.FateProperties | src/main.py:268-322 | a text's task is dropped iff a task seen for it is done; a kept task is open, carries the text, and has the earlier of the timestamps seen |
| Sync.GatherMembers | src/main.py:264-324 | the loop collects exactly the tasks their turns keep, with distinct texts |
| Sync.Synchronize | src/main.py:247-324 | both returned lists are the same list; every task in it is open; no two share a text |
| Sync.SynchronizeMembers | src/main.py:255-324 | a task is returned iff its text is a key of either dictionary and its turn keeps it |
| Sync.SynchronizeBoth | src/main.py:271-299 | for a text in both files, the merged task with the earlier timestamp is kept iff neither last occurrence is done |
| Sync.SynchronizeBeOrgOnly | src/main.py:301-322 | a text only in BeOrg keeps its last BeOrg task iff that task is open |
| Sync.SynchronizeJournellyOnly | src/main.py:301-322 | a text only in Journelly keeps its last Journelly task iff that task is open |
| Sync.SynchronizeNothingElse | src/main.py:264-324 | every returned task is the merged task, or the single file's task, for a text that appears in the input |
| Sync.OrderIrrelevant | src/main.py:261-267 | any enumeration of the texts gives the same set of tasks |
| Sync.SynchronizeIdempotent | src/main.py:247-324 | synchronizing the output with itself gives back the same tasks |
| Pipeline.SyncedStorable | src/main.py:378-381 | every task the synchronizer keeps from parsed files has a storable text |
| Pipeline.RunReadsBack | src/main.py:357-385 | both texts a run writes parse back, with no warnings, to the same synchronized tasks sorted latest first |
| Examples.FirstDayIsMonday | src/main.py:166 | 0001-01-01 is a Monday |
| Examples.NewYearIsMonday | test_beorg2journelly.py:59-60 | 2024-01-01 is a Monday and 2024-01-02 a Tuesday |
| Examples.TenthOfFebruaryIsSaturday | test_beorg2journelly.py:62 | 2024-02-10 is a Saturday |
| Examples.PaddedYear | test_beorg2journelly.py:59 | the year 2024 is written `2024` |
| Examples.PaddedNumbers | test_beorg2journelly.py:59-60 | the months, days, hours and minutes of the first two test tasks are written zero-padded |
| Examples.FormatNewYear | test_beorg2journelly.py:59 | 2024-01-01 10:00 is written `2024-01-01 Mon 10:00` |
| Examples.FormatSecond | test_beorg2journelly.py:60 | 2024-01-02 11:00 is written `2024-01-02 Tue 11:00` |
| Examples.BeOrgDoneHeading | test_beorg2journelly.py:60 | a done task's BeOrg heading is `* DONE Simple completed` |
| Examples.BeOrgStampLine | test_beorg2journelly.py:60 | its stamp line is `[2024-01-02 Tue 11:00]` |
| Examples.BeOrgFormatDone | test_beorg2journelly.py:57-71 | BeOrg formats that task as exactly those two lines |
| Examples.JournellyHeading | test_beorg2journelly.py:102 | the Journelly heading for 2024-01-01 10:00 is `* [2024-01-01 Mon 10:00] @ -` |
| Examples.JournellyOpenLine | test_beorg2journelly.py:102 | an open task's checkbox line is `- [ ] Simple incomplete` |
| Examples.JournellyFormatOpen | test_beorg2journelly.py:99-114 | Journelly formats that task as exactly those two lines |
| Examples.ByContentOne | src/main.py:255-256 | the dictionary of one task maps its text to it |
| Examples.ByContentTwo | src/main.py:255-256 | the dictionary of two tasks adds the second after the first |
| Examples.SyncNewTask | test_beorg2journelly.py:126-140 | an open task found in only one file goes to both |
| Examples.SyncDoneRemoved | test_beorg2journelly.py:142-148 | a done task is removed and the open one kept, in either visiting order |
| Examples.SyncDoneInOneFile | test_beorg2journelly.py:150-157 | a task done in one file is removed from both |
| Examples.SyncEarlierWins | test_beorg2journelly.py:159-165 | of two timestamps for one text the earlier is kept |

## Left out

- Reading and writing files, `main`'s argument handling and messages, verbose
  printing, and the `SyncError`/`FileIOError` paths are I/O. A missing input
  file counts as empty text. Warnings are values of a datatype; `Message()`
  renders the exact warning text, and printing it is left out.
- The parsers read the text `f.read()` returns, after Python's newline
  translation, and the round-trip lemmas are about that text and the text
  `write_file` hands to `f.write`. Translation of `\r` and `\r\n` to `\n`
  when a file is read is left out: a task text holding a `\r` is storable
  here but would be split in two by a round trip through a real file.
- The parsers' exact `lines_consumed` counter becomes the scan's step of one
  or two lines. Only the tasks and warnings a parse returns are modelled.
- `strip` and `\s` whitespace is the ASCII set Python's `str.isspace` accepts.
  Non-ASCII whitespace, Unicode digits in `\d`, Unicode word characters in
  `\w` and Unicode case folding for `%a` are left out.
- Calendar.FormatStamp: `%Y` is written with four zero-padded digits for every
  year. Some platforms write years below 1000 without padding; the round trip
  is stated for the padded form only.
- Calendar.Timestamp: seconds and microseconds are left out. Parsed stamps
  have none, and the tasks in this program only ever get their timestamps
  from parsing or from `min`.
- Sync.Synchronize: the order of the result follows the `order` parameter,
  which stands for Python's set iteration order. That order is not
  determined by the program, so the order of the output is not stated.
- Sync.OrderIrrelevant: states that the output is the same as a set of
  tasks, not as a sequence, for the same reason.
- Sync.SynchronizeIdempotent: also states equality as sets of tasks, since the
  second run may visit the texts in a different order.
- Examples: the unit tests that parse eight-task texts are not restated. Only
  single-line and single-task cases of the formatter tests and all
  synchronizer tests are.
- BeOrg.RoundTrip and Journelly.RoundTrip: these require storable text:
  non-empty, on one line and not ending in whitespace. Other text does not
  survive `strip` and `split`. Every parsed task meets the requirement
  (`ParsedStorable`).
