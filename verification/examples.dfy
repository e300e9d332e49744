/**
  Concrete cases from the repository's unit tests
  (test_beorg2journelly.py), stated as lemmas about the model.
*/
module Examples {
  import opened Wrappers
  import opened Text
  import opened Calendar
  import opened Tasks
  import opened Sync
  import Base
  import BeOrg
  import Journelly

  const NewYear: DateTime := Timestamp(2024, 1, 1, 10, 0)
  const Second: DateTime := Timestamp(2024, 1, 2, 11, 0)

  const FirstDay: DateTime := Timestamp(1, 1, 1, 0, 0)

  /** 0001-01-01, the first day of the calendar, is a Monday. */
  lemma FirstDayIsMonday()
    ensures Weekday(FirstDay) == 0
  {
    assert DaysBeforeYear(1) == 0;
    assert Ordinal(FirstDay) + 6 == 7 * 1;
  }

  /** 2024-01-01 is a Monday and 2024-01-02 a Tuesday. */
  lemma NewYearIsMonday()
    ensures Weekday(NewYear) == 0 && Weekday(Second) == 1
  {
    assert DaysBeforeYear(2024) == 738885;
    assert Ordinal(NewYear) + 6 == 7 * 105556;
    assert Ordinal(Second) + 6 == 7 * 105556 + 1;
  }

  /** 2024-02-10 is a Saturday. */
  lemma TenthOfFebruaryIsSaturday()
    ensures Weekday(Timestamp(2024, 2, 10, 9, 0)) == 5
  {
    assert DaysBeforeYear(2024) == 738885;
    assert DaysBeforeMonth(2024, 2) == 31;
    assert Ordinal(Timestamp(2024, 2, 10, 9, 0)) + 6 == 7 * 105561 + 5;
  }

  /** The zero-padded year of the two stamps below. */
  lemma PaddedYear()
    ensures Pad4(2024) == "2024"
  {
  }

  /** The zero-padded months, days, hours and minutes of the two stamps
      below. */
  lemma PaddedNumbers()
    ensures Pad2(0) == "00" && Pad2(1) == "01" && Pad2(2) == "02" && Pad2(10) == "10" && Pad2(11) == "11"
  {
  }

  /** `strftime('%Y-%m-%d %a %H:%M')` of 2024-01-01 10:00. */
  lemma FormatNewYear()
    ensures FormatStamp(NewYear) == "2024-01-01 Mon 10:00"
  {
    NewYearIsMonday();
    PaddedYear();
    PaddedNumbers();
  }

  /** `strftime('%Y-%m-%d %a %H:%M')` of 2024-01-02 11:00. */
  lemma FormatSecond()
    ensures FormatStamp(Second) == "2024-01-02 Tue 11:00"
  {
    NewYearIsMonday();
    PaddedYear();
    PaddedNumbers();
  }

  /** The heading BeOrg writes for a done task. */
  lemma BeOrgDoneHeading()
    ensures BeOrg.HeaderLine(Task("Simple completed", Second, true)) == "* DONE Simple completed"
  {
  }

  /** The stamp line BeOrg writes for 2024-01-02 11:00. */
  lemma BeOrgStampLine()
    ensures BeOrg.StampLine(Second) == "[" + "2024-01-02 Tue 11:00" + "]"
  {
    FormatSecond();
  }

  /** BeOrg writes a done task as its DONE heading and its stamp. */
  lemma BeOrgFormatDone()
    ensures BeOrg.Format([Task("Simple completed", Second, true)])
      == ["* DONE Simple completed", "[" + "2024-01-02 Tue 11:00" + "]"]
  {
    var ts := [Task("Simple completed", Second, true)];
    BeOrgDoneHeading();
    BeOrgStampLine();
    Base.RenderLayout(ts, BeOrg.HeaderLine, BeOrg.TaskStampLine, 0);
  }

  /** The heading Journelly writes for 2024-01-01 10:00. */
  lemma JournellyHeading()
    ensures Journelly.HeaderLine(NewYear) == "* [" + "2024-01-01 Mon 10:00" + "] @ -"
  {
    FormatNewYear();
  }

  /** The checkbox line Journelly writes for an open task. */
  lemma JournellyOpenLine()
    ensures Journelly.TaskLine(Task("Simple incomplete", NewYear, false)) == "- [ ] Simple incomplete"
  {
  }

  /** Journelly writes an open task as its stamp heading and an empty
      checkbox. */
  lemma JournellyFormatOpen()
    ensures Journelly.Format([Task("Simple incomplete", NewYear, false)])
      == ["* [" + "2024-01-01 Mon 10:00" + "] @ -", "- [ ] Simple incomplete"]
  {
    var ts := [Task("Simple incomplete", NewYear, false)];
    JournellyHeading();
    JournellyOpenLine();
    Base.RenderLayout(ts, Journelly.TaskHeaderLine, Journelly.TaskLine, 0);
  }

  const A: Task := Task("Task A", Timestamp(2023, 1, 1, 0, 0), false)
  const B: Task := Task("Task B", Timestamp(2023, 1, 2, 0, 0), false)
  const CDone: Task := Task("Task C", Timestamp(2023, 1, 3, 0, 0), true)
  const DEarly: Task := Task("Task D", Timestamp(2023, 1, 4, 0, 0), false)
  const DLate: Task := Task("Task D", Timestamp(2023, 1, 5, 0, 0), false)

  /** The dictionary `synchronize` builds from one task. */
  lemma ByContentOne(t: Task)
    ensures ByContent([t]) == map[t.content := t]
  {
    assert [t][..0] == [];
  }

  /** The dictionary `synchronize` builds from two tasks. */
  lemma ByContentTwo(t: Task, u: Task)
    ensures ByContent([t, u]) == map[t.content := t][u.content := u]
  {
    assert [t, u][..1] == [t];
    ByContentOne(t);
  }

  /** A new open task in one file goes to both. */
  lemma SyncNewTask()
    ensures Synchronize([A], [], ["Task A"]) == ([A], [A])
    ensures Synchronize([], [B], ["Task B"]) == ([B], [B])
  {
    ByContentOne(A);
    ByContentOne(B);
    assert ["Task A"][..0] == [] && ["Task B"][..0] == [];
    assert Gather(["Task A"], map["Task A" := A], map[]) == [A];
    assert Gather(["Task B"], map[], map["Task B" := B]) == [B];
  }

  /** A done task is removed, whichever order the texts are visited in. */
  lemma SyncDoneRemoved()
    ensures Synchronize([A, CDone], [A], ["Task A", "Task C"]) == ([A], [A])
    ensures Synchronize([A, CDone], [A], ["Task C", "Task A"]) == ([A], [A])
  {
    ByContentTwo(A, CDone);
    ByContentOne(A);
    assert "Task A" != "Task C" by {
      assert "Task A"[5] != "Task C"[5];
    }
    var mb, mj := map["Task A" := A]["Task C" := CDone], map["Task A" := A];
    assert Fate("Task A", Get(mb, "Task A"), Get(mj, "Task A")) == Some(A);
    assert Fate("Task C", Get(mb, "Task C"), Get(mj, "Task C")) == None;
    assert ["Task A", "Task C"][..1] == ["Task A"] && ["Task A"][..0] == [];
    assert ["Task C", "Task A"][..1] == ["Task C"] && ["Task C"][..0] == [];
    assert Gather(["Task A"], mb, mj) == [A];
    assert Gather(["Task C"], mb, mj) == [];
    assert Gather(["Task A", "Task C"], mb, mj) == [A];
    assert Gather(["Task C", "Task A"], mb, mj) == [A];
  }

  /** A task done in one file is removed from both. */
  lemma SyncDoneInOneFile()
    ensures Synchronize([A], [A.(done := true)], ["Task A"]) == ([], [])
  {
    ByContentOne(A);
    ByContentOne(A.(done := true));
    assert ["Task A"][..0] == [];
    assert Gather(["Task A"], map["Task A" := A], map["Task A" := A.(done := true)]) == [];
  }

  /** The earlier of two timestamps wins. */
  lemma SyncEarlierWins()
    ensures Synchronize([DLate], [DEarly], ["Task D"]) == ([DEarly], [DEarly])
  {
    ByContentOne(DLate);
    ByContentOne(DEarly);
    assert ["Task D"][..0] == [];
    assert Min(DLate.stamp, DEarly.stamp) == DEarly.stamp;
    assert Gather(["Task D"], map["Task D" := DLate], map["Task D" := DEarly]) == [DEarly];
  }
}
