/**
  Two-way synchronization (`TaskSynchronizer.synchronize`,
  src/main.py:247-324). Tasks are matched by their text; a text found in
  both files keeps the earlier timestamp and is done if it is done in
  either; done tasks are dropped and every other task goes to both files.

  The loop runs over a Python set, whose order is not specified: here the
  order is a parameter, any sequence that lists every text once.
*/
module Sync {
  import opened Wrappers
  import opened Calendar
  import opened Tasks

  /** The texts of the tasks. */
  function Contents(ts: seq<Task>): set<string> {
    set t | t in ts :: t.content
  }

  /** Every entry is filed under its own text. */
  predicate Keyed(m: map<string, Task>) {
    forall c :: c in m ==> m[c].content == c
  }

  /** No two tasks share a text. */
  predicate DistinctContents(ts: seq<Task>) {
    forall i, j :: 0 <= i < j < |ts| ==> ts[i].content != ts[j].content
  }

  /** `order` lists each text of `keys` exactly once. */
  predicate Enumerates(order: seq<string>, keys: set<string>) {
    && (forall i, j :: 0 <= i < j < |order| ==> order[i] != order[j])
    && (forall c :: c in order ==> c in keys)
    && (forall c :: c in keys ==> c in order)
  }

  /** `{task.content: task for task in ts}`: later tasks with the same text
      replace earlier ones. */
  function ByContent(ts: seq<Task>): (m: map<string, Task>)
    ensures Keyed(m)
  {
    if ts == [] then map[]
    else
      var last := ts[|ts| - 1];
      ByContent(ts[..|ts| - 1])[last.content := last]
  }

  /** The dictionary has an entry for every text and no other. */
  lemma {:induction false} ByContentKeys(ts: seq<Task>)
    ensures ByContent(ts).Keys == Contents(ts)
  {
    if ts != [] {
      var init := ts[..|ts| - 1];
      var last := ts[|ts| - 1];
      ByContentKeys(init);
      assert ts == init + [last];
      assert Contents(ts) == Contents(init) + {last.content};
    }
  }

  /** The entry for a text is its last occurrence. */
  lemma {:induction false} ByContentLast(ts: seq<Task>, i: int)
    requires 0 <= i < |ts|
    requires forall j :: i < j < |ts| ==> ts[j].content != ts[i].content
    ensures ts[i].content in ByContent(ts) && ByContent(ts)[ts[i].content] == ts[i]
  {
    if i < |ts| - 1 {
      var init := ts[..|ts| - 1];
      assert init[i] == ts[i];
      ByContentLast(init, i);
    }
  }

  /** `by_content.get(c)`. */
  function Get(m: map<string, Task>, c: string): Option<Task> {
    if c in m then Some(m[c]) else None
  }

  /** One turn of the loop in `synchronize`: the task written to both files
      for text `c`, given its BeOrg and its Journelly task, if any. */
  function Fate(c: string, b: Option<Task>, j: Option<Task>): Option<Task> {
    match (b, j)
    case (Some(x), Some(y)) =>
      var merged := Task(c, Min(x.stamp, y.stamp), x.done || y.done);
      if merged.done then None else Some(merged)
    case (Some(x), None) => if x.done then None else Some(x)
    case (None, Some(y)) => if y.done then None else Some(y)
    case (None, None) => None
  }

  /** What a turn of the loop keeps is open, carries the turn's text, and
      is stamped no later than any task it stands for; a turn keeps
      nothing exactly when a task it sees is done, or it sees none. */
  lemma FateProperties(c: string, b: Option<Task>, j: Option<Task>)
    requires b.Some? ==> b.value.content == c
    requires j.Some? ==> j.value.content == c
    ensures Fate(c, b, j).None? <==>
      (b.Some? && b.value.done) || (j.Some? && j.value.done) || (b.None? && j.None?)
    ensures Fate(c, b, j).Some? ==>
      var t := Fate(c, b, j).value;
      && !t.done && t.content == c
      && (b.Some? ==> NotAfter(t.stamp, b.value.stamp))
      && (j.Some? ==> NotAfter(t.stamp, j.value.stamp))
      && ((b.Some? && t.stamp == b.value.stamp) || (j.Some? && t.stamp == j.value.stamp))
  {
  }

  /** The lists the loop builds, for the texts in `order`, in that order. */
  function Gather(order: seq<string>, mb: map<string, Task>, mj: map<string, Task>): seq<Task> {
    if order == [] then []
    else
      var c := order[|order| - 1];
      var init := Gather(order[..|order| - 1], mb, mj);
      match Fate(c, Get(mb, c), Get(mj, c))
      case None => init
      case Some(t) => init + [t]
  }

  /** A task is gathered exactly when the turn for its text keeps it; the
      gathered tasks have distinct texts. */
  lemma {:induction false} GatherMembers(order: seq<string>, mb: map<string, Task>, mj: map<string, Task>)
    requires Keyed(mb) && Keyed(mj)
    requires forall i, j :: 0 <= i < j < |order| ==> order[i] != order[j]
    ensures forall t :: t in Gather(order, mb, mj) <==>
      t.content in order && Fate(t.content, Get(mb, t.content), Get(mj, t.content)) == Some(t)
    ensures DistinctContents(Gather(order, mb, mj))
  {
    if order != [] {
      var c := order[|order| - 1];
      var prefix := order[..|order| - 1];
      var init := Gather(prefix, mb, mj);
      GatherMembers(prefix, mb, mj);
      FateProperties(c, Get(mb, c), Get(mj, c));
      assert order == prefix + [c];
      assert c !in prefix;
      forall t ensures t in Gather(order, mb, mj) <==>
        t.content in order && Fate(t.content, Get(mb, t.content), Get(mj, t.content)) == Some(t)
      {
        FateProperties(t.content, Get(mb, t.content), Get(mj, t.content));
      }
      var g := Gather(order, mb, mj);
      if Fate(c, Get(mb, c), Get(mj, c)).Some? {
        assert g == init + [Fate(c, Get(mb, c), Get(mj, c)).value];
        forall i | 0 <= i < |init| ensures init[i].content != c {
          assert init[i] in init;
        }
      }
    }
  }

  /** `synchronize(beorg_tasks, journelly_tasks)`, the loop visiting the
      texts in `order`: the same list goes to both files, it holds no done
      task, and no text twice. */
  function Synchronize(beorg: seq<Task>, journelly: seq<Task>, order: seq<string>)
    : (r: (seq<Task>, seq<Task>))
    requires Enumerates(order, Contents(beorg) + Contents(journelly))
    ensures r.0 == r.1
    ensures forall t :: t in r.0 ==> !t.done
    ensures DistinctContents(r.0)
  {
    var out := Gather(order, ByContent(beorg), ByContent(journelly));
    GatherMembers(order, ByContent(beorg), ByContent(journelly));
    forall t | t in out ensures !t.done {
      FateProperties(t.content, Get(ByContent(beorg), t.content), Get(ByContent(journelly), t.content));
    }
    (out, out)
  }

  /** Membership in the result, turn by turn. */
  lemma SynchronizeMembers(beorg: seq<Task>, journelly: seq<Task>, order: seq<string>)
    requires Enumerates(order, Contents(beorg) + Contents(journelly))
    ensures forall t :: t in Synchronize(beorg, journelly, order).0 <==>
      t.content in ByContent(beorg).Keys + ByContent(journelly).Keys
      && Fate(t.content, Get(ByContent(beorg), t.content), Get(ByContent(journelly), t.content)) == Some(t)
  {
    GatherMembers(order, ByContent(beorg), ByContent(journelly));
    ByContentKeys(beorg);
    ByContentKeys(journelly);
  }

  /** A text in both files (its last task in each) is kept, with the
      earlier of the two timestamps, exactly when neither task is done. */
  lemma SynchronizeBoth(beorg: seq<Task>, journelly: seq<Task>, order: seq<string>, c: string)
    requires Enumerates(order, Contents(beorg) + Contents(journelly))
    requires c in ByContent(beorg) && c in ByContent(journelly)
    ensures var x, y := ByContent(beorg)[c], ByContent(journelly)[c];
            Task(c, Min(x.stamp, y.stamp), false) in Synchronize(beorg, journelly, order).0
            <==> !x.done && !y.done
  {
    SynchronizeMembers(beorg, journelly, order);
  }

  /** A text in BeOrg only keeps its last BeOrg task exactly when that task
      is not done. */
  lemma SynchronizeBeOrgOnly(beorg: seq<Task>, journelly: seq<Task>, order: seq<string>, c: string)
    requires Enumerates(order, Contents(beorg) + Contents(journelly))
    requires c in ByContent(beorg) && c !in ByContent(journelly)
    ensures ByContent(beorg)[c] in Synchronize(beorg, journelly, order).0 <==> !ByContent(beorg)[c].done
  {
    SynchronizeMembers(beorg, journelly, order);
  }

  /** A text in Journelly only keeps its last Journelly task exactly when
      that task is not done. */
  lemma SynchronizeJournellyOnly(beorg: seq<Task>, journelly: seq<Task>, order: seq<string>, c: string)
    requires Enumerates(order, Contents(beorg) + Contents(journelly))
    requires c !in ByContent(beorg) && c in ByContent(journelly)
    ensures ByContent(journelly)[c] in Synchronize(beorg, journelly, order).0
      <==> !ByContent(journelly)[c].done
  {
    SynchronizeMembers(beorg, journelly, order);
  }

  /** Nothing else is written: every task in the result is the one the
      three cases above describe for its text. */
  lemma SynchronizeNothingElse(beorg: seq<Task>, journelly: seq<Task>, order: seq<string>, t: Task)
    requires Enumerates(order, Contents(beorg) + Contents(journelly))
    requires t in Synchronize(beorg, journelly, order).0
    ensures var mb, mj, c := ByContent(beorg), ByContent(journelly), t.content;
            && (c in mb || c in mj)
            && (c in mb && c in mj ==> t == Task(c, Min(mb[c].stamp, mj[c].stamp), false))
            && (c in mb && c !in mj ==> t == mb[c])
            && (c !in mb && c in mj ==> t == mj[c])
  {
    SynchronizeMembers(beorg, journelly, order);
  }

  /** The order the texts are visited in changes the order of the result,
      not what it holds. */
  lemma OrderIrrelevant(beorg: seq<Task>, journelly: seq<Task>, o1: seq<string>, o2: seq<string>)
    requires Enumerates(o1, Contents(beorg) + Contents(journelly))
    requires Enumerates(o2, Contents(beorg) + Contents(journelly))
    ensures forall t :: t in Synchronize(beorg, journelly, o1).0 <==> t in Synchronize(beorg, journelly, o2).0
  {
    SynchronizeMembers(beorg, journelly, o1);
    SynchronizeMembers(beorg, journelly, o2);
  }

  /** In a list with distinct texts, each task is its text's entry. */
  lemma ByContentOfDistinct(ts: seq<Task>, t: Task)
    requires DistinctContents(ts) && t in ts
    ensures t.content in ByContent(ts) && ByContent(ts)[t.content] == t
  {
    var i :| 0 <= i < |ts| && ts[i] == t;
    ByContentLast(ts, i);
  }

  /** Synchronizing a result with itself, in any order, keeps exactly the
      same tasks: a second run changes nothing. */
  lemma SynchronizeIdempotent(beorg: seq<Task>, journelly: seq<Task>, order: seq<string>,
                              again: seq<string>)
    requires Enumerates(order, Contents(beorg) + Contents(journelly))
    requires var out := Synchronize(beorg, journelly, order).0;
             Enumerates(again, Contents(out) + Contents(out))
    ensures var out := Synchronize(beorg, journelly, order).0;
            forall t :: t in Synchronize(out, out, again).0 <==> t in out
  {
    var out := Synchronize(beorg, journelly, order).0;
    var m := ByContent(out);
    SynchronizeMembers(out, out, again);
    ByContentKeys(out);
    forall t ensures t in Synchronize(out, out, again).0 <==> t in out {
      if t in out {
        ByContentOfDistinct(out, t);
        assert Fate(t.content, Get(m, t.content), Get(m, t.content)) == Some(t);
      }
      if t in Synchronize(out, out, again).0 {
        var c := t.content;
        assert c in m;
        var x := m[c];
        assert x in out by {
          assert c in Contents(out);
          var y :| y in out && y.content == c;
          ByContentOfDistinct(out, y);
        }
        ByContentOfDistinct(out, x);
        assert t == x;
      }
    }
  }
}
