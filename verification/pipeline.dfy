/**
  One run of the program (src/main.py:357-382) without its file handling:
  read both texts, synchronize, and produce the two texts to write back.
*/
module Pipeline {
  import opened Tasks
  import opened Base
  import opened Sync
  import BeOrg
  import Journelly

  /** The texts a run writes back for the two texts it read, the
      synchronizer visiting the texts of the tasks in `order`. */
  function Run(beorgText: string, journellyText: string, order: seq<string>): (string, string)
    requires Enumerates(order,
      Contents(BeOrg.Parse(beorgText).tasks) + Contents(Journelly.Parse(journellyText).tasks))
  {
    var synced := Synchronize(BeOrg.Parse(beorgText).tasks, Journelly.Parse(journellyText).tasks, order);
    (BeOrg.Write(synced.0), Journelly.Write(synced.1))
  }

  /** Every task the synchronizer keeps has the text of a task that was
      read, so it is storable. */
  lemma SyncedStorable(beorg: seq<Task>, journelly: seq<Task>, order: seq<string>)
    requires Enumerates(order, Contents(beorg) + Contents(journelly))
    requires forall t :: t in beorg ==> Storable(t.content)
    requires forall t :: t in journelly ==> Storable(t.content)
    ensures forall i :: 0 <= i < |Synchronize(beorg, journelly, order).0| ==>
      Storable(Synchronize(beorg, journelly, order).0[i].content)
  {
    var out := Synchronize(beorg, journelly, order).0;
    ByContentKeys(beorg);
    ByContentKeys(journelly);
    forall i | 0 <= i < |out| ensures Storable(out[i].content) {
      var c := out[i].content;
      SynchronizeNothingElse(beorg, journelly, order, out[i]);
      if c in Contents(beorg) {
        var x :| x in beorg && x.content == c;
      } else {
        assert c in Contents(journelly);
        var x :| x in journelly && x.content == c;
      }
    }
  }

  /** The texts a run writes read back, with no warnings, as the tasks the
      synchronizer kept, latest first; both texts hold the same tasks. */
  lemma RunReadsBack(beorgText: string, journellyText: string, order: seq<string>)
    requires Enumerates(order,
      Contents(BeOrg.Parse(beorgText).tasks) + Contents(Journelly.Parse(journellyText).tasks))
    ensures var synced :=
              Synchronize(BeOrg.Parse(beorgText).tasks, Journelly.Parse(journellyText).tasks, order).0;
            var written := Run(beorgText, journellyText, order);
            && BeOrg.Parse(written.0) == Parsed(SortDescending(synced), [])
            && Journelly.Parse(written.1) == Parsed(SortDescending(synced), [])
  {
    var b := BeOrg.Parse(beorgText).tasks;
    var j := Journelly.Parse(journellyText).tasks;
    BeOrg.ParsedStorable(beorgText);
    Journelly.ParsedStorable(journellyText);
    SyncedStorable(b, j, order);
    var synced := Synchronize(b, j, order).0;
    BeOrg.WriteThenParse(synced);
    Journelly.WriteThenParse(synced);
  }
}
