/** Segment checks over the ID lists that synchronization leaves. */
module Segments {
  import opened Specs
  import opened Conditions
  import opened IdListReplay
  import opened IdListSync
  import opened IdListWorkers

  /** A check panics exactly on a placeholder. Otherwise it tells membership, and no list means no. */
  lemma SegmentCheck(w: World, lists: Lists, value: string, name: string)
    requires w.snap.idLists == MembersOf(lists)
    ensures InSegmentList(w, Str(value), Str(name)) ==
            if IsPlaceholder(lists, name) then Panic(NilDereference)
            else Done(name in lists && w.lib.segmentKey(value) in Ids(lists[name]))
  {
  }

  /** After any run of rounds, checking a user value against a list panics exactly when every entry for its name has
      been hopeless since the name was last not stored. Otherwise it tells membership, and no list means no. */
  lemma SegmentCheckOverRuns(w: World, rounds: seq<Round>, value: string, name: string)
    requires w.snap.idLists == MembersOf(AfterRun(rounds))
    ensures var lists, check := AfterRun(rounds), InSegmentList(w, Str(value), Str(name));
            && (check.Panic? <==> exists i: nat :: i < |rounds| && HopelessSince(rounds, name, i))
            && (check.Done? ==> check.value == (name in lists && w.lib.segmentKey(value) in Ids(lists[name])))
  {
    SegmentCheck(w, AfterRun(rounds), value, name);
    PlaceholderExactly(rounds, name);
  }

  /** So a single round with an empty entry makes checks panic. */
  lemma EmptyEntryMakesChecksPanic(w: World, name: string, get: Downloads, value: string)
    requires w.snap.idLists == MembersOf(AfterRun([Round(map[name := Entry(0, 0, "", "")], get)]))
    ensures InSegmentList(w, Str(value), Str(name)).Panic?
  {
    EmptyEntryLeavesPlaceholder(name, get);
  }

  /** In the middle of a round, under every schedule: a check against a listed name panics exactly at the phases of
      `SeenEmpty`. For a new name with a good entry this is from when the name is first stored until its file's list
      takes its place. */
  lemma SegmentCheckInARound(w: World, run: Sync, value: string, name: string)
    requires run.Inv() && name in run.server && w.snap.idLists == run.store.Members()
    ensures var check, phase := InSegmentList(w, Str(value), Str(name)), run.threads[name].phase;
            && (check.Panic? <==> SeenEmpty(run.CaseOf(name), phase))
            && (name !in run.before && !Hopeless(run.server[name]) ==>
                  (check.Panic? <==> phase.Deciding? || phase.Replacing?))
  {
    run.SeenEmptyExactly(name);
  }

  /** There is such a moment for every new name with a good entry. */
  method CheckBeforeFirstFile(w: World, name: string, e: Entry, get: Downloads, value: string) returns (run: Sync)
    requires !Hopeless(e)
    ensures run.Inv() && run.server == map[name := e] && run.before == map[]
    ensures InSegmentList(w.(snap := w.snap.(idLists := run.store.Members())), Str(value), Str(name)).Panic?
  {
    run := NewListBeforeItsFile(name, e, get);
    SegmentCheckInARound(w.(snap := w.snap.(idLists := run.store.Members())), run, value, name);
  }

  lemma SegmentCheckOnFile(
    w: World, lists: Lists, files: Files, fileAt: string -> string, value: string, name: string)
    requires w.snap.idLists == MembersOf(lists) && AllReplicate(lists, files, fileAt)
    requires name in lists && lists[name].fileID in files && lists[name].fileID != ""
    requires lists[name].size == |files[lists[name].fileID]|
    ensures var ops := Ops(files[lists[name].fileID]);
            InSegmentList(w, Str(value), Str(name)) ==
            Done(exists k: nat :: LastAbout(ops, k, w.lib.segmentKey(value)) && ops[k].Add?)
  {
    SegmentCheck(w, lists, value, name);
    assert Replicates(lists[name], files, fileAt);
    CaughtUp(lists[name], files, fileAt);
  }

  /** On a list that has caught up with its file, the check tells whether the value's last line in the file adds it. */
  lemma SegmentCheckTellsFile(
    w: World, rounds: seq<Round>, history: seq<Files>, fileAt: string -> string, value: string, name: string)
    requires rounds != [] && |history| == |rounds|
    requires forall i :: 0 <= i < |rounds| ==> Honest(rounds[i], history[i], fileAt)
    requires forall i :: 0 < i < |rounds| ==> Grows(history[i - 1], history[i])
    requires w.snap.idLists == MembersOf(AfterRun(rounds))
    requires var lists, files := AfterRun(rounds), history[|rounds| - 1];
             name in lists && lists[name].fileID in files && lists[name].fileID != ""
             && lists[name].size == |files[lists[name].fileID]|
    ensures var ops := Ops(history[|rounds| - 1][AfterRun(rounds)[name].fileID]);
            InSegmentList(w, Str(value), Str(name)) ==
            Done(exists k: nat :: LastAbout(ops, k, w.lib.segmentKey(value)) && ops[k].Add?)
  {
    RunReplicates(rounds, history, fileAt);
    SegmentCheckOnFile(w, AfterRun(rounds), history[|rounds| - 1], fileAt, value, name);
  }
}
