/** What one synchronization of the ID lists does to each list, and what holds over every run of them. */
module IdListSync {
  import opened Strings
  import opened IdListReplay

  /** A stored list. Its ids are `None` until a file has been assigned to it. */
  datatype ListState = ListState(
    name: string, size: int, creationTime: int, url: string, fileID: string, ids: Option<set<string>>)

  /** The server's description of a list. */
  datatype Entry = Entry(size: int, creationTime: int, url: string, fileID: string)

  /** The answer to a download: a failed request, or a content-length and a body either of which may be unusable. */
  datatype Answer = Failed | Got(contentLength: Option<int>, body: Option<string>)

  /** What the download of a list (by name, from a URL, starting at a byte) is answered with. */
  type Downloads = (string, string, int) -> Answer

  type Lists = map<string, ListState>

  /** The ids of each list, `None` while they are not allocated. */
  function MembersOf(lists: Lists): map<string, Option<set<string>>> {
    map n | n in lists :: lists[n].ids
  }

  function Placeholder(name: string): ListState {
    ListState(name, 0, 0, "", "", None)
  }

  function Lookup(lists: Lists, name: string): Option<ListState> {
    if name in lists then Some(lists[name]) else None
  }

  /** The stored list, or the placeholder that is created for it. */
  function Local(before: Option<ListState>, name: string): ListState {
    if before.Some? then before.value else Placeholder(name)
  }

  predicate Invalid(l: ListState, e: Entry) {
    e.url == "" || e.creationTime < l.creationTime || e.fileID == ""
  }

  predicate Renews(l: ListState, e: Entry) {
    e.fileID != l.fileID && e.creationTime >= l.creationTime
  }

  function Renewed(l: ListState, e: Entry): ListState {
    ListState(l.name, 0, e.creationTime, e.url, e.fileID, Some({}))
  }

  /** The list a download would work on: started afresh when the server has another, not older file. */
  function Prepared(l: ListState, e: Entry): ListState {
    if !Invalid(l, e) && Renews(l, e) then Renewed(l, e) else l
  }

  predicate Wanted(l: ListState, e: Entry) {
    !Invalid(l, e) && e.size > Prepared(l, e).size
  }

  predicate Usable(a: Answer) {
    a.Got? && a.contentLength.Some? && a.contentLength.value > 0 && a.body.Some?
  }

  predicate Corrupt(a: Answer) {
    Usable(a) && (|a.body.value| <= 1 || (a.body.value[0] != '-' && a.body.value[0] != '+'))
  }

  function Ids(l: ListState): set<string> { if l.ids.Some? then l.ids.value else {} }

  /** What a download leaves of a list; `None` when a corrupt body gets it deleted. */
  function Downloaded(l: ListState, a: Answer): Option<ListState> {
    if !Usable(a) then Some(l)
    else if Corrupt(a) then None
    else Some(l.(ids := Some(Replay(Ids(l), a.body.value)), size := l.size + a.contentLength.value))
  }

  function DownloadOf(name: string, p: ListState, get: Downloads): Answer {
    get(name, p.url, p.size)
  }

  /** One list the server names, from before the synchronization to after it. */
  function SyncOne(before: Option<ListState>, name: string, e: Entry, get: Downloads): Option<ListState> {
    var p := Prepared(Local(before, name), e);
    if Wanted(Local(before, name), e) then Downloaded(p, DownloadOf(name, p, get)) else Some(p)
  }

  /** All lists: those the server does not name are dropped. */
  function SyncAll(lists: Lists, server: map<string, Entry>, get: Downloads): Lists {
    map n | n in server && SyncOne(Lookup(lists, n), n, server[n], get).Some? ::
      SyncOne(Lookup(lists, n), n, server[n], get).value
  }

  // ----- One synchronization, whatever the server answers. -----

  /** A placeholder, or a list with a file and allocated ids. */
  predicate WellFormed(l: ListState) {
    || (l.fileID == "" && l.size == 0 && l.creationTime == 0 && l.ids.None?)
    || (l.fileID != "" && l.ids.Some?)
  }

  predicate AllWellFormed(lists: Lists) {
    forall n <- lists :: WellFormed(lists[n]) && lists[n].name == n
  }

  /** Lists stay well formed, and a download never works on unallocated ids. */
  lemma SyncKeepsWellFormed(lists: Lists, server: map<string, Entry>, get: Downloads)
    requires AllWellFormed(lists)
    ensures AllWellFormed(SyncAll(lists, server, get))
    ensures forall n <- server :: Wanted(Local(Lookup(lists, n), n), server[n]) ==>
              Prepared(Local(Lookup(lists, n), n), server[n]).ids.Some?
  {
  }

  predicate CorruptDownload(lists: Lists, n: string, e: Entry, get: Downloads) {
    var l := Local(Lookup(lists, n), n);
    Wanted(l, e) && Corrupt(DownloadOf(n, Prepared(l, e), get))
  }

  /** The stored names are exactly the server's, minus those whose download was corrupt. */
  lemma SyncNames(lists: Lists, server: map<string, Entry>, get: Downloads)
    ensures SyncAll(lists, server, get).Keys == set n | n in server && !CorruptDownload(lists, n, server[n], get)
  {
  }

  /** How a list that stays stored may change: never to an older file; within one file, only by a download that
      makes it strictly longer. */
  predicate Advances(l: ListState, l': ListState) {
    && l.creationTime <= l'.creationTime
    && (l.fileID == l'.fileID ==> l' == l || (l.size < l'.size && l'.creationTime == l.creationTime && l'.url == l.url))
  }

  lemma SyncAdvances(lists: Lists, server: map<string, Entry>, get: Downloads)
    ensures forall n <- SyncAll(lists, server, get) :: n in lists ==> Advances(lists[n], SyncAll(lists, server, get)[n])
  {
  }

  // ----- Runs of synchronizations. -----

  /** One round: the list of lists could not be fetched, or it was, and the downloads are answered in some way. */
  datatype Round = NoLists | Round(server: map<string, Entry>, get: Downloads)

  function AfterRound(lists: Lists, r: Round): Lists {
    if r.NoLists? then lists else SyncAll(lists, r.server, r.get)
  }

  /** The stored lists after each round, starting from a new store. */
  function AfterRun(rounds: seq<Round>): Lists {
    if rounds == [] then map[] else AfterRound(AfterRun(rounds[..|rounds| - 1]), rounds[|rounds| - 1])
  }

  /** In every reachable state every list is well formed. */
  lemma {:induction false} RunWellFormed(rounds: seq<Round>)
    ensures AllWellFormed(AfterRun(rounds))
  {
    if rounds != [] {
      RunWellFormed(rounds[..|rounds| - 1]);
      var r := rounds[|rounds| - 1];
      if r.Round? {
        SyncKeepsWellFormed(AfterRun(rounds[..|rounds| - 1]), r.server, r.get);
      }
    }
  }

  predicate IsPlaceholder(lists: Lists, n: string) {
    n in lists && lists[n].ids.None?
  }

  /** An entry that no new list is given a file for. */
  predicate Hopeless(e: Entry) {
    e.url == "" || e.fileID == "" || e.creationTime < 0
  }

  /** From round `i` on, when the name was not stored, every list of lists has had a hopeless entry for it. */
  predicate HopelessSince(rounds: seq<Round>, n: string, i: nat)
    requires i < |rounds|
  {
    && rounds[i].Round? && n !in AfterRun(rounds[..i])
    && forall j :: i <= j < |rounds| && rounds[j].Round? ==> n in rounds[j].server && Hopeless(rounds[j].server[n])
  }

  lemma PlaceholderAfterOne(before: Option<ListState>, n: string, e: Entry, get: Downloads)
    requires before.Some? ==> WellFormed(before.value)
    ensures var l := SyncOne(before, n, e, get);
            l.Some? && l.value.ids.None? <==> (before.Some? ==> before.value.ids.None?) && Hopeless(e)
  {
  }

  /** Over every run: a name is stored as a placeholder exactly when its entries have all been hopeless since it was
      last not stored. */
  lemma {:induction false} PlaceholderExactly(rounds: seq<Round>, n: string)
    ensures IsPlaceholder(AfterRun(rounds), n) <==> exists i: nat :: i < |rounds| && HopelessSince(rounds, n, i)
  {
    if rounds != [] {
      var k := |rounds| - 1;
      var init, r := rounds[..k], rounds[k];
      PlaceholderExactly(init, n);
      RunWellFormed(init);
      if r.Round? && n in r.server {
        PlaceholderAfterOne(Lookup(AfterRun(init), n), n, r.server[n], r.get);
      }
      var goesOn := r.Round? ==> n in r.server && Hopeless(r.server[n]);
      forall i: nat | i < k ensures HopelessSince(rounds, n, i) <==> HopelessSince(init, n, i) && goesOn {
        HopelessOneMore(rounds, n, i);
      }
      assert HopelessSince(rounds, n, k) <==> r.Round? && n !in AfterRun(init) && goesOn;
    }
  }

  lemma HopelessOneMore(rounds: seq<Round>, n: string, i: nat)
    requires i < |rounds| - 1
    ensures var r := rounds[|rounds| - 1];
            HopelessSince(rounds, n, i) <==>
            HopelessSince(rounds[..|rounds| - 1], n, i) && (r.Round? ==> n in r.server && Hopeless(r.server[n]))
  {
    var init := rounds[..|rounds| - 1];
    assert rounds[..i] == init[..i];
    assert forall j :: 0 <= j < |init| ==> init[j] == rounds[j];
  }

  /** One round with an empty entry leaves one. */
  lemma EmptyEntryLeavesPlaceholder(n: string, get: Downloads)
    ensures AfterRun([Round(map[n := Entry(0, 0, "", "")], get)]) == map[n := Placeholder(n)]
  {
    var r := Round(map[n := Entry(0, 0, "", "")], get);
    assert [r][..0] == [] && AfterRun([]) == map[];
  }

  /** While a name stays stored its creation time never decreases, over any number of rounds. */
  lemma {:induction false} CreationTimeNeverDecreases(rounds: seq<Round>, i: nat, n: string)
    requires i <= |rounds| && n in AfterRun(rounds)
    requires forall j :: i <= j <= |rounds| ==> n in AfterRun(rounds[..j])
    ensures AfterRun(rounds[..i])[n].creationTime <= AfterRun(rounds)[n].creationTime
    decreases |rounds|
  {
    assert rounds[..|rounds|] == rounds;
    if i < |rounds| {
      var init, last := rounds[..|rounds| - 1], rounds[|rounds| - 1];
      forall j | i <= j <= |init| ensures init[..j] == rounds[..j] && n in AfterRun(init[..j]) {}
      CreationTimeNeverDecreases(init, i, n);
      assert init[..|init|] == init;
      if last.Round? {
        SyncAdvances(AfterRun(init), last.server, last.get);
      }
    }
  }

  // ----- A list's creation time is that of its file. -----

  /** The entries for a file, wherever a round has them, carry the time the file was made. */
  predicate Dated(r: Round, born: string -> int) {
    r.Round? ==> forall n <- r.server :: r.server[n].fileID != "" ==>
      r.server[n].creationTime == born(r.server[n].fileID)
  }

  /** Then over every run each list with a file carries its file's time. */
  lemma {:induction false} CreatedWithFile(rounds: seq<Round>, born: string -> int)
    requires forall r <- rounds :: Dated(r, born)
    ensures forall n <- AfterRun(rounds) ::
              AfterRun(rounds)[n].fileID != "" ==> AfterRun(rounds)[n].creationTime == born(AfterRun(rounds)[n].fileID)
  {
    if rounds != [] {
      var init, last := rounds[..|rounds| - 1], rounds[|rounds| - 1];
      CreatedWithFile(init, born);
      RunWellFormed(init);
      assert Dated(last, born);
    }
  }

  lemma {:induction false} FileStays(rounds: seq<Round>, i: nat, n: string)
    requires i <= |rounds| && n in AfterRun(rounds[..i]) && AfterRun(rounds[..i])[n].fileID != ""
    requires forall j :: i <= j <= |rounds| ==> n in AfterRun(rounds[..j])
    ensures n in AfterRun(rounds) && AfterRun(rounds)[n].fileID != ""
    decreases |rounds|
  {
    assert rounds[..|rounds|] == rounds;
    if i < |rounds| {
      var init := rounds[..|rounds| - 1];
      assert init[..i] == rounds[..i];
      forall j | i <= j <= |init| ensures init[..j] == rounds[..j] && n in AfterRun(init[..j]) {}
      FileStays(init, i, n);
    }
  }

  /** So a list never goes back to an older file while its name stays stored, even if a stale server offers it one. */
  lemma NeverAnOlderFile(rounds: seq<Round>, i: nat, n: string, born: string -> int)
    requires forall r <- rounds :: Dated(r, born)
    requires i <= |rounds| && n in AfterRun(rounds[..i]) && AfterRun(rounds[..i])[n].fileID != ""
    requires forall j :: i <= j <= |rounds| ==> n in AfterRun(rounds[..j])
    ensures n in AfterRun(rounds)
    ensures born(AfterRun(rounds[..i])[n].fileID) <= born(AfterRun(rounds)[n].fileID)
  {
    assert rounds[..|rounds|] == rounds;
    FileStays(rounds, i, n);
    CreationTimeNeverDecreases(rounds, i, n);
    CreatedWithFile(rounds[..i], born);
    CreatedWithFile(rounds, born);
  }

  // ----- What one round does to one list, case by case. -----

  /** An entry is taken up unless it lacks a URL or a file or is older than the list. A taken-up entry for another file
      starts the list over, with all the entry says; for the same file the list is kept. Nothing is downloaded unless
      the entry announces more than the list then has. */
  lemma WhatIsDownloaded(before: Option<ListState>, n: string, e: Entry, get: Downloads)
    requires before.Some? ==> WellFormed(before.value)
    ensures var was := if before.Some? then before.value else ListState(n, 0, 0, "", "", None);
            var start := ListState(was.name, 0, e.creationTime, e.url, e.fileID, Some({}));
            var after := SyncOne(before, n, e, get);
            && (e.url == "" || e.fileID == "" || e.creationTime < was.creationTime ==> after == Some(was))
            && (e.url != "" && e.fileID != "" && e.creationTime >= was.creationTime ==>
                  && (e.fileID == was.fileID && e.size <= was.size ==> after == Some(was))
                  && (e.fileID == was.fileID && e.size > was.size ==>
                        after == Downloaded(was, get(n, was.url, was.size)))
                  && (e.fileID != was.fileID && e.size <= 0 ==> after == Some(start))
                  && (e.fileID != was.fileID && e.size > 0 ==> after == Downloaded(start, get(n, e.url, 0))))
  {
  }

  /** A failed request or a body without a positive length leaves the list; one of at most one character, or that starts
      with no sign, deletes it; any other is replayed into its ids and its announced length added to its size. */
  lemma WhatIsApplied(l: ListState, a: Answer)
    requires l.ids.Some?
    ensures var after := Downloaded(l, a);
            && (a == Failed ==> after == Some(l))
            && (forall length: Option<int>, body: Option<string> :: a == Got(length, body) ==>
                  var usable := length.Some? && length.value > 0 && body.Some?;
                  && (!usable ==> after == Some(l))
                  && (usable && (|body.value| <= 1 || body.value[0] !in {'+', '-'}) ==> after == None)
                  && (usable && |body.value| > 1 && body.value[0] in {'+', '-'} ==>
                        after == Some(ListState(l.name, l.size + length.value, l.creationTime, l.url, l.fileID,
                                                Some(Replay(l.ids.value, body.value))))))
  {
  }

  // ----- Replication of append-only files. -----

  type Files = map<string, string>

  predicate AtLineEnd(file: string, k: int) {
    0 <= k <= |file| && (k == 0 || file[k - 1] == '\n')
  }

  /** What the first `k` bytes of a file give. */
  function Beginning(file: string, k: int): Option<set<string>>
  {
    if 0 <= k <= |file| then Some(Replay({}, file[..k])) else None
  }

  predicate HoldsUpTo(ids: Option<set<string>>, file: string, k: int) {
    AtLineEnd(file, k) && ids.Some? && ids == Beginning(file, k)
  }

  /** The list holds exactly what replaying the first `size` bytes of its file from nothing gives. */
  predicate Replicates(l: ListState, files: Files, fileAt: string -> string) {
    l.fileID != "" ==>
      && l.fileID in files && fileAt(l.url) == l.fileID
      && HoldsUpTo(l.ids, files[l.fileID], l.size)
  }

  predicate AllReplicate(lists: Lists, files: Files, fileAt: string -> string) {
    forall n <- lists :: Replicates(lists[n], files, fileAt)
  }

  /** A body that will be applied is the exact suffix asked for, cut at a line end, and its content-length is its
      length. Bodies that read as corrupt, such as error pages, may be anything. */
  predicate HonestAnswer(a: Answer, file: string, from: int)
    requires 0 <= from <= |file|
  {
    Usable(a) && !Corrupt(a) ==>
      var body := a.body.value;
      && a.contentLength.value == |body|
      && body <= file[from..]
      && (body == "" || EndsInNewline(body))
  }

  /** The server's entries point at the files they name. Nothing is asked of invalid entries or of announced sizes. */
  predicate PointsRight(server: map<string, Entry>, files: Files, fileAt: string -> string) {
    forall n <- server :: server[n].url != "" && server[n].fileID != "" ==>
      fileAt(server[n].url) == server[n].fileID && server[n].fileID in files
  }

  /** Entries point right, and downloads within a file are honest. Nothing is asked of requests past a file's end. */
  ghost predicate Honest(r: Round, files: Files, fileAt: string -> string) {
    r.Round? ==>
      && PointsRight(r.server, files, fileAt)
      && (forall name: string, url: string, from: int :: fileAt(url) in files && 0 <= from <= |files[fileAt(url)]| ==>
            HonestAnswer(r.get(name, url, from), files[fileAt(url)], from))
  }

  predicate Grows(files: Files, files': Files) {
    forall f <- files :: f in files' && files[f] <= files'[f]
  }

  lemma GrowthKeepsReplicas(lists: Lists, files: Files, files': Files, fileAt: string -> string)
    requires AllReplicate(lists, files, fileAt) && Grows(files, files')
    ensures AllReplicate(lists, files', fileAt)
  {
    forall n <- lists | lists[n].fileID != "" ensures Replicates(lists[n], files', fileAt) {
      assert Replicates(lists[n], files, fileAt);
      var f := lists[n].fileID;
      assert files'[f][..lists[n].size] == files[f][..lists[n].size];
    }
  }

  /** Appending an honest suffix to a replayed beginning of the file replays the longer beginning. */
  lemma ReplayGoesOn(ids: set<string>, file: string, k: int, body: string)
    requires AtLineEnd(file, k) && Beginning(file, k) == Some(ids)
    requires body <= file[k..] && (body == "" || EndsInNewline(body))
    ensures AtLineEnd(file, k + |body|) && Beginning(file, k + |body|) == Some(Replay(ids, body))
  {
    var done := file[..k];
    assert file[..k + |body|] == done + body;
    IncrementalReplay({}, done, body);
    if body != "" {
      assert file[k + |body| - 1] == (done + body)[k + |body| - 1];
    }
  }

  lemma AppliedHolds(ids: Option<set<string>>, file: string, k: int, body: string)
    requires HoldsUpTo(ids, file, k) && body <= file[k..] && EndsInNewline(body)
    ensures HoldsUpTo(Some(Replay(ids.value, body)), file, k + |body|)
  {
    ReplayGoesOn(ids.value, file, k, body);
  }

  lemma DownloadHolds(p: ListState, a: Answer, file: string)
    requires HoldsUpTo(p.ids, file, p.size) && HonestAnswer(a, file, p.size)
    ensures var l := Downloaded(p, a); l.Some? ==> HoldsUpTo(l.value.ids, file, l.value.size)
  {
    if Usable(a) && !Corrupt(a) {
      AppliedHolds(p.ids, file, p.size, a.body.value);
    }
  }

  lemma DownloadReplicates(p: ListState, a: Answer, files: Files, fileAt: string -> string)
    requires p.fileID != "" && Replicates(p, files, fileAt) && HonestAnswer(a, files[p.fileID], p.size)
    ensures Downloaded(p, a).Some? ==> Replicates(Downloaded(p, a).value, files, fileAt)
  {
    DownloadHolds(p, a, files[p.fileID]);
  }

  lemma PreparedReplicates(before: Option<ListState>, n: string, r: Round, files: Files, fileAt: string -> string)
    requires before.Some? ==> Replicates(before.value, files, fileAt)
    requires r.Round? && n in r.server && PointsRight(r.server, files, fileAt)
    requires WellFormed(Local(before, n))
    ensures Replicates(Prepared(Local(before, n), r.server[n]), files, fileAt)
  {
    var p := Prepared(Local(before, n), r.server[n]);
    if !Invalid(Local(before, n), r.server[n]) && Renews(Local(before, n), r.server[n]) {
      assert files[p.fileID][..0] == "";
      NothingInNoText();
    }
  }

  lemma OneReplicates(before: Option<ListState>, n: string, r: Round, files: Files, fileAt: string -> string)
    requires before.Some? ==> Replicates(before.value, files, fileAt)
    requires r.Round? && n in r.server && Honest(r, files, fileAt)
    requires WellFormed(Local(before, n))
    ensures var l := SyncOne(before, n, r.server[n], r.get); l.Some? ==> Replicates(l.value, files, fileAt)
  {
    var p := Prepared(Local(before, n), r.server[n]);
    PreparedReplicates(before, n, r, files, fileAt);
    if Wanted(Local(before, n), r.server[n]) {
      DownloadReplicates(p, DownloadOf(n, p, r.get), files, fileAt);
    }
  }

  lemma RoundReplicates(before: Lists, r: Round, files: Files, fileAt: string -> string)
    requires AllWellFormed(before) && AllReplicate(before, files, fileAt) && Honest(r, files, fileAt)
    ensures AllReplicate(AfterRound(before, r), files, fileAt)
  {
    if r.Round? {
      forall n <- AfterRound(before, r) ensures Replicates(AfterRound(before, r)[n], files, fileAt) {
        OneReplicates(Lookup(before, n), n, r, files, fileAt);
      }
    }
  }

  /** Over every run of rounds against growing files, honestly served: after each round every stored list that has a
      file replicates it up to its size, across renewals, skips, failed downloads and deletions. */
  lemma {:induction false} RunReplicates(rounds: seq<Round>, history: seq<Files>, fileAt: string -> string)
    requires |history| == |rounds|
    requires forall i :: 0 <= i < |rounds| ==> Honest(rounds[i], history[i], fileAt)
    requires forall i :: 0 < i < |rounds| ==> Grows(history[i - 1], history[i])
    ensures rounds != [] ==> AllReplicate(AfterRun(rounds), history[|rounds| - 1], fileAt)
  {
    if rounds != [] {
      var k := |rounds| - 1;
      RunReplicates(rounds[..k], history[..k], fileAt);
      RunWellFormed(rounds[..k]);
      if k > 0 {
        GrowthKeepsReplicas(AfterRun(rounds[..k]), history[k - 1], history[k], fileAt);
      }
      RoundReplicates(AfterRun(rounds[..k]), rounds[k], history[k], fileAt);
    }
  }

  /** A list that catches up with its whole file holds the whole file's ids. */
  lemma CaughtUp(l: ListState, files: Files, fileAt: string -> string)
    requires l.fileID != "" && Replicates(l, files, fileAt) && l.size == |files[l.fileID]|
    ensures forall id :: id in Ids(l) <==>
              exists k: nat :: LastAbout(Ops(files[l.fileID]), k, id) && Ops(files[l.fileID])[k].Add?
  {
    var file := files[l.fileID];
    assert file[..l.size] == file;
    forall id ensures id in Ids(l) <==> exists k: nat :: LastAbout(Ops(file), k, id) && Ops(file)[k].Add? {
      LastOpWins({}, Ops(file), id);
    }
  }

  /** One round catches a list up: if a good entry announces more than the list has of the entry's file, and all that is
      missing comes, the list afterwards holds exactly the ids whose last line in the file adds them. */
  lemma RoundCatchesUp(before: Lists, n: string, r: Round, files: Files, fileAt: string -> string)
    requires AllWellFormed(before) && AllReplicate(before, files, fileAt) && Honest(r, files, fileAt)
    requires r.Round? && n in r.server
    requires var e := r.server[n];
             var known := n in before && before[n].fileID == e.fileID;
             var size, url := if known then before[n].size else 0, if known then before[n].url else e.url;
             && e.url != "" && e.fileID in files && e.fileID != "" && e.size > size
             && e.creationTime >= (if n in before then before[n].creationTime else 0)
             && 0 <= size <= |files[e.fileID]|
             && var missing := files[e.fileID][size..];
                && |missing| > 1 && missing[0] in {'+', '-'}
                && r.get(n, url, size) == Got(Some(|missing|), Some(missing))
    ensures n in AfterRound(before, r)
    ensures var l, file := AfterRound(before, r)[n], files[r.server[n].fileID];
            && l.fileID == r.server[n].fileID && l.size == |file|
            && forall id :: id in Ids(l) <==> exists k: nat :: LastAbout(Ops(file), k, id) && Ops(file)[k].Add?
  {
    var p := Prepared(Local(Lookup(before, n), n), r.server[n]);
    OneReplicates(Lookup(before, n), n, r, files, fileAt);
    var l := SyncOne(Lookup(before, n), n, r.server[n], r.get).value;
    PreparedReplicates(Lookup(before, n), n, r, files, fileAt);
    assert HonestAnswer(DownloadOf(n, p, r.get), files[p.fileID], p.size);
    CaughtUp(l, files, fileAt);
  }
}
