/** Servers that answer a request for a part of a file with the whole file, which the synchronization does not see. */
module IgnoredRanges {
  import opened Strings
  import opened IdListReplay
  import opened IdListSync

  /** The answer is the whole file, whatever part of it was asked for. */
  predicate WholeFile(a: Answer, file: string) {
    Usable(a) && !Corrupt(a) && a.body.value == file && a.contentLength.value == |file|
  }

  /** A whole file gives its ids to a list that replicated a beginning of it, but its length is added to the size: the
      list replicates the file up to its size exactly when it started from nothing and the file ends its last line. */
  lemma WholeFileExactly(p: ListState, a: Answer, file: string)
    requires HoldsUpTo(p.ids, file, p.size) && WholeFile(a, file)
    ensures var l := Downloaded(p, a);
            && l.Some? && l.value.size == p.size + |file| && l.value.ids == Some(Replay({}, file))
            && (HoldsUpTo(l.value.ids, file, l.value.size) <==> p.size == 0 && EndsInNewline(file))
  {
    WholeFileReplays(Ids(p), a, file, p.size);
    assert file[..|file|] == file;
  }

  lemma WholeFileReplays(ids: set<string>, a: Answer, file: string, k: int)
    requires HoldsUpTo(Some(ids), file, k) && WholeFile(a, file)
    ensures Replay(ids, file) == Replay({}, file)
  {
    assert file[..k] + file[k..] == file;
    ReplayOverPrefix({}, file[..k], file[k..]);
  }

  /** Downloads within a file are honest, or the whole file. */
  ghost predicate HonestOrWhole(r: Round, files: Files, fileAt: string -> string) {
    r.Round? ==>
      && PointsRight(r.server, files, fileAt)
      && (forall name: string, url: string, from: int :: fileAt(url) in files && 0 <= from <= |files[fileAt(url)]| ==>
            || HonestAnswer(r.get(name, url, from), files[fileAt(url)], from)
            || WholeFile(r.get(name, url, from), files[fileAt(url)]))
  }

  /** The download of `n` brings a whole file to a list that has a part of it already, or a file whose last line is not
      ended. */
  predicate Overlaps(before: Option<ListState>, n: string, r: Round, files: Files)
    requires r.Round? && n in r.server
  {
    var p := Prepared(Local(before, n), r.server[n]);
    && Wanted(Local(before, n), r.server[n]) && p.fileID in files
    && WholeFile(DownloadOf(n, p, r.get), files[p.fileID])
    && !(p.size == 0 && EndsInNewline(files[p.fileID]))
  }

  predicate NoneOverlaps(before: Lists, r: Round, files: Files) {
    r.Round? ==> forall n <- r.server :: !Overlaps(Lookup(before, n), n, r, files)
  }

  lemma OneReplicatesExactly(before: Option<ListState>, n: string, r: Round, files: Files, fileAt: string -> string)
    requires before.Some? ==> Replicates(before.value, files, fileAt)
    requires r.Round? && n in r.server && HonestOrWhole(r, files, fileAt)
    requires WellFormed(Local(before, n))
    ensures var l := SyncOne(before, n, r.server[n], r.get);
            (l.Some? ==> Replicates(l.value, files, fileAt)) <==> !Overlaps(before, n, r, files)
  {
    var p := Prepared(Local(before, n), r.server[n]);
    PreparedReplicates(before, n, r, files, fileAt);
    if Wanted(Local(before, n), r.server[n]) {
      var a, file := DownloadOf(n, p, r.get), files[p.fileID];
      assert HonestAnswer(a, file, p.size) || WholeFile(a, file);
      if WholeFile(a, file) {
        WholeFileExactly(p, a, file);
      } else {
        DownloadReplicates(p, a, files, fileAt);
      }
    }
  }

  lemma RoundReplicatesExactly(before: Lists, r: Round, files: Files, fileAt: string -> string)
    requires AllWellFormed(before) && AllReplicate(before, files, fileAt) && HonestOrWhole(r, files, fileAt)
    ensures AllReplicate(AfterRound(before, r), files, fileAt) <==> NoneOverlaps(before, r, files)
  {
    if r.Round? {
      var after := AfterRound(before, r);
      forall n <- r.server
        ensures (n in after ==> Replicates(after[n], files, fileAt)) <==> !Overlaps(Lookup(before, n), n, r, files)
      {
        OneReplicatesExactly(Lookup(before, n), n, r, files, fileAt);
      }
    }
  }

  /** After each of these rounds every list that has a file replicates it up to its size. */
  ghost predicate AlwaysReplicates(rounds: seq<Round>, history: seq<Files>, fileAt: string -> string)
    requires |history| == |rounds|
  {
    forall k :: 0 <= k < |rounds| ==> AllReplicate(AfterRun(rounds[..k + 1]), history[k], fileAt)
  }

  ghost predicate NeverOverlaps(rounds: seq<Round>, history: seq<Files>)
    requires |history| == |rounds|
  {
    forall k :: 0 <= k < |rounds| ==> NoneOverlaps(AfterRun(rounds[..k]), rounds[k], history[k])
  }

  lemma RoundOfRun(rounds: seq<Round>, history: seq<Files>, fileAt: string -> string, k: nat)
    requires k < |rounds| == |history| && HonestOrWhole(rounds[k], history[k], fileAt)
    requires k > 0 ==>
               Grows(history[k - 1], history[k]) && AllReplicate(AfterRun(rounds[..k]), history[k - 1], fileAt)
    ensures AllReplicate(AfterRun(rounds[..k + 1]), history[k], fileAt) <==>
            NoneOverlaps(AfterRun(rounds[..k]), rounds[k], history[k])
  {
    assert rounds[..k + 1][..k] == rounds[..k];
    RunWellFormed(rounds[..k]);
    if k > 0 {
      GrowthKeepsReplicas(AfterRun(rounds[..k]), history[k - 1], history[k], fileAt);
    }
    RoundReplicatesExactly(AfterRun(rounds[..k]), rounds[k], history[k], fileAt);
  }

  /** Over every run against growing files, where what gets applied is what was asked for or the whole file: replication
      survives every round if and only if no whole file ever comes to a list that already has a part of it. */
  lemma RunReplicatesExactly(rounds: seq<Round>, history: seq<Files>, fileAt: string -> string)
    requires |history| == |rounds|
    requires forall i :: 0 <= i < |rounds| ==> HonestOrWhole(rounds[i], history[i], fileAt)
    requires forall i :: 0 < i < |rounds| ==> Grows(history[i - 1], history[i])
    ensures AlwaysReplicates(rounds, history, fileAt) <==> NeverOverlaps(rounds, history)
  {
    for k := 0 to |rounds|
      invariant (forall j :: 0 <= j < k ==> AllReplicate(AfterRun(rounds[..j + 1]), history[j], fileAt)) <==>
                (forall j :: 0 <= j < k ==> NoneOverlaps(AfterRun(rounds[..j]), rounds[j], history[j]))
    {
      if forall j :: 0 <= j < k ==> AllReplicate(AfterRun(rounds[..j + 1]), history[j], fileAt) {
        assert k > 0 ==> AllReplicate(AfterRun(rounds[..k - 1 + 1]), history[k - 1], fileAt);
        RoundOfRun(rounds, history, fileAt, k);
      }
    }
  }

  /** A list is left as it is by an entry that is invalid, or names the same file and announces no more than the list's
      size, too large as that may be. */
  predicate NothingNew(l: ListState, e: Entry) {
    Invalid(l, e) || (!Renews(l, e) && e.size <= l.size)
  }

  /** It then stays as it is over any number of such rounds, whatever happens to its file. */
  lemma {:induction false} StaysAsItIs(rounds: seq<Round>, i: nat, n: string)
    requires i <= |rounds| && n in AfterRun(rounds[..i])
    requires forall j :: i <= j < |rounds| && rounds[j].Round? ==>
               n in rounds[j].server && NothingNew(AfterRun(rounds[..i])[n], rounds[j].server[n])
    ensures n in AfterRun(rounds) && AfterRun(rounds)[n] == AfterRun(rounds[..i])[n]
    decreases |rounds|
  {
    if i == |rounds| {
      assert rounds[..i] == rounds;
    } else {
      var init := rounds[..|rounds| - 1];
      assert init[..i] == rounds[..i];
      StaysAsItIs(init, i, n);
    }
  }

  /** The ids are what some line-ended beginning of the file gives. */
  ghost predicate LagsBehind(l: ListState, files: Files, fileAt: string -> string) {
    l.fileID != "" ==>
      && l.fileID in files && fileAt(l.url) == l.fileID
      && exists k :: HoldsUpTo(l.ids, files[l.fileID], k)
  }

  ghost predicate AllLagBehind(lists: Lists, files: Files, fileAt: string -> string) {
    forall n <- lists :: LagsBehind(lists[n], files, fileAt)
  }

  /** What gets applied is always the whole file, with its last line ended, also past the file's end. */
  ghost predicate IgnoresRanges(r: Round, files: Files, fileAt: string -> string) {
    r.Round? ==>
      && PointsRight(r.server, files, fileAt)
      && (forall name: string, url: string, from: int :: fileAt(url) in files ==>
            var a, file := r.get(name, url, from), files[fileAt(url)];
            Usable(a) && !Corrupt(a) ==> WholeFile(a, file) && EndsInNewline(file))
  }

  lemma StillABeginning(ids: Option<set<string>>, file: string, file': string, k: int)
    requires HoldsUpTo(ids, file, k) && file <= file'
    ensures HoldsUpTo(ids, file', k)
  {
    assert file'[..k] == file[..k];
  }

  lemma GrowthKeepsBeginnings(lists: Lists, files: Files, files': Files, fileAt: string -> string)
    requires AllLagBehind(lists, files, fileAt) && Grows(files, files')
    ensures AllLagBehind(lists, files', fileAt)
  {
    forall n <- lists | lists[n].fileID != "" ensures LagsBehind(lists[n], files', fileAt) {
      var l := lists[n];
      assert LagsBehind(l, files, fileAt);
      var k :| HoldsUpTo(l.ids, files[l.fileID], k);
      StillABeginning(l.ids, files[l.fileID], files'[l.fileID], k);
    }
  }

  lemma DownloadLags(p: ListState, a: Answer, file: string, k: int)
    requires HoldsUpTo(p.ids, file, k)
    requires Usable(a) && !Corrupt(a) ==> WholeFile(a, file) && EndsInNewline(file)
    ensures var l := Downloaded(p, a); l.Some? ==> HoldsUpTo(l.value.ids, file, if Usable(a) then |file| else k)
  {
    if Usable(a) && !Corrupt(a) {
      WholeFileReplays(Ids(p), a, file, k);
      assert file[..|file|] == file;
    }
  }

  lemma OneLags(before: Option<ListState>, n: string, r: Round, files: Files, fileAt: string -> string)
    requires before.Some? ==> LagsBehind(before.value, files, fileAt)
    requires r.Round? && n in r.server && IgnoresRanges(r, files, fileAt)
    requires WellFormed(Local(before, n))
    ensures var l := SyncOne(before, n, r.server[n], r.get); l.Some? ==> LagsBehind(l.value, files, fileAt)
  {
    var p := Prepared(Local(before, n), r.server[n]);
    if p.fileID != "" {
      var k: int := 0;
      if p != Local(before, n) {
        assert files[p.fileID][..0] == "";
        NothingInNoText();
      } else {
        k :| HoldsUpTo(p.ids, files[p.fileID], k);
      }
      assert HoldsUpTo(p.ids, files[p.fileID], k);
      DownloadLags(p, DownloadOf(n, p, r.get), files[p.fileID], k);
    }
  }

  lemma RoundLags(before: Lists, r: Round, files: Files, fileAt: string -> string)
    requires AllWellFormed(before) && AllLagBehind(before, files, fileAt) && IgnoresRanges(r, files, fileAt)
    ensures AllLagBehind(AfterRound(before, r), files, fileAt)
  {
    if r.Round? {
      forall n <- AfterRound(before, r) ensures LagsBehind(AfterRound(before, r)[n], files, fileAt) {
        OneLags(Lookup(before, n), n, r, files, fileAt);
      }
    }
  }

  /** A server that ignores ranges never makes a list wrong, only late: over every run, its ids are those of some
      beginning of its file, up to a line's end. */
  lemma {:induction false} NeverWrongOnlyLate(rounds: seq<Round>, history: seq<Files>, fileAt: string -> string)
    requires |history| == |rounds|
    requires forall i :: 0 <= i < |rounds| ==> IgnoresRanges(rounds[i], history[i], fileAt)
    requires forall i :: 0 < i < |rounds| ==> Grows(history[i - 1], history[i])
    ensures rounds != [] ==> AllLagBehind(AfterRun(rounds), history[|rounds| - 1], fileAt)
  {
    if rounds != [] {
      var k := |rounds| - 1;
      var before := AfterRun(rounds[..k]);
      NeverWrongOnlyLate(rounds[..k], history[..k], fileAt);
      RunWellFormed(rounds[..k]);
      if k > 0 {
        GrowthKeepsBeginnings(before, history[k - 1], history[k], fileAt);
      }
      RoundLags(before, rounds[k], history[k], fileAt);
      assert AfterRun(rounds) == AfterRound(before, rounds[k]);
    }
  }

  /** A round in which the only list has this file, announced with its length and always served whole. */
  function WholeRound(file: string): Round {
    Round(map["list" := Entry(|file|, 0, "file", "file")], (name, url, from) => Got(Some(|file|), Some(file)))
  }

  /** What such a round makes of the list. */
  function Served(l: ListState, file: string): ListState {
    if |file| <= l.size then l else l.(ids := Some(Replay(Ids(l), file)), size := l.size + |file|)
  }

  const NEW_LIST := ListState("list", 0, 0, "file", "file", Some({}))

  lemma RoundOfWhole(before: Lists, l: ListState, file: string)
    requires EndsInNewline(file) && |file| > 1 && file[0] in {'+', '-'}
    requires l.fileID == "file" && l.creationTime == 0
    requires before == map["list" := l] || (before == map[] && l == NEW_LIST)
    ensures AfterRound(before, WholeRound(file)) == map["list" := Served(l, file)]
    ensures IgnoresRanges(WholeRound(file), map["file" := file], url => url)
  {
  }

  lemma OneMoreRound(rounds: seq<Round>, r: Round)
    ensures AfterRun(rounds + [r]) == AfterRound(AfterRun(rounds), r)
  {
    assert (rounds + [r])[..|rounds|] == rounds;
  }

  lemma AfterThreeRounds(f: string, g: string, h: string)
    requires forall file <- [f, g, h] :: EndsInNewline(file) && |file| > 1 && file[0] in {'+', '-'}
    ensures AfterRun([] + [WholeRound(f)] + [WholeRound(g)] + [WholeRound(h)]) ==
            map["list" := Served(Served(Served(NEW_LIST, f), g), h)]
  {
    var one, two := Served(NEW_LIST, f), Served(Served(NEW_LIST, f), g);
    assert f in [f, g, h] && g in [f, g, h] && h in [f, g, h];
    RoundOfWhole(map[], NEW_LIST, f);
    OneMoreRound([], WholeRound(f));
    RoundOfWhole(map["list" := one], one, g);
    OneMoreRound([] + [WholeRound(f)], WholeRound(g));
    RoundOfWhole(map["list" := two], two, h);
    OneMoreRound([] + [WholeRound(f)] + [WholeRound(g)], WholeRound(h));
  }

  function Line(sign: char, id: char): string { [sign, id] + "\n" }

  lemma LineReplays(ids: set<string>, sign: char, id: char)
    requires !IsSpace(id) && sign in {'+', '-'}
    ensures Replay(ids, Line(sign, id)) == if sign == '+' then ids + {[id]} else ids - {[id]}
  {
    var s := [sign, id];
    OpsOfEndedLine(s);
    OpsOfPlainLine(s);
    assert s[1..] == [id];
    var op := LineOps(s)[0];
    assert Apply(ids, [op]) == Apply(ApplyOne(ids, op), []);
  }

  lemma ThreeLines(a: char, b: char)
    requires !IsSpace(a) && !IsSpace(b) && a != b
    ensures var f := Line('+', a);
            var g := f + Line('+', b);
            Replay(Replay({}, f), g) == {[a], [b]} && Replay({}, g + Line('-', a)) == {[b]}
  {
    var f, l, m := Line('+', a), Line('+', b), Line('-', a);
    LineReplays({}, '+', a);
    LineReplays({[a]}, '+', a);
    LineReplays({[a]}, '+', b);
    LineReplays({[a], [b]}, '-', a);
    IncrementalReplay({[a]}, f, l);
    IncrementalReplay({}, f, l);
    IncrementalReplay({}, f + l, m);
    assert [a] != [b] by { assert [a][0] == a && [b][0] == b; }
    assert {[a]} + {[a]} == {[a]} && {[a]} + {[b]} == {[a], [b]} && {[a], [b]} - {[a]} == {[b]};
    assert {} + {[a]} == {[a]};
  }

  /** How late: the file "+a", "+b", "-a" grows by one line a round. After three rounds the list is as long as the file,
      but it has not seen the line that takes the first id away, and it stays so until the file outgrows it. */
  lemma LateForGood(a: char, b: char)
    requires !IsSpace(a) && !IsSpace(b) && a != b
    ensures var f := Line('+', a);
            var g := f + Line('+', b);
            var h := g + Line('-', a);
            var lists := AfterRun([] + [WholeRound(f)] + [WholeRound(g)] + [WholeRound(h)]);
            && "list" in lists && lists["list"].size == |h|
            && Ids(lists["list"]) == {[a], [b]} && Replay({}, h) == {[b]}
  {
    var f := Line('+', a);
    var g := f + Line('+', b);
    var h := g + Line('-', a);
    AfterThreeRounds(f, g, h);
    ThreeLines(a, b);
  }
}
