/** The synchronization as it runs: one spawning loop and one worker per download, interleaved step by step over
    shared list objects. */
module IdListWorkers {
  import opened Strings
  import opened IdListReplay
  import opened IdListSync

  class IdList {
    const name: string
    var size: int
    var creationTime: int
    var url: string
    var fileID: string
    var ids: Option<set<string>>

    constructor (s: ListState)
      ensures State() == s
    {
      name, size, creationTime, url, fileID, ids := s.name, s.size, s.creationTime, s.url, s.fileID, s.ids;
    }

    function State(): ListState reads this {
      ListState(name, size, creationTime, url, fileID, ids)
    }
  }

  // ----- What one name goes through. -----

  /** `Placing` to `Sizing` are the spawning loop's turn at a name; `Asking` to `Deleting` are its worker's. A phase
      lasts from one step that other goroutines can see to the next. */
  datatype Phase =
    | Waiting
    | Placing
    | Deciding
    | Replacing
    | Sizing
    | Asking
    | Applying(ops: seq<Op>, length: int)
    | Deleting
    | Settled

  /** All there is to know about one name: its list before, its entry and how its download is answered. */
  datatype Case = Case(name: string, before: Option<ListState>, entry: Entry, get: Downloads)
  {
    function Start(): ListState { Local(before, name) }
    function Goal(): ListState { Prepared(Start(), entry) }
    function Reply(): Answer { DownloadOf(name, Goal(), get) }
    predicate Valid() { !Invalid(Start(), entry) && Goal().ids.Some? }
  }

  predicate InSpawner(ph: Phase) { ph.Placing? || ph.Deciding? || ph.Replacing? || ph.Sizing? }

  /** The list that is being worked on is the one stored under the name. */
  predicate IsStored(ph: Phase) { ph.Deciding? || ph.Sizing? || ph.Asking? || ph.Deleting? || ph.Applying? }

  predicate IsPending(ph: Phase) { ph.Placing? || ph.Replacing? }

  /** How far the list `now` stored under a name, and the list `held` by whoever works on it, have come. */
  predicate PhaseOk(c: Case, ph: Phase, now: Option<ListState>, held: Option<ListState>) {
    && (IsStored(ph) ==> now == held && held.Some?)
    && (IsPending(ph) ==> held.Some?)
    && match ph
       case Waiting => now == c.before
       case Placing => c.before == None && now == None && held == Some(c.Start())
       case Deciding => held == Some(c.Start())
       case Replacing => now == Some(c.Start()) && c.Valid() && held == Some(c.Goal())
       case Sizing => c.Valid() && held == Some(c.Goal())
       case Asking => c.Valid() && Wanted(c.Start(), c.entry) && held == Some(c.Goal())
       case Applying(ops, length) =>
         && Wanted(c.Start(), c.entry) && Usable(c.Reply()) && !Corrupt(c.Reply())
         && length == c.Reply().contentLength.value
         && held.value == c.Goal().(ids := held.value.ids) && held.value.ids.Some?
         && Apply(held.value.ids.value, ops) == Replay(Ids(c.Goal()), c.Reply().body.value)
       case Deleting => c.Valid() && Wanted(c.Start(), c.entry) && Corrupt(c.Reply()) && held == Some(c.Goal())
       case Settled => now == SyncOne(c.before, c.name, c.entry, c.get)
  }

  /** While a name is at this phase, whatever is stored under it has no ids. */
  predicate SeenEmpty(c: Case, ph: Phase) {
    && c.Start().ids.None?
    && match ph
       case Waiting => c.before.Some?
       case Deciding => true
       case Replacing => true
       case Settled => Hopeless(c.entry)
       case _ => false
  }

  /** The checks on the entry lead to the right next phase. */
  lemma DecidedOk(c: Case, l: ListState)
    requires PhaseOk(c, Deciding, Some(l), Some(l)) && WellFormed(l)
    ensures Invalid(l, c.entry) ==> PhaseOk(c, Settled, Some(l), None)
    ensures !Invalid(l, c.entry) && Renews(l, c.entry) ==>
              PhaseOk(c, Replacing, Some(l), Some(Renewed(l, c.entry)))
    ensures !Invalid(l, c.entry) && !Renews(l, c.entry) ==> PhaseOk(c, Sizing, Some(l), Some(l))
  {
  }

  lemma AskedOk(c: Case, l: ListState)
    requires PhaseOk(c, Asking, Some(l), Some(l))
    ensures c.get(c.name, l.url, l.size) == c.Reply()
    ensures !Usable(c.Reply()) ==> PhaseOk(c, Settled, Some(l), None)
    ensures Corrupt(c.Reply()) ==> PhaseOk(c, Deleting, Some(l), Some(l))
    ensures Usable(c.Reply()) && !Corrupt(c.Reply()) ==>
              PhaseOk(c, Applying(Ops(c.Reply().body.value), c.Reply().contentLength.value), Some(l), Some(l))
  {
  }

  lemma AppliedOk(c: Case, ops: seq<Op>, length: int, l: ListState)
    requires PhaseOk(c, Applying(ops, length), Some(l), Some(l))
    ensures ops == [] ==> PhaseOk(c, Settled, Some(l.(size := l.size + length)), None)
    ensures ops != [] ==>
              var l' := l.(ids := Some(ApplyOne(l.ids.value, ops[0])));
              PhaseOk(c, Applying(ops[1..], length), Some(l'), Some(l'))
  {
  }

  function PhaseSteps(ph: Phase): nat {
    match ph
    case Waiting => 6
    case Placing => 5
    case Deciding => 4
    case Replacing => 3
    case Sizing => 2
    case Asking => 1
    case _ => 0
  }

  function WorkSteps(ph: Phase): nat {
    match ph
    case Applying(ops, _) => |ops| + 1
    case Deleting => 1
    case _ => 0
  }

  // ----- The store. -----

  class Store {
    var idLists: map<string, IdList>

    constructor ()
      ensures Valid() && Contents() == map[] && idLists == map[]
    {
      idLists := map[];
    }

    /** No two names ever share a list object. */
    ghost predicate Separate() reads this {
      forall m <- idLists, n <- idLists :: m != n ==> idLists[m] != idLists[n]
    }

    function Contents(): Lists
      reads this, idLists.Values
    {
      map n | n in idLists :: idLists[n].State()
    }

    /** What segment checks of an evaluation read of these lists. */
    function Members(): (members: map<string, Option<set<string>>>)
      reads this, idLists.Values
      ensures members == MembersOf(Contents())
    {
      map n | n in idLists :: idLists[n].ids
    }

    ghost predicate Valid()
      reads this, idLists.Values
    {
      Separate() && AllWellFormed(Contents())
    }

    method GetIDList(name: string) returns (list: IdList?)
      ensures if name in idLists then list == idLists[name] else list == null
    {
      if name in idLists {
        return idLists[name];
      }
      return null;
    }

    method SetIDList(name: string, list: IdList)
      modifies this
      ensures idLists == old(idLists)[name := list]
    {
      idLists := idLists[name := list];
    }

    method DeleteIDList(name: string)
      modifies this
      ensures idLists == old(idLists) - {name}
    {
      idLists := idLists - {name};
    }

    /** One synchronization, under every schedule: the outcome depends only on the lists before and on the answers. */
    method SyncIDLists(round: Round)
      requires Valid()
      modifies this, idLists.Values
      ensures Valid() && Contents() == AfterRound(old(Contents()), round)
      ensures fresh(idLists.Values - old(idLists.Values))
    {
      if round.Round? {
        SyncListed(round.server, round.get);
      }
    }

    method SyncListed(server: map<string, Entry>, get: Downloads)
      requires Valid()
      modifies this, idLists.Values
      ensures Valid() && Contents() == SyncAll(old(Contents()), server, get)
      ensures fresh(idLists.Values - old(idLists.Values))
    {
      var run := new Sync(this, server, get);
      run.Run();
      run.Sweep();
      SyncKeepsWellFormed(run.before, server, get);
    }
  }

  // ----- One synchronization. -----

  datatype Thread = Thread(phase: Phase, list: IdList?)

  class Sync {
    const store: Store
    const server: map<string, Entry>
    const get: Downloads
    /** Where the work on each name the server lists has got to, and the list object it holds. */
    var threads: map<string, Thread>
    /** The name the spawning loop is at. */
    var current: Option<string>

    ghost const before: Lists
    ghost var objects: set<IdList>

    constructor (store: Store, server: map<string, Entry>, get: Downloads)
      requires store.Valid()
      ensures Inv() && this.store == store && this.server == server && this.get == get
      ensures before == store.Contents() && objects == store.idLists.Values
      ensures threads == (map n | n in server :: Thread(Waiting, null)) && current == None
    {
      this.store, this.server, this.get := store, server, get;
      threads, current := map n | n in server :: Thread(Waiting, null), None;
      before := store.Contents();
      objects := store.idLists.Values;
      new;
      assert Shape();
      forall n ensures Now(n) == Lookup(before, n) {}
    }

    ghost function Now(n: string): Option<ListState>
      requires store.idLists.Values <= objects
      reads this, store, objects
    {
      if n in store.idLists then Some(store.idLists[n].State()) else None
    }

    ghost function Held(n: string): Option<ListState>
      requires n in threads && (threads[n].list != null ==> threads[n].list in objects)
      reads this, objects
    {
      if threads[n].list != null then Some(threads[n].list.State()) else None
    }

    ghost function CaseOf(n: string): Case
      requires n in server
    {
      Case(n, Lookup(before, n), server[n], get)
    }

    ghost predicate Shape()
      reads this, store
    {
      && threads.Keys == server.Keys
      && store.idLists.Values <= objects
      && store.Separate()
      && AllWellFormed(before)
      && (forall n <- threads :: threads[n].list != null ==> threads[n].list in objects)
      && (forall n <- threads :: InSpawner(threads[n].phase) <==> current == Some(n))
      && (current.Some? ==> current.value in threads)
      && (forall n <- threads :: IsStored(threads[n].phase) ==>
            n in store.idLists && store.idLists[n] == threads[n].list)
      && (forall n <- threads :: IsPending(threads[n].phase) ==> threads[n].list !in store.idLists.Values)
      && (forall n <- threads ::
            threads[n].list == null <==> threads[n].phase == Waiting || threads[n].phase == Settled)
    }

    ghost predicate Inv()
      reads this, store, objects
    {
      && Shape()
      && (forall n <- threads :: PhaseOk(CaseOf(n), threads[n].phase, Now(n), Held(n)))
      && (forall n :: n !in server ==> Now(n) == Lookup(before, n) || Now(n) == None)
    }

    ghost function Early(): set<(string, int)> reads this {
      set n, k | n in threads && 0 <= k < PhaseSteps(threads[n].phase) :: (n, k)
    }

    ghost function Late(): set<(string, int)> reads this {
      set n, k | n in threads && 0 <= k < WorkSteps(threads[n].phase) :: (n, k)
    }

    /** A step of `n` is possible: the spawning loop takes up a name only when it is done with the last. */
    predicate Enabled(n: string) reads this {
      n in threads && threads[n].phase != Settled && (threads[n].phase == Waiting ==> current == None)
    }

    predicate AllSettled() reads this {
      forall n <- threads :: threads[n].phase == Settled
    }

    /** What a step of `n` may touch: its own thread, the entry of its own name in the store, and the list object
        stored there. */
    twostate predicate OnlyTouches(n: string)
      reads this, store, objects
    {
      && n in old(threads) && n in threads && threads == old(threads)[n := threads[n]]
      && old(objects) <= objects
      && (forall m :: m != n ==> (m in store.idLists <==> m in old(store.idLists)))
      && (forall m <- store.idLists :: m != n ==> m in old(store.idLists) && store.idLists[m] == old(store.idLists)[m])
      && (n in store.idLists ==>
            InSpawner(threads[n].phase) || (n in old(store.idLists) && store.idLists[n] == old(store.idLists)[n]))
      && (forall o <- old(objects) ::
            (n in old(store.idLists) && o == old(store.idLists)[n]) || o.State() == old(o.State()))
    }

    /** Thread `n` itself is in order. */
    ghost predicate ThreadOk(n: string)
      reads this, store, objects
    {
      && n in threads && n in server
      && var t := threads[n];
      && (t.list == null <==> t.phase == Waiting || t.phase == Settled)
      && (t.list != null ==> t.list in objects)
      && (IsStored(t.phase) ==> n in store.idLists && store.idLists[n] == t.list)
      && (IsPending(t.phase) ==> t.list !in store.idLists.Values)
      && (n in store.idLists ==> store.idLists[n] in objects)
      && (forall m <- store.idLists :: m != n && n in store.idLists ==> store.idLists[m] != store.idLists[n])
      && PhaseOk(CaseOf(n), t.phase, if n in store.idLists then Some(store.idLists[n].State()) else None,
                 if t.list != null then Some(t.list.State()) else None)
    }

    /** Whoever is at `n`, the spawning loop is there or was not elsewhere. */
    twostate predicate CurrentMoves(n: string)
      reads this
    {
      && n in threads
      && current == (if InSpawner(threads[n].phase) then Some(n)
                     else if old(current) == Some(n) then None
                     else old(current))
      && (InSpawner(threads[n].phase) ==> old(current) == None || old(current) == Some(n))
    }

    /** What a step of `n` relies on. */
    ghost predicate Ready(n: string)
      reads this, store, objects
    {
      && ThreadOk(n)
      && store.idLists.Values <= objects
      && (InSpawner(threads[n].phase) ==> current == Some(n))
      && (threads[n].phase == Waiting ==> current == None)
      && (threads[n].phase != Waiting && current == Some(n) ==> InSpawner(threads[n].phase))
      && (n in before ==> WellFormed(before[n]) && before[n].name == n)
    }

    lemma EnabledIsReady(n: string)
      requires Inv() && Enabled(n)
      ensures Ready(n)
    {
      assert PhaseOk(CaseOf(n), threads[n].phase, Now(n), Held(n));
    }

    twostate lemma ShapeKept(n: string)
      requires old(Shape()) && OnlyTouches(n) && ThreadOk(n) && CurrentMoves(n)
      ensures Shape()
    {
      assert store.idLists.Values <= objects;
      assert store.Separate();
      forall m <- threads | m != n && IsPending(threads[m].phase)
        ensures threads[m].list !in store.idLists.Values
      {
        assert old(current) == Some(m);
      }
    }

    twostate lemma OthersKept(n: string)
      requires old(Shape()) && OnlyTouches(n) && Shape()
      ensures forall m :: m != n ==> Now(m) == old(Now(m))
      ensures forall m <- threads :: m != n ==> Held(m) == old(Held(m))
    {
      forall m <- threads | m != n && threads[m].list != null && n in old(store.idLists)
        ensures threads[m].list != old(store.idLists)[n]
      {
      }
    }

    twostate lemma StepKeepsInv(n: string)
      requires old(Inv()) && OnlyTouches(n) && ThreadOk(n) && CurrentMoves(n)
      ensures Inv()
    {
      ShapeKept(n);
      OthersKept(n);
    }

    /** At any moment of a round, under every schedule: a name is stored without ids exactly at these phases. */
    lemma SeenEmptyExactly(n: string)
      requires Inv() && n in server
      ensures n in store.idLists && store.idLists[n].ids.None? <==> SeenEmpty(CaseOf(n), threads[n].phase)
    {
      var c := CaseOf(n);
      assert PhaseOk(c, threads[n].phase, Now(n), Held(n));
      if n in before {
        assert WellFormed(before[n]);
      }
      PlaceholderAfterOne(c.before, n, c.entry, get);
    }

    /** The work never gets stuck. */
    lemma SomeoneEnabled()
      requires Shape() && !AllSettled()
      ensures exists n <- threads :: Enabled(n)
    {
      var n :| n in threads && threads[n].phase != Settled;
      var m := if current.Some? then current.value else n;
      assert m in threads && Enabled(m);
    }

    /** Every schedule: whichever thread can take a step may be the next to take one. */
    method Run()
      requires Inv()
      modifies this, store, objects
      ensures Inv() && AllSettled() && fresh(objects - old(objects))
    {
      while !AllSettled()
        invariant Inv() && fresh(objects - old(objects))
        decreases Early(), Late()
      {
        StepOfSomeone();
      }
    }

    method StepOfSomeone()
      requires Inv() && !AllSettled()
      modifies this, store, objects
      ensures Inv() && fresh(objects - old(objects))
      ensures Early() < old(Early()) || (Early() == old(Early()) && Late() < old(Late()))
    {
      SomeoneEnabled();
      var n :| n in threads && Enabled(n);
      Step(n);
    }

    method Step(n: string)
      requires Inv() && Enabled(n)
      modifies this, store, objects
      ensures Inv() && fresh(objects - old(objects))
      ensures Early() < old(Early()) || (Early() == old(Early()) && Late() < old(Late()))
    {
      EnabledIsReady(n);
      match threads[n].phase {
        case Waiting => TakeUp(n);
        case Placing => Place(n);
        case Deciding => Decide(n);
        case Replacing => Replace(n);
        case Sizing => Size(n);
        case Asking => Ask(n);
        case Applying(_, _) => ApplyNext(n);
        case Deleting => Delete(n);
      }
      StepKeepsInv(n);
    }

    /** Thread `n` moves on to another phase, at which it holds `list`. */
    method Become(n: string, phase: Phase, list: IdList?)
      requires n in threads
      modifies `threads
      ensures threads == old(threads)[n := Thread(phase, list)]
      ensures PhaseSteps(phase) < PhaseSteps(old(threads)[n].phase) ==> Early() < old(Early())
      ensures PhaseSteps(phase) == PhaseSteps(old(threads)[n].phase) ==> Early() == old(Early())
      ensures WorkSteps(phase) < WorkSteps(old(threads)[n].phase) ==> Late() < old(Late())
    {
      ghost var was := threads[n].phase;
      threads := threads[n := Thread(phase, list)];
      if PhaseSteps(phase) < PhaseSteps(was) {
        assert (n, PhaseSteps(phase)) in old(Early()) && (n, PhaseSteps(phase)) !in Early();
      }
      if WorkSteps(phase) < WorkSteps(was) {
        assert (n, WorkSteps(phase)) in old(Late()) && (n, WorkSteps(phase)) !in Late();
      }
    }

    method TakeUp(n: string)
      requires Ready(n) && threads[n].phase == Waiting
      modifies this
      ensures OnlyTouches(n) && ThreadOk(n) && CurrentMoves(n) && fresh(objects - old(objects))
      ensures Early() < old(Early())
      ensures threads[n].phase == if n in store.idLists then Deciding else Placing
    {
      var localList := store.GetIDList(n);
      if localList == null {
        localList := new IdList(Placeholder(n));
        objects := objects + {localList};
        Become(n, Placing, localList);
      } else {
        Become(n, Deciding, localList);
      }
      current := Some(n);
    }

    method Place(n: string)
      requires Ready(n) && threads[n].phase == Placing
      modifies this, store
      ensures OnlyTouches(n) && ThreadOk(n) && CurrentMoves(n) && objects == old(objects)
      ensures Early() < old(Early())
      ensures threads[n].phase == Deciding
    {
      store.SetIDList(n, threads[n].list);
      Become(n, Deciding, threads[n].list);
    }

    method Decide(n: string)
      requires Ready(n) && threads[n].phase == Deciding
      modifies this
      ensures OnlyTouches(n) && ThreadOk(n) && CurrentMoves(n) && fresh(objects - old(objects))
      ensures Early() < old(Early())
    {
      var l, e := threads[n].list, server[n];
      DecidedOk(CaseOf(n), l.State());
      if e.url == "" || e.creationTime < l.creationTime || e.fileID == "" {
        Become(n, Settled, null);
        current := None;
        return;
      }
      if e.fileID != l.fileID && e.creationTime >= l.creationTime {
        var newList := new IdList(ListState(l.name, 0, e.creationTime, e.url, e.fileID, Some({})));
        objects := objects + {newList};
        Become(n, Replacing, newList);
      } else {
        Become(n, Sizing, l);
      }
    }

    method Replace(n: string)
      requires Ready(n) && threads[n].phase == Replacing
      modifies this, store
      ensures OnlyTouches(n) && ThreadOk(n) && CurrentMoves(n) && objects == old(objects)
      ensures Early() < old(Early())
    {
      store.SetIDList(n, threads[n].list);
      Become(n, Sizing, threads[n].list);
    }

    method Size(n: string)
      requires Ready(n) && threads[n].phase == Sizing
      modifies this
      ensures OnlyTouches(n) && ThreadOk(n) && CurrentMoves(n) && objects == old(objects)
      ensures Early() < old(Early())
    {
      var l := threads[n].list;
      if server[n].size <= l.size {
        Become(n, Settled, null);
      } else {
        Become(n, Asking, l);
      }
      current := None;
    }

    method Ask(n: string)
      requires Ready(n) && threads[n].phase == Asking
      modifies this
      ensures OnlyTouches(n) && ThreadOk(n) && CurrentMoves(n) && objects == old(objects)
      ensures Early() < old(Early())
    {
      var l := threads[n].list;
      AskedOk(CaseOf(n), l.State());
      var answer := get(n, l.url, l.size);
      if answer.Failed? || answer.contentLength.None? || answer.contentLength.value <= 0 || answer.body.None? {
        Become(n, Settled, null);
        return;
      }
      var content := answer.body.value;
      if |content| <= 1 || (content[0] != '-' && content[0] != '+') {
        Become(n, Deleting, l);
      } else {
        Become(n, Applying(Ops(content), answer.contentLength.value), l);
      }
    }

    /** The next line's operation, or, when there is none left, the new size. */
    method ApplyNext(n: string)
      requires Ready(n) && threads[n].phase.Applying?
      modifies this, objects
      ensures OnlyTouches(n) && ThreadOk(n) && CurrentMoves(n) && objects == old(objects)
      ensures Early() == old(Early()) && Late() < old(Late())
    {
      if threads[n].phase.ops == [] {
        AddSize(n);
      } else {
        ApplyLine(n);
      }
    }

    method AddSize(n: string)
      requires Ready(n) && threads[n].phase.Applying? && threads[n].phase.ops == []
      modifies this, objects
      ensures OnlyTouches(n) && ThreadOk(n) && CurrentMoves(n) && objects == old(objects)
      ensures Early() == old(Early()) && Late() < old(Late())
    {
      var l, length := threads[n].list, threads[n].phase.length;
      AppliedOk(CaseOf(n), [], length, l.State());
      l.size := l.size + length;
      Become(n, Settled, null);
    }

    method ApplyLine(n: string)
      requires Ready(n) && threads[n].phase.Applying? && threads[n].phase.ops != []
      modifies this, objects
      ensures OnlyTouches(n) && ThreadOk(n) && CurrentMoves(n) && objects == old(objects)
      ensures Early() == old(Early()) && Late() < old(Late())
    {
      var l, ops, length := threads[n].list, threads[n].phase.ops, threads[n].phase.length;
      AppliedOk(CaseOf(n), ops, length, l.State());
      match ops[0] {
        case Add(id) => l.ids := Some(l.ids.value + {id});
        case Remove(id) => l.ids := Some(l.ids.value - {id});
      }
      Become(n, Applying(ops[1..], length), l);
    }

    method Delete(n: string)
      requires Ready(n) && threads[n].phase == Deleting
      modifies this, store
      ensures OnlyTouches(n) && ThreadOk(n) && CurrentMoves(n) && objects == old(objects)
      ensures Early() == old(Early()) && Late() < old(Late())
    {
      store.DeleteIDList(n);
      Become(n, Settled, null);
    }

    /** After the last worker: lists the server does not name are dropped. */
    method Sweep()
      requires Inv() && AllSettled()
      modifies store
      ensures store.Separate() && store.idLists.Values <= objects
      ensures store.Contents() == SyncAll(before, server, get)
    {
      ghost var start := store.idLists;
      DropUnlisted();
      SweptContents(start);
    }

    method DropUnlisted()
      modifies store
      ensures store.idLists == map n | n in old(store.idLists) && n in server :: old(store.idLists)[n]
    {
      var left := store.idLists.Keys;
      while left != {}
        invariant left <= store.idLists.Keys
        invariant forall n :: n in store.idLists <==> n in old(store.idLists) && (n in left || n in server)
        invariant forall n <- store.idLists :: store.idLists[n] == old(store.idLists)[n]
      {
        var n :| n in left;
        if n !in server {
          store.DeleteIDList(n);
        }
        left := left - {n};
      }
    }

    lemma SweptContents(start: map<string, IdList>)
      requires Shape() && AllSettled() && start.Values <= objects
      requires forall n <- threads ::
                 PhaseOk(CaseOf(n), Settled, if n in start then Some(start[n].State()) else None, Held(n))
      requires store.idLists == map n | n in start && n in server :: start[n]
      ensures store.Contents() == SyncAll(before, server, get)
    {
      forall n <- server
        ensures (if n in start then Some(start[n].State()) else None) == SyncOne(Lookup(before, n), n, server[n], get)
      {
        assert n in threads;
      }
    }
  }

  /** A round comes to a moment at which a new list with a good entry is stored without ids. */
  method NewListBeforeItsFile(name: string, e: Entry, get: Downloads) returns (run: Sync)
    requires !Hopeless(e)
    ensures run.Inv() && run.server == map[name := e] && run.before == map[]
    ensures run.threads[name].phase == Deciding
  {
    var store := new Store();
    run := new Sync(store, map[name := e], get);
    run.EnabledIsReady(name);
    label Taken:
    run.TakeUp(name);
    run.StepKeepsInv@Taken(name);
    run.EnabledIsReady(name);
    label Placed:
    run.Place(name);
    run.StepKeepsInv@Placed(name);
  }
}
