/** The shared ZIP reader cache of internal/epub/store.go. */
module EpubStore {

  // `EPUBStore` and its `zipLRU`.  The first part is a function for each critical section of the
  // store, over a `Store` value in which an entry's identity is its position in `entries` (a pointer
  // in the source).  The class at the end has the source's fields, and each of its methods is proved
  // equal to one of those functions.  Between them stands the protocol: any number of borrowers
  // interleaving those critical sections, with loading, waiting and borrowing happening outside the
  // lock.

  import opened Basics
  import opened LruCache

  type Path = string
  type Id = nat

  /** What hangs off an entry's reader field; `closes` counts the calls of its Close method. */
  datatype Reader = NoReader | Reader(closes: nat)

  datatype ZipEntry = ZipEntry(
    path: Path,
    reader: Reader,
    refs: int,
    evicted: bool,
    closePending: bool,
    ready: bool,      // the ready channel has been closed
    loadErr: bool
  )

  /** `order` is the LRU list, front first; entries that left the store stay in `entries`. */
  datatype Store = Store(
    cap: nat,
    entries: seq<ZipEntry>,
    openFiles: map<Path, Id>,
    order: seq<Id>
  )

  /** The ids the two structures hold are ids of entries. */
  predicate WellFormed(s: Store) {
    && s.cap >= 1
    && (forall p :: p in s.openFiles ==> s.openFiles[p] < |s.entries|)
    && (forall i :: 0 <= i < |s.order| ==> s.order[i] < |s.entries|)
  }

  // ---------------------------------------------------------------- the LRU list

  /** The list position of the element for `path`, or -1. */
  function Position(entries: seq<ZipEntry>, order: seq<Id>, path: Path): (r: int)
    requires forall i :: 0 <= i < |order| ==> order[i] < |entries|
    ensures -1 <= r < |order|
    ensures r >= 0 ==> entries[order[r]].path == path
    ensures r < 0 ==> forall i :: 0 <= i < |order| ==> entries[order[i]].path != path
  {
    if order == [] then -1
    else if entries[order[0]].path == path then 0
    else
      assert forall i :: 1 <= i < |order| ==> order[i] == order[1..][i - 1];
      var r := Position(entries, order[1..], path);
      if r < 0 then -1 else r + 1
  }

  function Touch(s: Store, path: Path, id: Id): (r: Store)
    requires WellFormed(s) && id < |s.entries|
    ensures WellFormed(r)
  {
    var i := Position(s.entries, s.order, path);
    var order := if i >= 0 then [s.order[i]] + RemoveAt(s.order, i) else [id] + s.order;
    s.(order := order)
  }

  function Unlist(s: Store, path: Path): (r: Store)
    requires WellFormed(s)
    ensures WellFormed(r)
  {
    var i := Position(s.entries, s.order, path);
    if i >= 0 then s.(order := RemoveAt(s.order, i)) else s
  }

  // ---------------------------------------------------------------- critical sections

  function Set(s: Store, id: Id, e: ZipEntry): (r: Store)
    requires WellFormed(s) && id < |s.entries|
    ensures WellFormed(r)
  {
    s.(entries := s.entries[id := e])
  }

  function CloseReader(e: ZipEntry): ZipEntry {
    if e.reader.NoReader? then e else e.(reader := Reader(e.reader.closes + 1))
  }

  /** Takes the entry out of the store, closing its reader. */
  function Drop(s: Store, id: Id): (r: Store)
    requires WellFormed(s) && id < |s.entries|
    ensures WellFormed(r)
  {
    var e := s.entries[id];
    Set(s, id, CloseReader(e)).(openFiles := s.openFiles - {e.path})
  }

  /** One round of the eviction loop: the least recently used entry leaves the list, and the
      store too when nobody references it. */
  function EvictOne(s: Store): (r: Store)
    requires WellFormed(s) && s.order != []
    ensures WellFormed(r)
  {
    var n := |s.order| - 1;
    var id := s.order[n];
    var t := s.(order := s.order[..n]);
    if s.entries[id].refs == 0 then Drop(t, id)
    else Set(t, id, s.entries[id].(evicted := true))
  }

  function EvictExcess(s: Store): (r: Store)
    requires WellFormed(s)
    ensures WellFormed(r)
    decreases |s.order|
  {
    if |s.order| <= s.cap then s else EvictExcess(EvictOne(s))
  }

  /** `acquireWithOpener` when the path is present. */
  function Hit(s: Store, path: Path): (r: Store)
    requires WellFormed(s) && path in s.openFiles
    ensures WellFormed(r)
  {
    var id := s.openFiles[path];
    var e := s.entries[id];
    EvictExcess(Touch(Set(s, id, e.(refs := e.refs + 1, evicted := false, closePending := false)), path, id))
  }

  /** `acquireWithOpener` on a miss: the loading placeholder. */
  function Install(s: Store, path: Path): (r: Store)
    requires WellFormed(s) && path !in s.openFiles
    ensures WellFormed(r)
  {
    var id := |s.entries|;
    var e := ZipEntry(path, NoReader, 1, false, false, false, false);
    Touch(s.(entries := s.entries + [e], openFiles := s.openFiles[path := id]), path, id)
  }

  /** The loader attaches the opened reader. */
  function Publish(s: Store, id: Id): (r: Store)
    requires WellFormed(s) && id < |s.entries|
    ensures WellFormed(r)
  {
    var e := s.entries[id].(reader := Reader(0));
    EvictExcess(
      if e.closePending then Set(s, id, e)
      else Touch(Set(s, id, e.(evicted := false)), e.path, id))
  }

  /** The loader records a failed open and drops the placeholder. */
  function Fail(s: Store, id: Id): (r: Store)
    requires WellFormed(s) && id < |s.entries|
    ensures WellFormed(r)
  {
    var e := s.entries[id].(loadErr := true);
    var t := Set(s, id, e);
    if e.path in s.openFiles && s.openFiles[e.path] == id
    then Unlist(t.(openFiles := s.openFiles - {e.path}), e.path)
    else t
  }

  /** The ready channel is closed, outside the store's lock. */
  function Signal(s: Store, id: Id): (r: Store)
    requires WellFormed(s) && id < |s.entries|
    ensures WellFormed(r)
  {
    Set(s, id, s.entries[id].(ready := true))
  }

  function ReleasePath(s: Store, path: Path): (r: Store)
    requires WellFormed(s)
    ensures WellFormed(r)
  {
    if path !in s.openFiles then s
    else
      var id := s.openFiles[path];
      var e := s.entries[id];
      if e.refs <= 0 then s
      else
        var f := e.(refs := e.refs - 1);
        if f.refs == 0 && f.evicted
        then Set(s, id, CloseReader(f)).(openFiles := s.openFiles - {path})
        else Set(s, id, f)
  }

  function ClosePath(s: Store, path: Path): (r: Store)
    requires WellFormed(s)
    ensures WellFormed(r)
  {
    if path !in s.openFiles then s
    else
      var id := s.openFiles[path];
      var e := s.entries[id];
      var t := Unlist(s, path);
      if e.refs == 0
      then Set(t, id, CloseReader(e)).(openFiles := s.openFiles - {path})
      else Set(t, id, e.(evicted := true, closePending := true))
  }

  predicate InUse(s: Store, path: Path)
    requires WellFormed(s)
  {
    path in s.openFiles && s.entries[s.openFiles[path]].refs > 0
  }

  function TryClose(s: Store, path: Path): (r: Store)
    requires WellFormed(s)
    ensures WellFormed(r)
  {
    if path !in s.openFiles || InUse(s, path) then s
    else
      var id := s.openFiles[path];
      Set(Unlist(s, path), id, CloseReader(s.entries[id])).(openFiles := s.openFiles - {path})
  }

  /** `Close`: every reader still in the store is closed and both structures are emptied. */
  function Shutdown(s: Store): (r: Store)
    requires WellFormed(s)
    ensures WellFormed(r)
  {
    Store(
      s.cap,
      seq(|s.entries|, id requires 0 <= id < |s.entries| =>
        if Live(s, id) then CloseReader(s.entries[id]) else s.entries[id]),
      map[],
      [])
  }

  // ---------------------------------------------------------------- the protocol

  /** What one borrower is doing.  `Loading` opens the archive outside the lock; `Loaded` and
      `LoadFailed` have recorded the outcome but not yet closed the ready channel; `Waiting`
      found an existing entry and waits on its channel; `Holding` owns a successful borrow. */
  datatype Phase =
    | Idle
    | Loading(id: Id)
    | Loaded(id: Id)
    | LoadFailed(id: Id)
    | Waiting(id: Id)
    | Holding(id: Id)

  datatype System = System(store: Store, threads: seq<Phase>)

  datatype Event =
    | Acquire(t: nat, path: Path)
    | LoadOk(t: nat)
    | LoadErr(t: nat)
    | CloseReady(t: nat)
    | Wake(t: nat)
    | Release(t: nat)
    | Close(path: Path)
    | Replace(path: Path)
    | CloseStore

  predicate Owns(p: Phase, id: Id) {
    !p.Idle? && p.id == id
  }

  /** How many borrowers reference entry `id`. */
  function Count(threads: seq<Phase>, id: Id): nat {
    if threads == [] then 0
    else Count(threads[..|threads| - 1], id) + (if Owns(threads[|threads| - 1], id) then 1 else 0)
  }

  ghost predicate Enabled(sys: System, ev: Event) {
    && WellFormed(sys.store)
    && (forall u :: 0 <= u < |sys.threads| && !sys.threads[u].Idle? ==> sys.threads[u].id < |sys.store.entries|)
    && match ev
       case Acquire(t, _) => t < |sys.threads| && sys.threads[t].Idle?
       case LoadOk(t) => t < |sys.threads| && sys.threads[t].Loading?
       case LoadErr(t) => t < |sys.threads| && sys.threads[t].Loading?
       case CloseReady(t) => t < |sys.threads| && (sys.threads[t].Loaded? || sys.threads[t].LoadFailed?)
       case Wake(t) => t < |sys.threads| && sys.threads[t].Waiting? && sys.store.entries[sys.threads[t].id].ready
       case Release(t) => t < |sys.threads| && sys.threads[t].Holding?
       case Close(_) => true
       case Replace(_) => true
       case CloseStore => forall t :: 0 <= t < |sys.threads| ==> sys.threads[t].Idle?
  }

  /** One atomic step of the whole system. */
  ghost function Step(sys: System, ev: Event): System
    requires Enabled(sys, ev)
  {
    var s, th := sys.store, sys.threads;
    match ev
    case Acquire(t, path) =>
      if path in s.openFiles
      then System(Hit(s, path), th[t := Waiting(s.openFiles[path])])
      else System(Install(s, path), th[t := Loading(|s.entries|)])
    case LoadOk(t) => System(Publish(s, th[t].id), th[t := Loaded(th[t].id)])
    case LoadErr(t) => System(Fail(s, th[t].id), th[t := LoadFailed(th[t].id)])
    case CloseReady(t) => System(Signal(s, th[t].id), th[t := if th[t].Loaded? then Holding(th[t].id) else Idle])
    case Wake(t) => System(s, th[t := if s.entries[th[t].id].loadErr then Idle else Holding(th[t].id)])
    case Release(t) => System(ReleasePath(s, s.entries[th[t].id].path), th[t := Idle])
    case Close(path) => System(ClosePath(s, path), th)
    case Replace(path) => System(TryClose(s, path), th)
    case CloseStore => System(Shutdown(s), th)
  }

  ghost predicate Initial(sys: System) {
    && sys.store.cap >= 1 && sys.store.entries == [] && sys.store.openFiles == map[] && sys.store.order == []
    && forall t :: 0 <= t < |sys.threads| ==> sys.threads[t] == Idle
  }

  /** A run: a state before and after every event. */
  ghost predicate IsRun(states: seq<System>, events: seq<Event>) {
    && |states| == |events| + 1
    && Initial(states[0])
    && forall i :: 0 <= i < |events| ==> StepAt(states, events, i)
  }

  ghost predicate StepAt(states: seq<System>, events: seq<Event>, i: nat)
    requires i < |events| < |states|
  {
    Enabled(states[i], events[i]) && states[i + 1] == Step(states[i], events[i])
  }

  // ---------------------------------------------------------------- the invariant

  /** The store still knows this very entry under its path. */
  predicate Live(s: Store, id: Id) {
    id < |s.entries| && s.entries[id].path in s.openFiles && s.openFiles[s.entries[id].path] == id
  }

  /** A live entry: nothing in it is stale, it is listed exactly when it is not marked evicted, and
      an unreferenced one is loaded and listed. */
  ghost predicate LiveOk(e: ZipEntry, listed: bool, count: nat) {
    && !e.loadErr
    && e.refs == count
    && (listed <==> !e.evicted)
    && (e.closePending ==> e.evicted)
    && (e.refs == 0 ==> e.reader.Reader? && listed)
    && (e.reader.Reader? ==> e.reader.closes == 0)
    && (e.ready ==> e.reader.Reader?)
  }

  /** An entry that left the store: its reader was closed exactly once, or never opened. */
  ghost predicate GoneOk(e: ZipEntry, listed: bool) {
    && !listed
    && (e.reader.Reader? ==> e.reader.closes == 1)
    && (e.reader.NoReader? ==> e.loadErr)
  }

  ghost predicate EntryOk(s: Store, threads: seq<Phase>, id: Id)
    requires id < |s.entries|
  {
    if Live(s, id) then LiveOk(s.entries[id], id in s.order, Count(threads, id))
    else GoneOk(s.entries[id], id in s.order)
  }

  ghost predicate PhaseOk(s: Store, p: Phase) {
    match p
    case Idle => true
    case Loading(id) => Live(s, id) && s.entries[id].reader.NoReader? && !s.entries[id].ready
    case Loaded(id) => Live(s, id) && s.entries[id].reader.Reader? && !s.entries[id].ready
    case LoadFailed(id) => id < |s.entries| && !Live(s, id) && s.entries[id].loadErr && !s.entries[id].ready
    case Waiting(id) => Live(s, id) || (id < |s.entries| && s.entries[id].loadErr)
    case Holding(id) => Live(s, id) && s.entries[id].reader.Reader? && s.entries[id].ready
  }

  predicate IsLoader(p: Phase) {
    p.Loading? || p.Loaded? || p.LoadFailed?
  }

  /** Each listed id occurs once. */
  ghost predicate NoRepeats(order: seq<Id>) {
    forall i, j :: 0 <= i < j < |order| ==> order[i] != order[j]
  }

  function LoadedCount(entries: seq<ZipEntry>, order: seq<Id>): nat
    requires forall i :: 0 <= i < |order| ==> order[i] < |entries|
  {
    if order == [] then 0
    else LoadedCount(entries, order[1..]) + (if entries[order[0]].reader.Reader? then 1 else 0)
  }

  /** The invariant of the store without its retention bound. */
  ghost predicate Sound(s: Store, threads: seq<Phase>) {
    && WellFormed(s)
    && (forall p :: p in s.openFiles ==> s.entries[s.openFiles[p]].path == p)
    && NoRepeats(s.order)
    && (forall id :: 0 <= id < |s.entries| ==> EntryOk(s, threads, id))
  }

  ghost predicate ThreadsOk(s: Store, threads: seq<Phase>) {
    && (forall t :: 0 <= t < |threads| ==> PhaseOk(s, threads[t]))
    && (forall t, u :: 0 <= t < u < |threads| && IsLoader(threads[t]) && IsLoader(threads[u])
                       ==> threads[t].id != threads[u].id)
  }

  ghost predicate Inv(sys: System) {
    && Sound(sys.store, sys.threads)
    && ThreadsOk(sys.store, sys.threads)
    && LoadedCount(sys.store.entries, sys.store.order) <= sys.store.cap
  }

  // ---------------------------------------------------------------- counting

  lemma {:induction false} CountUpdate(threads: seq<Phase>, t: nat, p: Phase, id: Id)
    requires t < |threads|
    ensures Count(threads[t := p], id)
         == Count(threads, id) - (if Owns(threads[t], id) then 1 else 0) + (if Owns(p, id) then 1 else 0)
  {
    var n := |threads| - 1;
    if t < n {
      assert threads[t := p][..n] == threads[..n][t := p];
      CountUpdate(threads[..n], t, p, id);
    } else {
      assert threads[t := p][..n] == threads[..n];
    }
  }

  lemma {:induction false} CountsOwner(threads: seq<Phase>, t: nat, id: Id)
    requires t < |threads| && Owns(threads[t], id)
    ensures Count(threads, id) >= 1
  {
    if t < |threads| - 1 {
      CountsOwner(threads[..|threads| - 1], t, id);
    }
  }

  lemma {:induction false} CountNone(threads: seq<Phase>, id: Id)
    requires forall t :: 0 <= t < |threads| ==> !Owns(threads[t], id)
    ensures Count(threads, id) == 0
  {
    if threads != [] {
      CountNone(threads[..|threads| - 1], id);
    }
  }

  lemma {:induction false} LoadedCountBound(entries: seq<ZipEntry>, order: seq<Id>)
    requires forall i :: 0 <= i < |order| ==> order[i] < |entries|
    ensures LoadedCount(entries, order) <= |order|
  {
    if order != [] {
      LoadedCountBound(entries, order[1..]);
    }
  }

  lemma {:induction false} LoadedCountFrame(entries: seq<ZipEntry>, entries': seq<ZipEntry>, order: seq<Id>)
    requires forall i :: 0 <= i < |order| ==> order[i] < |entries| && order[i] < |entries'|
    requires forall i :: 0 <= i < |order| ==> entries'[order[i]].reader == entries[order[i]].reader
    ensures LoadedCount(entries', order) == LoadedCount(entries, order)
  {
    if order != [] {
      assert forall i :: 0 <= i < |order[1..]| ==> order[1..][i] == order[i + 1];
      LoadedCountFrame(entries, entries', order[1..]);
    }
  }

  lemma {:induction false} LoadedCountRemove(entries: seq<ZipEntry>, order: seq<Id>, i: nat)
    requires forall i :: 0 <= i < |order| ==> order[i] < |entries|
    requires i < |order|
    ensures forall j :: 0 <= j < |order| - 1 ==> RemoveAt(order, i)[j] < |entries|
    ensures LoadedCount(entries, RemoveAt(order, i)) <= LoadedCount(entries, order)
  {
    if i == 0 {
      assert RemoveAt(order, i) == order[1..];
    } else {
      assert RemoveAt(order, i)[1..] == RemoveAt(order[1..], i - 1);
      LoadedCountRemove(entries, order[1..], i - 1);
    }
  }

  // ---------------------------------------------------------------- the LRU list

  /** Every listed id is live and occurs once. */
  ghost predicate ListOk(s: Store) {
    && WellFormed(s)
    && (forall p :: p in s.openFiles ==> s.entries[s.openFiles[p]].path == p)
    && NoRepeats(s.order)
    && (forall i :: 0 <= i < |s.order| ==> Live(s, s.order[i]))
  }

  lemma SoundList(s: Store, threads: seq<Phase>)
    requires Sound(s, threads)
    ensures ListOk(s)
  {
    forall i | 0 <= i < |s.order| ensures Live(s, s.order[i]) {
      assert EntryOk(s, threads, s.order[i]);
      assert s.order[i] in s.order;
    }
  }

  lemma RemoveAtMembers(order: seq<Id>, i: nat)
    requires NoRepeats(order) && i < |order|
    ensures NoRepeats(RemoveAt(order, i))
    ensures forall x :: x in RemoveAt(order, i) <==> x in order && x != order[i]
  {
    var r := RemoveAt(order, i);
    assert forall k :: 0 <= k < |r| ==> r[k] == order[if k < i then k else k + 1];
    forall x | x in order && x != order[i] ensures x in r {
      var k :| 0 <= k < |order| && order[k] == x;
      assert r[if k < i then k else k - 1] == x;
    }
  }

  lemma PushMembers(order: seq<Id>, id: Id)
    requires NoRepeats(order) && id !in order
    ensures NoRepeats([id] + order)
    ensures forall x :: x in [id] + order <==> x in order || x == id
  {
    var r := [id] + order;
    forall i, j | 0 <= i < j < |r| ensures r[i] != r[j] {
      assert r[j] == order[j - 1];
      assert r[j] in order;
    }
  }

  lemma FrontMembers(order: seq<Id>, i: nat)
    requires NoRepeats(order) && i < |order|
    ensures NoRepeats([order[i]] + RemoveAt(order, i))
    ensures forall x :: x in [order[i]] + RemoveAt(order, i) <==> x in order
  {
    RemoveAtMembers(order, i);
    PushMembers(RemoveAt(order, i), order[i]);
  }

  /** On the list of a sound store, an entry's path finds that very entry. */
  lemma FindsItself(s: Store, id: Id)
    requires ListOk(s) && Live(s, id)
    ensures var i := Position(s.entries, s.order, s.entries[id].path);
            (i >= 0 <==> id in s.order) && (i >= 0 ==> s.order[i] == id)
  {
    var i := Position(s.entries, s.order, s.entries[id].path);
    if i >= 0 {
      assert Live(s, s.order[i]);
    }
  }

  lemma SetKeepsList(s: Store, id: Id, e: ZipEntry)
    requires ListOk(s) && id < |s.entries| && e.path == s.entries[id].path
    ensures ListOk(Set(s, id, e))
    ensures forall x :: Live(Set(s, id, e), x) <==> Live(s, x)
  {
  }

  lemma TouchFacts(s: Store, id: Id)
    requires ListOk(s) && Live(s, id)
    ensures var r := Touch(s, s.entries[id].path, id);
            && r == s.(order := r.order)
            && NoRepeats(r.order)
            && (forall x :: x in r.order <==> x in s.order || x == id)
  {
    FindsItself(s, id);
    var i := Position(s.entries, s.order, s.entries[id].path);
    if i >= 0 {
      FrontMembers(s.order, i);
    } else {
      PushMembers(s.order, id);
    }
  }

  lemma UnlistFacts(s: Store, id: Id)
    requires ListOk(s) && Live(s, id)
    ensures var r := Unlist(s, s.entries[id].path);
            && r == s.(order := r.order)
            && NoRepeats(r.order)
            && (forall x :: x in r.order <==> x in s.order && x != id)
            && LoadedCount(s.entries, r.order) <= LoadedCount(s.entries, s.order)
  {
    FindsItself(s, id);
    var i := Position(s.entries, s.order, s.entries[id].path);
    if i >= 0 {
      RemoveAtMembers(s.order, i);
      LoadedCountRemove(s.entries, s.order, i);
    }
  }

  // ---------------------------------------------------------------- eviction

  /** What a borrower relies on is the same in both stores. */
  ghost predicate SameFor(s: Store, s': Store, id: Id) {
    && id < |s.entries| && id < |s'.entries|
    && (Live(s, id) <==> Live(s', id))
    && s'.entries[id].reader == s.entries[id].reader
    && s'.entries[id].ready == s.entries[id].ready
    && s'.entries[id].loadErr == s.entries[id].loadErr
  }

  ghost predicate SameForOwned(s: Store, s': Store, threads: seq<Phase>) {
    forall t :: 0 <= t < |threads| && !threads[t].Idle? ==> SameFor(s, s', threads[t].id)
  }

  lemma PhasesFrame(s: Store, s': Store, threads: seq<Phase>)
    requires ThreadsOk(s, threads) && SameForOwned(s, s', threads)
    ensures ThreadsOk(s', threads)
  {
    forall t | 0 <= t < |threads| ensures PhaseOk(s', threads[t]) {
      assert PhaseOk(s, threads[t]);
    }
  }

  lemma EvictOneSound(s: Store, threads: seq<Phase>)
    requires Sound(s, threads) && ThreadsOk(s, threads) && s.order != []
    ensures Sound(EvictOne(s), threads) && SameForOwned(s, EvictOne(s), threads)
  {
    SoundList(s, threads);
    var r, n := EvictOne(s), |s.order| - 1;
    var victim := s.order[n];
    RemoveAtMembers(s.order, n);
    assert RemoveAt(s.order, n) == s.order[..n];
    assert EntryOk(s, threads, victim) && Live(s, victim) && victim in s.order;
    forall id | 0 <= id < |r.entries| ensures EntryOk(r, threads, id) {
      assert EntryOk(s, threads, id);
      if id != victim {
        assert Live(r, id) <==> Live(s, id);
        assert id in r.order <==> id in s.order;
      }
    }
    forall t | 0 <= t < |threads| && !threads[t].Idle? ensures SameFor(s, r, threads[t].id) {
      assert PhaseOk(s, threads[t]);
      CountsOwner(threads, t, threads[t].id);
    }
  }

  lemma {:induction false} EvictExcessSound(s: Store, threads: seq<Phase>)
    requires Sound(s, threads) && ThreadsOk(s, threads)
    ensures var r := EvictExcess(s);
            && Sound(r, threads) && ThreadsOk(r, threads)
            && LoadedCount(r.entries, r.order) <= r.cap == s.cap
    ensures |EvictExcess(s).entries| == |s.entries|
    decreases |s.order|
  {
    if |s.order| <= s.cap {
      LoadedCountBound(s.entries, s.order);
    } else {
      EvictOneSound(s, threads);
      PhasesFrame(s, EvictOne(s), threads);
      EvictExcessSound(EvictOne(s), threads);
    }
  }

  // ---------------------------------------------------------------- every step keeps the invariant

  /** Replacing one borrower's phase leaves the counts of every other entry alone. */
  lemma CountsOthers(threads: seq<Phase>, t: nat, p: Phase, id: Id)
    requires t < |threads| && (threads[t].Idle? || threads[t].id == id) && (p.Idle? || p.id == id)
    ensures forall x :: x != id ==> Count(threads[t := p], x) == Count(threads, x)
  {
    forall x | x != id ensures Count(threads[t := p], x) == Count(threads, x) {
      CountUpdate(threads, t, p, x);
    }
  }

  /** The store changed around entry `id` only. */
  ghost predicate ChangedOnly(s: Store, b: Store, id: Id) {
    && WellFormed(b) && id < |s.entries| && |b.entries| == |s.entries|
    && (forall x :: 0 <= x < |s.entries| && x != id ==> b.entries[x] == s.entries[x])
    && b.entries[id].path == s.entries[id].path
    && (b.openFiles == s.openFiles || (Live(s, id) && b.openFiles == s.openFiles - {s.entries[id].path}))
    && NoRepeats(b.order)
    && (forall x :: x != id ==> (x in b.order <==> x in s.order))
  }

  lemma ChangeOne(s: Store, threads: seq<Phase>, b: Store, threads': seq<Phase>, id: Id)
    requires Sound(s, threads) && ChangedOnly(s, b, id)
    requires forall x :: x != id ==> Count(threads', x) == Count(threads, x)
    requires EntryOk(b, threads', id)
    ensures Sound(b, threads')
  {
    forall x | 0 <= x < |b.entries| ensures EntryOk(b, threads', x) {
      assert EntryOk(s, threads, x);
      OthersStayLive(s, b, id, x);
    }
  }

  lemma OthersStayLive(s: Store, b: Store, id: Id, x: Id)
    requires ChangedOnly(s, b, id) && x < |s.entries|
    ensures x != id ==> (Live(b, x) <==> Live(s, x)) && b.entries[x] == s.entries[x]
  {
  }

  /** The borrowers of other entries notice nothing. */
  lemma OtherPhases(s: Store, threads: seq<Phase>, b: Store, t: nat, p: Phase, id: Id)
    requires ThreadsOk(s, threads) && ChangedOnly(s, b, id)
    requires t < |threads| && PhaseOk(b, p)
    requires IsLoader(p) ==> IsLoader(threads[t]) && threads[t].id == p.id
    requires forall u :: 0 <= u < |threads| && u != t && Owns(threads[u], id) ==> PhaseOk(b, threads[u])
    ensures ThreadsOk(b, threads[t := p])
  {
    var th' := threads[t := p];
    forall u | 0 <= u < |th'| ensures PhaseOk(b, th'[u]) {
      assert PhaseOk(s, threads[u]);
      if u != t && !threads[u].Idle? && threads[u].id != id && threads[u].id < |s.entries| {
        OthersStayLive(s, b, id, threads[u].id);
      }
    }
    forall u, v | 0 <= u < v < |th'| && IsLoader(th'[u]) && IsLoader(th'[v]) ensures th'[u].id != th'[v].id {
      assert IsLoader(threads[u]) && IsLoader(threads[v]);
      assert th'[u].id == threads[u].id && th'[v].id == threads[v].id;
    }
  }

  /** Updating a live entry and touching it changes the store around that entry only. */
  lemma UpdateAndTouch(s: Store, id: Id, f: ZipEntry)
    requires ListOk(s) && Live(s, id) && f.path == s.entries[id].path
    ensures var b := Touch(Set(s, id, f), f.path, id);
            && b.entries == s.entries[id := f] && b.openFiles == s.openFiles && b.cap == s.cap
            && id in b.order && ChangedOnly(s, b, id)
  {
    SetKeepsList(s, id, f);
    TouchFacts(Set(s, id, f), id);
  }

  /** A waiter joins: `b` differs from `s` by one reference more to entry `id`. */
  lemma JoinSound(s: Store, th: seq<Phase>, b: Store, t: nat, id: Id)
    requires Sound(s, th) && ThreadsOk(s, th) && t < |th| && th[t].Idle?
    requires Live(s, id) && ChangedOnly(s, b, id) && b.openFiles == s.openFiles && id in b.order
    requires b.entries[id] == s.entries[id].(refs := s.entries[id].refs + 1, evicted := false, closePending := false)
    ensures Sound(b, th[t := Waiting(id)]) && ThreadsOk(b, th[t := Waiting(id)])
  {
    assert EntryOk(s, th, id);
    CountUpdate(th, t, Waiting(id), id);
    CountsOthers(th, t, Waiting(id), id);
    ChangeOne(s, th, b, th[t := Waiting(id)], id);
    forall u | 0 <= u < |th| && u != t && Owns(th[u], id) ensures PhaseOk(b, th[u]) {
      assert PhaseOk(s, th[u]);
    }
    OtherPhases(s, th, b, t, Waiting(id), id);
  }

  /** The store of a hit just before its eviction loop. */
  ghost function Joined(s: Store, path: Path): (b: Store)
    requires WellFormed(s) && path in s.openFiles
    ensures WellFormed(b)
  {
    var id := s.openFiles[path];
    var e := s.entries[id];
    Touch(Set(s, id, e.(refs := e.refs + 1, evicted := false, closePending := false)), path, id)
  }

  lemma OpenIsLive(s: Store, th: seq<Phase>, path: Path)
    requires Sound(s, th) && path in s.openFiles
    ensures Live(s, s.openFiles[path])
  {
  }

  lemma JoinedSound(s: Store, th: seq<Phase>, t: nat, path: Path)
    requires Sound(s, th) && ThreadsOk(s, th) && t < |th| && th[t].Idle? && path in s.openFiles
    ensures Sound(Joined(s, path), th[t := Waiting(s.openFiles[path])])
    ensures ThreadsOk(Joined(s, path), th[t := Waiting(s.openFiles[path])])
  {
    hide EntryOk, PhaseOk, NoRepeats, Touch, Set, ThreadsOk, Live;
    var id := s.openFiles[path];
    SoundList(s, th);
    var f := s.entries[id].(refs := s.entries[id].refs + 1, evicted := false, closePending := false);
    assert Live(s, id) by {
      OpenIsLive(s, th, path);
    }
    UpdateAndTouch(s, id, f);
    JoinSound(s, th, Joined(s, path), t, id);
  }

  lemma HitKeepsInv(sys: System, t: nat, path: Path)
    requires Inv(sys) && Enabled(sys, Acquire(t, path)) && path in sys.store.openFiles
    ensures Inv(Step(sys, Acquire(t, path)))
  {
    var b, th' := Joined(sys.store, path), sys.threads[t := Waiting(sys.store.openFiles[path])];
    JoinedSound(sys.store, sys.threads, t, path);
    EvictExcessSound(b, th');
    assert EvictExcess(b).cap == b.cap == sys.store.cap;
    assert Step(sys, Acquire(t, path)) == System(EvictExcess(b), th');
  }

  lemma InstallFields(s: Store, path: Path)
    requires ListOk(s) && path !in s.openFiles
    ensures var id := |s.entries|; var b := Install(s, path);
            && b.entries == s.entries + [ZipEntry(path, NoReader, 1, false, false, false, false)]
            && b.openFiles == s.openFiles[path := id] && b.order == [id] + s.order && b.cap == s.cap
            && NoRepeats(b.order)
  {
    var id := |s.entries|;
    var i := Position(Install(s, path).entries, s.order, path);
    assert i >= 0 ==> Live(s, s.order[i]);
    assert forall k :: 0 <= k < |s.order| ==> s.order[k] < id;
    PushMembers(s.order, id);
  }

  /** No borrower references an entry that does not exist yet. */
  lemma NobodyOwnsNew(s: Store, th: seq<Phase>)
    requires ThreadsOk(s, th)
    ensures forall u :: 0 <= u < |th| ==> !Owns(th[u], |s.entries|)
    ensures Count(th, |s.entries|) == 0
  {
    forall u | 0 <= u < |th| ensures !Owns(th[u], |s.entries|) {
      assert PhaseOk(s, th[u]);
    }
    CountNone(th, |s.entries|);
  }

  lemma InstallEntries(s: Store, th: seq<Phase>, t: nat, path: Path)
    requires Sound(s, th) && ThreadsOk(s, th) && t < |th| && th[t].Idle? && path !in s.openFiles
    ensures Sound(Install(s, path), th[t := Loading(|s.entries|)])
  {
    var id := |s.entries|;
    var b, th' := Install(s, path), th[t := Loading(id)];
    SoundList(s, th);
    InstallFields(s, path);
    NobodyOwnsNew(s, th);
    CountUpdate(th, t, Loading(id), id);
    CountsOthers(th, t, Loading(id), id);
    forall x | 0 <= x < |b.entries| ensures EntryOk(b, th', x) {
      if x < id {
        assert EntryOk(s, th, x);
        assert b.entries[x] == s.entries[x];
        assert x in b.order <==> x in s.order;
      }
    }
  }

  lemma InstallKeepsInv(sys: System, t: nat, path: Path)
    requires Inv(sys) && Enabled(sys, Acquire(t, path)) && path !in sys.store.openFiles
    ensures Inv(Step(sys, Acquire(t, path)))
  {
    var s, th := sys.store, sys.threads;
    var id := |s.entries|;
    var b, th' := Install(s, path), th[t := Loading(id)];
    InstallEntries(s, th, t, path);
    SoundList(s, th);
    InstallFields(s, path);
    NobodyOwnsNew(s, th);
    forall u | 0 <= u < |th'| ensures PhaseOk(b, th'[u]) {
      assert PhaseOk(s, th[u]);
    }
    LoadedCountFrame(s.entries, b.entries, s.order);
    assert b.order[1..] == s.order;
  }

  lemma OnlyLoader(s: Store, th: seq<Phase>, t: nat, u: nat)
    requires ThreadsOk(s, th) && t < |th| && u < |th| && u != t && IsLoader(th[t]) && Owns(th[u], th[t].id)
    ensures !IsLoader(th[u])
  {
  }

  /** The loader attaches its reader to entry `id`. */
  lemma AttachSound(s: Store, th: seq<Phase>, b: Store, t: nat)
    requires Sound(s, th) && ThreadsOk(s, th) && t < |th| && th[t].Loading?
    requires ChangedOnly(s, b, th[t].id) && b.openFiles == s.openFiles
    requires var id := th[t].id; var e := s.entries[id].(reader := Reader(0));
             if e.closePending then b.entries[id] == e && b.order == s.order
             else b.entries[id] == e.(evicted := false) && id in b.order
    ensures Sound(b, th[t := Loaded(th[t].id)]) && ThreadsOk(b, th[t := Loaded(th[t].id)])
  {
    var id := th[t].id;
    assert PhaseOk(s, th[t]);
    assert EntryOk(s, th, id);
    CountUpdate(th, t, Loaded(id), id);
    CountsOthers(th, t, Loaded(id), id);
    CountsOwner(th, t, id);
    ChangeOne(s, th, b, th[t := Loaded(id)], id);
    forall u | 0 <= u < |th| && u != t && Owns(th[u], id) ensures PhaseOk(b, th[u]) {
      assert PhaseOk(s, th[u]);
      OnlyLoader(s, th, t, u);
    }
    OtherPhases(s, th, b, t, Loaded(id), id);
  }

  lemma LoadOkKeepsInv(sys: System, t: nat)
    requires Inv(sys) && Enabled(sys, LoadOk(t))
    ensures Inv(Step(sys, LoadOk(t)))
  {
    var s, th := sys.store, sys.threads;
    var id := th[t].id;
    assert PhaseOk(s, th[t]);
    SoundList(s, th);
    var e := s.entries[id].(reader := Reader(0));
    var b := if e.closePending then Set(s, id, e) else Touch(Set(s, id, e.(evicted := false)), e.path, id);
    if !e.closePending {
      UpdateAndTouch(s, id, e.(evicted := false));
    }
    AttachSound(s, th, b, t);
    EvictExcessSound(b, th[t := Loaded(id)]);
  }

  lemma FailFields(s: Store, id: Id)
    requires WellFormed(s) && Live(s, id)
    ensures var b := Fail(s, id); var path := s.entries[id].path;
            && b.entries == s.entries[id := s.entries[id].(loadErr := true)]
            && b.openFiles == s.openFiles - {path} && b.order == Unlist(s, path).order && b.cap == s.cap
  {
    var e := s.entries[id].(loadErr := true);
    UnlistSame(s, Set(s, id, e).(openFiles := s.openFiles - {e.path}), e.path);
  }

  /** Taking entry `id` out of both structures changes the store around it only. */
  lemma Removed(s: Store, b: Store, id: Id)
    requires ListOk(s) && Live(s, id)
    requires |b.entries| == |s.entries| && b.cap == s.cap && b.openFiles == s.openFiles - {s.entries[id].path}
    requires b.entries == s.entries[id := b.entries[id]] && b.entries[id].path == s.entries[id].path
    requires NoRepeats(b.order) && forall x :: x in b.order <==> x in s.order && x != id
    ensures ChangedOnly(s, b, id) && !Live(b, id)
  {
    forall i | 0 <= i < |b.order| ensures b.order[i] < |b.entries| {
      assert b.order[i] in b.order;
    }
  }

  lemma FailFacts(s: Store, th: seq<Phase>, id: Id)
    requires Sound(s, th) && Live(s, id)
    ensures var b := Fail(s, id);
            && ChangedOnly(s, b, id) && !Live(b, id) && id !in b.order
            && b.entries[id] == s.entries[id].(loadErr := true)
            && LoadedCount(b.entries, b.order) <= LoadedCount(s.entries, s.order) && b.cap == s.cap
  {
    var b := Fail(s, id);
    SoundList(s, th);
    UnlistFacts(s, id);
    FailFields(s, id);
    Removed(s, b, id);
    LoadedCountFrame(s.entries, b.entries, b.order);
  }

  lemma LoadErrKeepsInv(sys: System, t: nat)
    requires Inv(sys) && Enabled(sys, LoadErr(t))
    ensures Inv(Step(sys, LoadErr(t)))
  {
    var s, th := sys.store, sys.threads;
    var id := th[t].id;
    assert PhaseOk(s, th[t]);
    assert EntryOk(s, th, id);
    FailFacts(s, th, id);
    var b := Fail(s, id);
    CountsOthers(th, t, LoadFailed(id), id);
    ChangeOne(s, th, b, th[t := LoadFailed(id)], id);
    forall u | 0 <= u < |th| && u != t && Owns(th[u], id) ensures PhaseOk(b, th[u]) {
      assert PhaseOk(s, th[u]);
      OnlyLoader(s, th, t, u);
    }
    OtherPhases(s, th, b, t, LoadFailed(id), id);
  }

  /** Unlisting depends on the list and the paths only. */
  lemma UnlistSame(s: Store, s': Store, path: Path)
    requires WellFormed(s) && WellFormed(s') && s'.order == s.order && |s'.entries| == |s.entries|
    requires forall id :: 0 <= id < |s.entries| ==> s'.entries[id].path == s.entries[id].path
    ensures Unlist(s', path).order == Unlist(s, path).order
  {
    PositionSame(s.entries, s'.entries, s.order, path);
  }

  lemma {:induction false} PositionSame(entries: seq<ZipEntry>, entries': seq<ZipEntry>, order: seq<Id>, path: Path)
    requires |entries'| == |entries| && forall i :: 0 <= i < |order| ==> order[i] < |entries|
    requires forall id :: 0 <= id < |entries| ==> entries'[id].path == entries[id].path
    ensures Position(entries', order, path) == Position(entries, order, path)
  {
    if order != [] {
      assert forall i :: 0 <= i < |order[1..]| ==> order[1..][i] == order[i + 1];
      PositionSame(entries, entries', order[1..], path);
    }
  }

  lemma CloseReadyKeepsInv(sys: System, t: nat)
    requires Inv(sys) && Enabled(sys, CloseReady(t))
    ensures Inv(Step(sys, CloseReady(t)))
  {
    var s, th := sys.store, sys.threads;
    var id := th[t].id;
    var p := if th[t].Loaded? then Holding(id) else Idle;
    assert PhaseOk(s, th[t]);
    assert EntryOk(s, th, id);
    var b := Signal(s, id);
    CountUpdate(th, t, p, id);
    CountsOthers(th, t, p, id);
    ChangeOne(s, th, b, th[t := p], id);
    forall u | 0 <= u < |th| && u != t && Owns(th[u], id) ensures PhaseOk(b, th[u]) {
      assert PhaseOk(s, th[u]);
      OnlyLoader(s, th, t, u);
    }
    OtherPhases(s, th, b, t, p, id);
    LoadedCountFrame(s.entries, b.entries, s.order);
  }

  lemma WakeKeepsInv(sys: System, t: nat)
    requires Inv(sys) && Enabled(sys, Wake(t))
    ensures Inv(Step(sys, Wake(t)))
  {
    var s, th := sys.store, sys.threads;
    var id := th[t].id;
    var p := if s.entries[id].loadErr then Idle else Holding(id);
    assert PhaseOk(s, th[t]);
    assert EntryOk(s, th, id);
    CountUpdate(th, t, p, id);
    CountsOthers(th, t, p, id);
    ChangeOne(s, th, s, th[t := p], id);
    forall u | 0 <= u < |th| && u != t && Owns(th[u], id) ensures PhaseOk(s, th[u]) {
    }
    OtherPhases(s, th, s, t, p, id);
  }

  lemma ReleaseFacts(s: Store, th: seq<Phase>, t: nat)
    requires Sound(s, th) && ThreadsOk(s, th) && t < |th| && th[t].Holding?
    ensures var id := th[t].id; var b := ReleasePath(s, s.entries[id].path);
            && Live(s, id) && ChangedOnly(s, b, id) && b.order == s.order && b.cap == s.cap
            && EntryOk(b, th[t := Idle], id)
            && (Count(th[t := Idle], id) > 0 ==> b.openFiles == s.openFiles
                                                 && b.entries[id] == s.entries[id].(refs := s.entries[id].refs - 1))
            && LoadedCount(b.entries, b.order) == LoadedCount(s.entries, s.order)
  {
    var id := th[t].id;
    var b := ReleasePath(s, s.entries[id].path);
    assert PhaseOk(s, th[t]);
    assert EntryOk(s, th, id);
    CountUpdate(th, t, Idle, id);
    CountsOwner(th, t, id);
    assert forall i :: 0 <= i < |s.order| ==> s.order[i] in s.order;
    LoadedCountFrame(s.entries, b.entries, s.order);
  }

  lemma ReleaseKeepsInv(sys: System, t: nat)
    requires Inv(sys) && Enabled(sys, Release(t))
    ensures Inv(Step(sys, Release(t)))
  {
    var s, th := sys.store, sys.threads;
    var id := th[t].id;
    ReleaseFacts(s, th, t);
    CountsOthers(th, t, Idle, id);
    var b := ReleasePath(s, s.entries[id].path);
    ChangeOne(s, th, b, th[t := Idle], id);
    forall u | 0 <= u < |th| && u != t && Owns(th[u], id) ensures PhaseOk(b, th[u]) {
      assert PhaseOk(s, th[u]);
      CountsOwner(th[t := Idle], u, id);
    }
    OtherPhases(s, th, b, t, Idle, id);
  }

  /** Closing a path leaves every other borrower as it was. */
  lemma CloseKeepsPhases(sys: System, path: Path, b: Store)
    requires Inv(sys) && path in sys.store.openFiles
    requires b == ClosePath(sys.store, path) || (b == TryClose(sys.store, path) && !InUse(sys.store, path))
    ensures forall u :: 0 <= u < |sys.threads| ==> PhaseOk(b, sys.threads[u])
  {
    var s, th := sys.store, sys.threads;
    var id := s.openFiles[path];
    assert EntryOk(s, th, id);
    SoundList(s, th);
    UnlistFacts(s, id);
    forall u | 0 <= u < |th| ensures PhaseOk(b, th[u]) {
      assert PhaseOk(s, th[u]);
      if !th[u].Idle? && th[u].id != id {
        OthersStayLive(s, b, id, th[u].id);
      } else if !th[u].Idle? {
        CountsOwner(th, u, id);
      }
    }
  }

  /** `CloseBook` and `TryCloseForReplace`, on a path that is present. */
  lemma CloseKeepsInv(sys: System, path: Path, b: Store)
    requires Inv(sys) && path in sys.store.openFiles
    requires b == ClosePath(sys.store, path) || (b == TryClose(sys.store, path) && !InUse(sys.store, path))
    ensures Inv(System(b, sys.threads))
  {
    var s, th := sys.store, sys.threads;
    CloseFacts(s, th, path, b);
    CloseKeepsPhases(sys, path, b);
    hide Sound, LoadedCount, PhaseOk, ChangedOnly, EntryOk;
    ChangeOne(s, th, b, th, s.openFiles[path]);
  }

  lemma CloseFacts(s: Store, th: seq<Phase>, path: Path, b: Store)
    requires Sound(s, th) && path in s.openFiles
    requires b == ClosePath(s, path) || (b == TryClose(s, path) && !InUse(s, path))
    ensures ChangedOnly(s, b, s.openFiles[path]) && EntryOk(b, th, s.openFiles[path]) && b.cap == s.cap
    ensures forall i :: 0 <= i < |b.order| ==> b.order[i] < |b.entries|
    ensures LoadedCount(b.entries, b.order) <= LoadedCount(s.entries, s.order)
  {
    var id := s.openFiles[path];
    assert EntryOk(s, th, id);
    SoundList(s, th);
    UnlistFacts(s, id);
    hide LoadedCount, Unlist, ListOk;
    CloseCount(s, b, id);
  }

  /** The closed entry is off the list, so the others count as before. */
  lemma CloseCount(s: Store, b: Store, id: Id)
    requires WellFormed(s) && WellFormed(b) && id !in b.order && |b.entries| == |s.entries|
    requires forall x :: 0 <= x < |s.entries| && x != id ==> b.entries[x] == s.entries[x]
    requires LoadedCount(s.entries, b.order) <= LoadedCount(s.entries, s.order)
    ensures forall i :: 0 <= i < |b.order| ==> b.order[i] < |b.entries|
    ensures LoadedCount(b.entries, b.order) <= LoadedCount(s.entries, s.order)
  {
    assert forall i :: 0 <= i < |b.order| ==> b.order[i] in b.order;
    LoadedCountFrame(s.entries, b.entries, b.order);
  }

  lemma ShutdownKeepsInv(sys: System)
    requires Inv(sys) && Enabled(sys, CloseStore)
    ensures Inv(Step(sys, CloseStore))
  {
    var s, th := sys.store, sys.threads;
    var b := Shutdown(s);
    forall x | 0 <= x < |b.entries| ensures EntryOk(b, th, x) {
      assert EntryOk(s, th, x);
      CountNone(th, x);
    }
  }

  /** Every step of every borrower, in any interleaving, keeps the invariant. */
  lemma StepKeepsInv(sys: System, ev: Event)
    requires Inv(sys) && Enabled(sys, ev)
    ensures Inv(Step(sys, ev))
  {
    match ev
    case Acquire(t, path) =>
      if path in sys.store.openFiles { HitKeepsInv(sys, t, path); } else { InstallKeepsInv(sys, t, path); }
    case LoadOk(t) => LoadOkKeepsInv(sys, t);
    case LoadErr(t) => LoadErrKeepsInv(sys, t);
    case CloseReady(t) => CloseReadyKeepsInv(sys, t);
    case Wake(t) => WakeKeepsInv(sys, t);
    case Release(t) => ReleaseKeepsInv(sys, t);
    case Close(path) =>
      if path in sys.store.openFiles { CloseKeepsInv(sys, path, ClosePath(sys.store, path)); }
    case Replace(path) =>
      if path in sys.store.openFiles && !InUse(sys.store, path) {
        CloseKeepsInv(sys, path, TryClose(sys.store, path));
      }
    case CloseStore => ShutdownKeepsInv(sys);
  }

  lemma {:induction false} RunKeepsInv(states: seq<System>, events: seq<Event>, n: nat)
    requires IsRun(states, events) && n < |states|
    ensures Inv(states[n])
  {
    if n > 0 {
      RunKeepsInv(states, events, n - 1);
      assert StepAt(states, events, n - 1);
      StepKeepsInv(states[n - 1], events[n - 1]);
    }
  }

  // ---------------------------------------------------------------- what borrowers and callers get

  /** In every reachable state: a borrower's reader is open and complete, no reader was closed
      twice, and a reader that left the store was closed (nothing leaks). */
  lemma BorrowersAreSafe(states: seq<System>, events: seq<Event>, n: nat)
    requires IsRun(states, events) && n < |states|
    ensures var s, th := states[n].store, states[n].threads;
            && (forall t :: 0 <= t < |th| && th[t].Holding? ==>
                  th[t].id < |s.entries| && s.entries[th[t].id].reader == Reader(0) && s.entries[th[t].id].ready)
            && (forall id :: 0 <= id < |s.entries| && s.entries[id].reader.Reader? ==>
                  s.entries[id].reader.closes == if Live(s, id) then 0 else 1)
  {
    RunKeepsInv(states, events, n);
    var s, th := states[n].store, states[n].threads;
    forall id | 0 <= id < |s.entries| && s.entries[id].reader.Reader?
      ensures s.entries[id].reader.closes == if Live(s, id) then 0 else 1
    {
      assert EntryOk(s, th, id);
    }
    forall t | 0 <= t < |th| && th[t].Holding?
      ensures th[t].id < |s.entries| && s.entries[th[t].id].reader == Reader(0) && s.entries[th[t].id].ready
    {
      assert PhaseOk(s, th[t]);
      assert EntryOk(s, th, th[t].id);
    }
  }

  /** `Release(path)` decrements the very entry its borrower acquired, and no other entry, even when
      other loads of the same path failed with waiters queued meanwhile. */
  lemma ReleaseHitsItsEntry(states: seq<System>, events: seq<Event>, n: nat, t: nat)
    requires IsRun(states, events) && n < |events| && events[n] == Release(t)
    requires t < |states[n].threads| && states[n].threads[t].Holding?
    ensures var s, s', id := states[n].store, states[n + 1].store, states[n].threads[t].id;
            && id < |s.entries| == |s'.entries|
            && s'.entries[id].refs == s.entries[id].refs - 1
            && forall x :: 0 <= x < |s.entries| && x != id ==> s'.entries[x] == s.entries[x]
  {
    RunKeepsInv(states, events, n);
    assert StepAt(states, events, n);
    var s, th := states[n].store, states[n].threads;
    assert PhaseOk(s, th[t]);
    assert EntryOk(s, th, th[t].id);
    CountsOwner(th, t, th[t].id);
  }

  /** The store's own view, in every reachable state: an entry of `openFiles` is on the LRU list
      exactly when it is not evicted, its count is the number of borrowers, and an unreferenced one
      is loaded and listed. */
  lemma OpenFilesAreConsistent(states: seq<System>, events: seq<Event>, n: nat, path: Path)
    requires IsRun(states, events) && n < |states| && path in states[n].store.openFiles
    ensures var s, th := states[n].store, states[n].threads; var id := s.openFiles[path];
            && id < |s.entries| && s.entries[id].path == path
            && (id in s.order <==> !s.entries[id].evicted)
            && s.entries[id].refs == Count(th, id)
            && (s.entries[id].refs == 0 ==> s.entries[id].reader == Reader(0) && id in s.order)
  {
    RunKeepsInv(states, events, n);
    var s, th := states[n].store, states[n].threads;
    assert EntryOk(s, th, s.openFiles[path]);
  }

  ghost predicate IsOpen(s: Store, id: Id) {
    id < |s.entries| && s.entries[id].reader == Reader(0)
  }

  ghost function OpenReaders(s: Store): set<Id> {
    set id | 0 <= id < |s.entries| && IsOpen(s, id)
  }

  ghost function BorrowedReaders(s: Store): set<Id> {
    set id | 0 <= id < |s.entries| && IsOpen(s, id) && s.entries[id].refs > 0
  }

  ghost function LoadedIds(entries: seq<ZipEntry>, order: seq<Id>): (r: set<Id>)
    requires forall i :: 0 <= i < |order| ==> order[i] < |entries|
    ensures |r| <= LoadedCount(entries, order)
    ensures forall i :: 0 <= i < |order| && entries[order[i]].reader.Reader? ==> order[i] in r
  {
    if order == [] then {}
    else
      var rest := LoadedIds(entries, order[1..]);
      assert forall i :: 1 <= i < |order| ==> order[i] == order[1..][i - 1];
      if entries[order[0]].reader.Reader? then {order[0]} + rest else rest
  }

  /** Open readers never exceed the retention limit plus the readers being borrowed. */
  lemma OpenReadersAreBounded(states: seq<System>, events: seq<Event>, n: nat)
    requires IsRun(states, events) && n < |states|
    ensures var s := states[n].store; |OpenReaders(s)| <= s.cap + |BorrowedReaders(s)|
  {
    RunKeepsInv(states, events, n);
    var s, th := states[n].store, states[n].threads;
    var listed, borrowed := LoadedIds(s.entries, s.order), BorrowedReaders(s);
    forall id | id in OpenReaders(s) ensures id in listed + borrowed {
      assert EntryOk(s, th, id);
      if s.entries[id].refs <= 0 {
        assert id in s.order;
      }
    }
    SubsetSize(OpenReaders(s), listed + borrowed);
  }

  // ---------------------------------------------------------------- an explicit close survives

  lemma {:induction false} EvictionFrame(s: Store, id: Id)
    requires WellFormed(s) && id < |s.entries|
    ensures var r := EvictExcess(s);
            && |r.entries| == |s.entries| && r.entries[id].path == s.entries[id].path
            && r.entries[id].closePending == s.entries[id].closePending
            && (Live(r, id) ==> Live(s, id))
    decreases |s.order|
  {
    if |s.order| > s.cap {
      EvictionFrame(EvictOne(s), id);
    }
  }

  /** Once out of the store, an entry never comes back; while it stays, only an acquire of its path
      withdraws a pending close. */
  lemma PendingStep(sys: System, ev: Event, id: Id)
    requires Inv(sys) && Enabled(sys, ev) && id < |sys.store.entries|
    requires !Live(sys.store, id) || sys.store.entries[id].closePending
    requires Live(sys.store, id) && ev.Acquire? ==> ev.path != sys.store.entries[id].path
    ensures StillPending(sys.store, Step(sys, ev).store, id)
  {
    var s, th := sys.store, sys.threads;
    match ev
    case Acquire(t, path) => PendingAcquire(s, path, id);
    case LoadOk(t) =>
      assert PhaseOk(s, th[t]);
      PendingLoadOk(s, th[t].id, id);
    case LoadErr(t) =>
      assert PhaseOk(s, th[t]);
      FailFields(s, th[t].id);
    case CloseReady(t) =>
    case Wake(t) =>
    case Release(t) => PendingPaths(s, s.entries[th[t].id].path, id);
    case Close(path) => PendingPaths(s, path, id);
    case Replace(path) => PendingPaths(s, path, id);
    case CloseStore =>
  }

  lemma PendingAcquire(s: Store, path: Path, id: Id)
    requires WellFormed(s) && id < |s.entries|
    requires !Live(s, id) || s.entries[id].closePending
    requires Live(s, id) ==> path != s.entries[id].path
    requires path in s.openFiles ==> s.entries[s.openFiles[path]].path == path
    ensures StillPending(s, if path in s.openFiles then Hit(s, path) else Install(s, path), id)
  {
    if path in s.openFiles {
      assert s.openFiles[path] != id;
      assert Joined(s, path).entries[id] == s.entries[id] && Joined(s, path).openFiles == s.openFiles;
      EvictionFrame(Joined(s, path), id);
      assert Hit(s, path) == EvictExcess(Joined(s, path));
    }
  }

  lemma PendingPaths(s: Store, path: Path, id: Id)
    requires WellFormed(s) && id < |s.entries|
    requires !Live(s, id) || s.entries[id].closePending
    ensures StillPending(s, ReleasePath(s, path), id) && StillPending(s, ClosePath(s, path), id)
    ensures StillPending(s, TryClose(s, path), id)
  {
  }

  lemma PendingLoadOk(s: Store, own: Id, id: Id)
    requires WellFormed(s) && id < |s.entries| && Live(s, own)
    requires !Live(s, id) || s.entries[id].closePending
    ensures StillPending(s, Publish(s, own), id)
  {
    var e := s.entries[own].(reader := Reader(0));
    EvictionFrame(if e.closePending then Set(s, own, e) else Touch(Set(s, own, e.(evicted := false)), e.path, own), id);
  }

  /** Entry `id` is out of the store for good, or was and is marked for closing. */
  ghost predicate StillPending(s: Store, s': Store, id: Id)
    requires id < |s.entries|
  {
    && id < |s'.entries| && s'.entries[id].path == s.entries[id].path
    && (!Live(s', id) || (Live(s, id) && s'.entries[id].closePending))
  }

  /** Entry `id` is marked and some borrower still references it, or it is out and closed. */
  ghost predicate Closing(sys: System, id: Id) {
    var s := sys.store;
    && id < |s.entries|
    && (Live(s, id) ==> s.entries[id].closePending && Count(sys.threads, id) > 0)
    && (!Live(s, id) && s.entries[id].reader.Reader? ==> s.entries[id].reader.closes == 1)
  }

  lemma ClosingFromPending(sys: System, id: Id)
    requires Inv(sys) && id < |sys.store.entries|
    requires Live(sys.store, id) ==> sys.store.entries[id].closePending
    ensures Closing(sys, id)
  {
    assert EntryOk(sys.store, sys.threads, id);
  }

  ghost predicate Pending(s: Store, id: Id, path: Path) {
    id < |s.entries| && s.entries[id].path == path && (Live(s, id) ==> s.entries[id].closePending)
  }

  lemma CloseMarks(sys: System, path: Path)
    requires Inv(sys) && path in sys.store.openFiles
    ensures Pending(ClosePath(sys.store, path), sys.store.openFiles[path], path)
  {
  }

  lemma {:induction false} PendingStays(states: seq<System>, events: seq<Event>, m: nat, n: nat, path: Path)
    requires IsRun(states, events) && m < n < |states|
    requires events[m] == Close(path) && path in states[m].store.openFiles
    requires forall i :: m < i < n && events[i].Acquire? ==> events[i].path != path
    ensures Pending(states[n].store, states[m].store.openFiles[path], path)
  {
    RunKeepsInv(states, events, n - 1);
    assert StepAt(states, events, n - 1);
    if n - 1 > m {
      PendingStays(states, events, m, n - 1, path);
      PendingStep(states[n - 1], events[n - 1], states[m].store.openFiles[path]);
    } else {
      CloseMarks(states[m], path);
    }
  }

  /** A `CloseBook` of an entry that is loading or borrowed is honoured: as long as nobody acquires the
      path again, the entry stays marked, and it is out of the store, with its reader closed, as
      soon as the last borrower is gone. */
  lemma CloseIsHonoured(states: seq<System>, events: seq<Event>, m: nat, n: nat, path: Path)
    requires IsRun(states, events) && m < n < |states|
    requires events[m] == Close(path) && path in states[m].store.openFiles
    requires forall i :: m < i < n && events[i].Acquire? ==> events[i].path != path
    ensures Closing(states[n], states[m].store.openFiles[path])
    ensures states[n].store.entries[states[m].store.openFiles[path]].path == path
  {
    PendingStays(states, events, m, n, path);
    RunKeepsInv(states, events, n);
    ClosingFromPending(states[n], states[m].store.openFiles[path]);
  }

  // ---------------------------------------------------------------- the store

  const CHAPTER_CACHE_BYTES := 48 * 1024 * 1024
  const TEXT_CACHE_BYTES := 32 * 1024 * 1024
  const CSS_CACHE_BYTES := 8 * 1024 * 1024

  /** The keys of what is derived from a book's content; of a value only its size matters here. */
  datatype ChapterRenderKey = ChapterRenderKey(filePath: Path, chapterIndex: int, renderVersion: string)
  datatype ChapterTextKey = ChapterTextKey(filePath: Path, chapterIndex: int)
  datatype CssFragmentKey = CssFragmentKey(filePath: Path, cssPath: string)

  function OtherRender(path: Path): ChapterRenderKey -> bool {
    (k: ChapterRenderKey) => k.filePath != path
  }

  function OtherText(path: Path): ChapterTextKey -> bool {
    (k: ChapterTextKey) => k.filePath != path
  }

  function OtherCss(path: Path): CssFragmentKey -> bool {
    (k: CssFragmentKey) => k.filePath != path
  }

  /** The `EPUBStore` object.  Each method is one critical section; `State` is the whole of it. */
  class EPUBStore {
    const cap: nat
    const chapters: LRUCache<ChapterRenderKey, nat>
    const texts: LRUCache<ChapterTextKey, nat>
    const cssFrags: LRUCache<CssFragmentKey, nat>
    var entries: seq<ZipEntry>
    var openFiles: map<Path, Id>
    var order: seq<Id>

    function State(): Store
      reads this
    {
      Store(cap, entries, openFiles, order)
    }

    ghost predicate CachesOk()
      reads chapters, texts, cssFrags
    {
      && chapters.Valid() && texts.Valid() && cssFrags.Valid()
      && (chapters as object) != texts && (chapters as object) != cssFrags && (texts as object) != cssFrags
    }

    constructor (maxSize: int)
      ensures WellFormed(State()) && Initial(System(State(), []))
      ensures cap == if maxSize < 1 then 10 else maxSize
      ensures CachesOk() && fresh(chapters) && fresh(texts) && fresh(cssFrags)
      ensures chapters.limits == Limits(10 * cap, true, CHAPTER_CACHE_BYTES) && chapters.order == []
      ensures texts.limits == Limits(5 * cap, true, TEXT_CACHE_BYTES) && texts.order == []
      ensures cssFrags.limits == Limits(4 * cap, true, CSS_CACHE_BYTES) && cssFrags.order == []
    {
      var size := if maxSize < 1 then 10 else maxSize;
      cap := size;
      chapters := new LRUCache(size * 10, true, CHAPTER_CACHE_BYTES, n => n);
      texts := new LRUCache(size * 5, true, TEXT_CACHE_BYTES, n => n);
      cssFrags := new LRUCache(size * 4, true, CSS_CACHE_BYTES, n => n);
      entries, openFiles, order := [], map[], [];
    }

    /** Everything derived from other books is left, in its order. */
    twostate predicate Evicted(path: Path)
      reads chapters, texts, cssFrags
    {
      && chapters.order == Kept(old(chapters.order), OtherRender(path))
      && texts.order == Kept(old(texts.order), OtherText(path))
      && cssFrags.order == Kept(old(cssFrags.order), OtherCss(path))
    }

    method EvictBook(path: Path)
      requires CachesOk()
      modifies chapters, texts, cssFrags
      ensures CachesOk() && Evicted(path)
    {
      chapters.DeleteFunc(OtherRender(path));
      texts.DeleteFunc(OtherText(path));
      cssFrags.DeleteFunc(OtherCss(path));
    }

    method TouchList(path: Path, id: Id)
      requires WellFormed(State()) && id < |entries|
      modifies this`order
      ensures State() == Touch(old(State()), path, id)
    {
      var i := Position(entries, order, path);
      if i >= 0 {
        order := [order[i]] + RemoveAt(order, i);
      } else {
        order := [id] + order;
      }
    }

    method RemoveFromList(path: Path)
      requires WellFormed(State())
      modifies this`order
      ensures State() == Unlist(old(State()), path)
    {
      var i := Position(entries, order, path);
      if i >= 0 {
        order := RemoveAt(order, i);
      }
    }

    method Evict()
      requires WellFormed(State())
      modifies this
      ensures State() == EvictExcess(old(State()))
    {
      while |order| > cap
        invariant WellFormed(State()) && EvictExcess(State()) == EvictExcess(old(State()))
        decreases |order|
      {
        ghost var next := EvictOne(State());
        var n := |order| - 1;
        var victim := order[n];
        order := order[..n];
        if entries[victim].refs == 0 {
          openFiles := openFiles - {entries[victim].path};
          if entries[victim].reader.Reader? {
            entries := entries[victim := CloseReader(entries[victim])];
          }
        } else {
          entries := entries[victim := entries[victim].(evicted := true)];
        }
        assert State() == next;
      }
    }

    /** The first critical section of `acquireWithOpener`: a hit, or a loading placeholder. */
    method AcquireSection(path: Path) returns (id: Id, loader: bool)
      requires WellFormed(State())
      modifies this
      ensures loader <==> path !in old(openFiles)
      ensures loader ==> id == |old(entries)| && State() == Install(old(State()), path)
      ensures !loader ==> id == old(openFiles)[path] && State() == Hit(old(State()), path)
    {
      if path in openFiles {
        id, loader := openFiles[path], false;
        ghost var joined := Joined(State(), path);
        var e := entries[id];
        entries := entries[id := e.(refs := e.refs + 1, evicted := false, closePending := false)];
        TouchList(path, id);
        assert State() == joined;
        Evict();
        return;
      }
      id, loader := |entries|, true;
      entries := entries + [ZipEntry(path, NoReader, 1, false, false, false, false)];
      openFiles := openFiles[path := id];
      TouchList(path, id);
    }

    /** The second critical section, after the archive was opened or refused. */
    method FinishLoad(id: Id, ok: bool)
      requires WellFormed(State()) && id < |entries|
      modifies this
      ensures State() == if ok then Publish(old(State()), id) else Fail(old(State()), id)
    {
      if !ok {
        entries := entries[id := entries[id].(loadErr := true)];
        var path := entries[id].path;
        if path in openFiles && openFiles[path] == id {
          openFiles := openFiles - {path};
          RemoveFromList(path);
        }
        return;
      }
      ghost var was := entries;
      entries := entries[id := entries[id].(reader := Reader(0))];
      if !entries[id].closePending {
        entries := entries[id := entries[id].(evicted := false)];
        assert entries == was[id := was[id].(reader := Reader(0), evicted := false)];
        TouchList(entries[id].path, id);
      }
      Evict();
    }

    method CloseReadyChannel(id: Id)
      requires WellFormed(State()) && id < |entries|
      modifies this
      ensures State() == Signal(old(State()), id)
    {
      entries := entries[id := entries[id].(ready := true)];
    }

    method Release(path: Path)
      requires WellFormed(State())
      modifies this
      ensures State() == ReleasePath(old(State()), path)
    {
      if path !in openFiles {
        return;
      }
      var id := openFiles[path];
      if entries[id].refs <= 0 {
        return;
      }
      entries := entries[id := entries[id].(refs := entries[id].refs - 1)];
      if entries[id].refs == 0 && entries[id].evicted {
        if entries[id].reader.Reader? {
          entries := entries[id := CloseReader(entries[id])];
        }
        openFiles := openFiles - {path};
      }
    }

    method CloseBook(path: Path)
      requires WellFormed(State())
      modifies this
      ensures State() == ClosePath(old(State()), path)
    {
      if path !in openFiles {
        return;
      }
      var id := openFiles[path];
      RemoveFromList(path);
      if entries[id].refs == 0 {
        if entries[id].reader.Reader? {
          entries := entries[id := CloseReader(entries[id])];
        }
        openFiles := openFiles - {path};
      } else {
        entries := entries[id := entries[id].(evicted := true, closePending := true)];
      }
    }

    method TryCloseForReplace(path: Path) returns (ok: bool)
      requires WellFormed(State()) && CachesOk()
      modifies this, chapters, texts, cssFrags
      ensures ok <==> !InUse(old(State()), path)
      ensures State() == TryClose(old(State()), path)
      ensures CachesOk() && if ok then Evicted(path) else unchanged(chapters, texts, cssFrags)
    {
      if path in openFiles {
        var id := openFiles[path];
        if entries[id].refs > 0 {
          return false;
        }
        ghost var closed := TryClose(State(), path);
        RemoveFromList(path);
        if entries[id].reader.Reader? {
          entries := entries[id := CloseReader(entries[id])];
        }
        openFiles := openFiles - {path};
        assert State() == closed;
      }
      ghost var done := State();
      EvictBook(path);
      assert State() == done;
      return true;
    }

    /** The loop of `Close` over the paths. */
    method CloseReaders()
      requires WellFormed(State()) && forall p :: p in openFiles ==> entries[openFiles[p]].path == p
      modifies this`entries
      ensures entries == Shutdown(old(State())).entries
    {
      ghost var was := State();
      var todo := openFiles.Keys;
      while todo != {}
        invariant todo <= openFiles.Keys && |entries| == |was.entries|
        invariant forall id :: 0 <= id < |entries| ==>
          entries[id] == if Live(was, id) && was.entries[id].path !in todo then CloseReader(was.entries[id]) else was.entries[id]
        decreases todo
      {
        var path :| path in todo;
        todo := todo - {path};
        var id := openFiles[path];
        if entries[id].reader.Reader? {
          entries := entries[id := CloseReader(entries[id])];
        }
      }
    }

    /** `Close`, after all borrowers are gone. */
    method Close()
      requires WellFormed(State()) && CachesOk()
      requires forall p :: p in openFiles ==> entries[openFiles[p]].path == p
      modifies this, chapters, texts, cssFrags
      ensures State() == Shutdown(old(State()))
      ensures CachesOk() && chapters.order == [] && texts.order == [] && cssFrags.order == []
    {
      CloseReaders();
      openFiles, order := map[], [];
      ghost var closed := State();
      chapters.Clear();
      texts.Clear();
      cssFrags.Clear();
      assert State() == closed;
    }
  }
}
