/** What each step of the ZIP reader cache does, exactly: which readers stay open, in which order the list
    keeps them, and what an explicit close or a replacement takes away.  internal/epub/store.go. */
module Retention {

  import opened Basics
  import opened EpubStore

  // ---------------------------------------------------------------- the list

  /** The list without one entry. */
  function Others(order: seq<Id>, id: Id): seq<Id> {
    if order == [] then [] else (if order[0] == id then [] else [order[0]]) + Others(order[1..], id)
  }

  /** At most the first `cap` entries. */
  function Front(order: seq<Id>, cap: nat): seq<Id> {
    if |order| <= cap then order else order[..cap]
  }

  lemma {:induction false} OthersOfAbsent(order: seq<Id>, id: Id)
    requires id !in order
    ensures Others(order, id) == order
  {
    if order != [] {
      OthersOfAbsent(order[1..], id);
      assert order == [order[0]] + order[1..];
    }
  }

  lemma {:induction false} RemovedIsOthers(order: seq<Id>, i: nat)
    requires NoRepeats(order) && i < |order|
    ensures RemoveAt(order, i) == Others(order, order[i])
  {
    if i == 0 {
      assert order[0] !in order[1..];
      OthersOfAbsent(order[1..], order[0]);
      assert RemoveAt(order, 0) == order[1..];
    } else {
      RemovedIsOthers(order[1..], i - 1);
      assert RemoveAt(order, i) == [order[0]] + RemoveAt(order[1..], i - 1);
    }
  }

  lemma TouchMovesToFront(s: Store, id: Id)
    requires ListOk(s) && Live(s, id)
    ensures Touch(s, s.entries[id].path, id).order == [id] + Others(s.order, id)
    ensures ListOk(Touch(s, s.entries[id].path, id))
  {
    FindsItself(s, id);
    TouchFacts(s, id);
    var r := Touch(s, s.entries[id].path, id);
    var i := Position(s.entries, s.order, s.entries[id].path);
    if i >= 0 { RemovedIsOthers(s.order, i); } else { OthersOfAbsent(s.order, id); }
    forall j | 0 <= j < |r.order| ensures Live(r, r.order[j]) { assert r.order[j] in r.order; }
  }

  lemma UnlistRemoves(s: Store, id: Id)
    requires ListOk(s) && Live(s, id)
    ensures Unlist(s, s.entries[id].path) == s.(order := Others(s.order, id))
  {
    FindsItself(s, id);
    var i := Position(s.entries, s.order, s.entries[id].path);
    if i >= 0 { RemovedIsOthers(s.order, i); } else { OthersOfAbsent(s.order, id); }
  }

  // ---------------------------------------------------------------- eviction

  lemma EvictOneList(s: Store)
    requires ListOk(s) && s.order != []
    ensures var n := |s.order| - 1;
            var r, v := EvictOne(s), s.order[n];
            && ListOk(r) && r.order == s.order[..n] && |r.entries| == |s.entries| && r.cap == s.cap && v !in r.order
            && (forall x :: 0 <= x < |s.entries| && x != v ==> r.entries[x] == s.entries[x] && (Live(r, x) <==> Live(s, x)))
            && r.entries[v].refs == s.entries[v].refs && r.entries[v].closePending == s.entries[v].closePending
            && (Live(r, v) <==> s.entries[v].refs != 0)
  {
    var n := |s.order| - 1;
    assert Live(s, s.order[n]);
    forall i | 0 <= i < n ensures Live(EvictOne(s), s.order[i]) { assert Live(s, s.order[i]); }
  }

  /** The eviction loop keeps the front of the list and drops, of the rest, exactly the unreferenced
      entries; nothing else changes its place, its references or its pending close. */
  lemma {:induction false} EvictionIsExact(s: Store, x: Id)
    requires ListOk(s) && x < |s.entries|
    ensures var r := EvictExcess(s);
            && r.order == Front(s.order, s.cap) && |r.entries| == |s.entries|
            && r.entries[x].refs == s.entries[x].refs && r.entries[x].closePending == s.entries[x].closePending
            && (Live(r, x) <==> Live(s, x) && (x !in s.order || x in Front(s.order, s.cap) || s.entries[x].refs != 0))
    decreases |s.order|
  {
    if |s.order| > s.cap {
      EvictOneList(s);
      hide ListOk, Live, EvictOne;
      var n := |s.order| - 1;
      EvictionIsExact(EvictOne(s), x);
      FrontOfInit(s.order, s.cap, x);
    }
  }

  lemma FrontOfInit(order: seq<Id>, cap: nat, x: Id)
    requires |order| > cap
    ensures Front(order[..|order| - 1], cap) == Front(order, cap)
    ensures x in order <==> x in order[..|order| - 1] || x == order[|order| - 1]
    ensures x in Front(order, cap) ==> x in order[..|order| - 1]
  {
    assert order == order[..|order| - 1] + [order[|order| - 1]];
    assert order[..|order| - 1][..cap] == order[..cap];
  }

  // ---------------------------------------------------------------- what a step does to the list

  /** The entry an event makes the most recently used one. */
  ghost function Used(sys: System, ev: Event): (r: int)
    requires Enabled(sys, ev)
    ensures -1 <= r
  {
    match ev
    case Acquire(_, path) => if path in sys.store.openFiles then sys.store.openFiles[path] else |sys.store.entries|
    case LoadOk(t) => if sys.store.entries[sys.threads[t].id].closePending then -1 else sys.threads[t].id
    case _ => -1
  }

  /** The entry an event takes off the list. */
  ghost function Unused(sys: System, ev: Event): (r: int)
    requires Enabled(sys, ev)
    ensures -1 <= r
  {
    match ev
    case LoadErr(t) => sys.threads[t].id
    case Close(path) => if path in sys.store.openFiles then sys.store.openFiles[path] else -1
    case Replace(path) => if path in sys.store.openFiles && !InUse(sys.store, path) then sys.store.openFiles[path] else -1
    case _ => -1
  }

  /** The list after a step. */
  ghost function NextOrder(sys: System, ev: Event): seq<Id>
    requires Enabled(sys, ev)
  {
    var order, used, unused := sys.store.order, Used(sys, ev), Unused(sys, ev);
    if ev.CloseStore? then []
    else if unused >= 0 then Others(order, unused)
    else
      var moved := if used >= 0 then [used as Id] + Others(order, used) else order;
      // A miss only installs a placeholder; the loader evicts when it publishes.
      if ev.LoadOk? || (ev.Acquire? && ev.path in sys.store.openFiles) then Front(moved, sys.store.cap) else moved
  }

  /** The list moves as `NextOrder` says: the entry just used comes to the front, and eviction takes from
      the back. */
  lemma OrderIsExact(sys: System, ev: Event)
    requires Inv(sys) && Enabled(sys, ev)
    ensures Step(sys, ev).store.order == NextOrder(sys, ev)
  {
    var s, th := sys.store, sys.threads;
    SoundList(s, th);
    match ev
    case Acquire(t, path) => if path in s.openFiles { HitOrder(s, path); } else { InstallOrder(s, path); }
    case LoadOk(t) => assert PhaseOk(s, th[t]); PublishOrder(s, th[t].id);
    case LoadErr(t) => assert PhaseOk(s, th[t]); FailOrder(s, th[t].id);
    case Close(path) => if path in s.openFiles { UnlistRemoves(s, s.openFiles[path]); }
    case Replace(path) => if path in s.openFiles && !InUse(s, path) { UnlistRemoves(s, s.openFiles[path]); }
    case _ =>
  }

  lemma HitOrder(s: Store, path: Path)
    requires ListOk(s) && path in s.openFiles
    ensures Hit(s, path).order == Front([s.openFiles[path]] + Others(s.order, s.openFiles[path]), s.cap)
    ensures ListOk(Joined(s, path)) && Hit(s, path) == EvictExcess(Joined(s, path))
    ensures Joined(s, path).order == [s.openFiles[path]] + Others(s.order, s.openFiles[path])
  {
    JoinedOrder(s, path);
    HitEvicts(s, path);
    hide ListOk, Hit, Joined, EvictExcess, Others;
    EvictionIsExact(Joined(s, path), s.openFiles[path]);
  }

  lemma HitEvicts(s: Store, path: Path)
    requires WellFormed(s) && path in s.openFiles
    ensures Hit(s, path) == EvictExcess(Joined(s, path)) && Joined(s, path).cap == s.cap
    ensures s.openFiles[path] < |Joined(s, path).entries|
  {
    hide Position, EvictExcess;
  }

  /** The store of a hit before the entry moves to the front. */
  ghost function Referenced(s: Store, path: Path): (b: Store)
    requires WellFormed(s) && path in s.openFiles
    ensures WellFormed(b)
  {
    var id := s.openFiles[path];
    Set(s, id, s.entries[id].(refs := s.entries[id].refs + 1, evicted := false, closePending := false))
  }

  lemma ReferencedKeeps(s: Store, path: Path)
    requires ListOk(s) && path in s.openFiles
    ensures var b, id := Referenced(s, path), s.openFiles[path];
            ListOk(b) && Live(b, id) && b.entries[id].path == path && b.order == s.order && Joined(s, path) == Touch(b, path, id)
  {
    var id := s.openFiles[path];
    hide Touch, NoRepeats;
    SetKeepsList(s, id, s.entries[id].(refs := s.entries[id].refs + 1, evicted := false, closePending := false));
  }

  lemma JoinedOrder(s: Store, path: Path)
    requires ListOk(s) && path in s.openFiles
    ensures ListOk(Joined(s, path)) && Joined(s, path).order == [s.openFiles[path]] + Others(s.order, s.openFiles[path])
  {
    ReferencedKeeps(s, path);
    hide ListOk, Live, Touch, Others, Joined, Referenced;
    TouchMovesToFront(Referenced(s, path), s.openFiles[path]);
  }

  lemma InstallOrder(s: Store, path: Path)
    requires ListOk(s) && path !in s.openFiles
    ensures Install(s, path).order == [|s.entries|] + Others(s.order, |s.entries|)
  {
    var id := |s.entries|;
    OthersOfAbsent(s.order, id);
    assert forall j :: 0 <= j < |s.order| ==> Live(s, s.order[j]) && s.entries[s.order[j]].path != path;
  }

  /** The store a publication hands to the eviction loop. */
  ghost function Published(s: Store, id: Id): (b: Store)
    requires WellFormed(s) && id < |s.entries|
    ensures WellFormed(b)
  {
    var e := s.entries[id].(reader := Reader(0));
    if e.closePending then Set(s, id, e) else Touch(Set(s, id, e.(evicted := false)), e.path, id)
  }

  lemma PublishOrder(s: Store, id: Id)
    requires ListOk(s) && Live(s, id)
    ensures ListOk(Published(s, id)) && Publish(s, id) == EvictExcess(Published(s, id))
    ensures Published(s, id).order == if s.entries[id].closePending then s.order else [id] + Others(s.order, id)
    ensures Publish(s, id).order == Front(Published(s, id).order, s.cap)
  {
    var e := s.entries[id].(reader := Reader(0));
    SetKeepsList(s, id, e);
    SetKeepsList(s, id, e.(evicted := false));
    TouchMovesToFront(Set(s, id, e.(evicted := false)), id);
    EvictionIsExact(Published(s, id), id);
  }

  lemma FailOrder(s: Store, id: Id)
    requires ListOk(s) && Live(s, id)
    ensures Fail(s, id).order == Others(s.order, id)
  {
    var path := s.entries[id].path;
    var t := Set(s, id, s.entries[id].(loadErr := true));
    SetKeepsList(s, id, t.entries[id]);
    UnlistRemoves(t, id);
    SamePosition(t, t.(openFiles := s.openFiles - {path}), path);
  }

  lemma SamePosition(s: Store, t: Store, path: Path)
    requires WellFormed(s) && WellFormed(t) && s.entries == t.entries && s.order == t.order
    ensures Unlist(s, path).order == Unlist(t, path).order
  {
  }

  // ---------------------------------------------------------------- which entries leave the store

  /** The events that take entry `x` out: eviction once it is unreferenced and no longer among the most
      recently used, the last release of an entry already off the list, its own failed load, a close or a
      replacement of its path while nobody references it, and the shutdown. */
  ghost predicate Leaves(sys: System, ev: Event, x: Id)
    requires Enabled(sys, ev) && x < |sys.store.entries|
  {
    var s, th := sys.store, sys.threads;
    var e := s.entries[x];
    match ev
    case Acquire(_, path) => path in s.openFiles && e.path != path && e.refs == 0 && x in s.order && x !in NextOrder(sys, ev)
    case LoadOk(t) => e.refs == 0 && x in s.order && x !in NextOrder(sys, ev)
    case LoadErr(t) => x == th[t].id
    case Release(t) => x == th[t].id && e.refs == 1 && e.evicted
    case Close(path) => e.path == path && e.refs == 0
    case Replace(path) => e.path == path && e.refs == 0
    case CloseStore => true
    case _ => false
  }

  /** An entry stays in the store, its reader open, until one of those events. */
  lemma LeavesIsExact(sys: System, ev: Event, x: Id)
    requires Inv(sys) && Enabled(sys, ev) && Live(sys.store, x)
    ensures Live(Step(sys, ev).store, x) <==> !Leaves(sys, ev, x)
  {
    hide Inv, Hit, Publish, ReleasePath, ClosePath, TryClose, Fail, NextOrder;
    match ev
    case Acquire(t, path) => AcquireLeaves(sys, t, path, x);
    case LoadOk(t) => LoadLeaves(sys, t, x);
    case LoadErr(t) => LoaderIsLive(sys, t); FailLeaves(sys.store, sys.threads[t].id, x);
    case Release(t) => ReleaseLeaves(sys, t, x);
    case Close(path) => PathLeaves(sys, path, x);
    case Replace(path) => PathLeaves(sys, path, x);
    case _ =>
  }

  lemma LoaderIsLive(sys: System, t: nat)
    requires Inv(sys) && t < |sys.threads| && sys.threads[t].Loading?
    ensures Live(sys.store, sys.threads[t].id)
  {
    assert PhaseOk(sys.store, sys.threads[t]);
  }

  lemma FailLeaves(s: Store, id: Id, x: Id)
    requires WellFormed(s) && Live(s, id) && Live(s, x)
    ensures Live(Fail(s, id), x) <==> x != id
  {
  }

  lemma PathLeaves(sys: System, path: Path, x: Id)
    requires Inv(sys) && Live(sys.store, x)
    ensures Live(ClosePath(sys.store, path), x) <==> !(sys.store.entries[x].path == path && sys.store.entries[x].refs == 0)
    ensures Live(TryClose(sys.store, path), x) <==> !(sys.store.entries[x].path == path && sys.store.entries[x].refs == 0)
  {
    assert EntryOk(sys.store, sys.threads, x);
    SoundList(sys.store, sys.threads);
    hide Inv, ListOk, ClosePath, TryClose;
    CloseLeaves(sys.store, path, x);
    ReplaceLeaves(sys.store, path, x);
  }

  lemma CloseLeaves(s: Store, path: Path, x: Id)
    requires ListOk(s) && Live(s, x)
    ensures Live(ClosePath(s, path), x) <==> !(s.entries[x].path == path && s.entries[x].refs == 0)
  {
    hide Position, RemoveAt, NoRepeats;
  }

  lemma ReplaceLeaves(s: Store, path: Path, x: Id)
    requires ListOk(s) && Live(s, x) && s.entries[x].refs >= 0
    ensures Live(TryClose(s, path), x) <==> !(s.entries[x].path == path && s.entries[x].refs == 0)
  {
    hide Position, RemoveAt, NoRepeats;
  }

  lemma AcquireLeaves(sys: System, t: nat, path: Path, x: Id)
    requires Inv(sys) && Enabled(sys, Acquire(t, path)) && Live(sys.store, x)
    ensures Live(Step(sys, Acquire(t, path)).store, x) <==> !Leaves(sys, Acquire(t, path), x)
  {
    var s, th := sys.store, sys.threads;
    if path in s.openFiles {
      SoundList(s, th);
      assert EntryOk(s, th, s.openFiles[path]);
      OrderIsExact(sys, Acquire(t, path));
      hide Inv, EntryOk, ListOk, Hit, NextOrder;
      HitKeeps(s, path, x);
    }
  }

  lemma LoadLeaves(sys: System, t: nat, x: Id)
    requires Inv(sys) && Enabled(sys, LoadOk(t)) && Live(sys.store, x)
    ensures Live(Step(sys, LoadOk(t)).store, x) <==> !Leaves(sys, LoadOk(t), x)
  {
    var s, th := sys.store, sys.threads;
    SoundList(s, th);
    assert PhaseOk(s, th[t]) && EntryOk(s, th, th[t].id);
    CountsOwner(th, t, th[t].id);
    OrderIsExact(sys, LoadOk(t));
    hide Inv, EntryOk, ListOk, Publish, NextOrder;
    PublishKeeps(s, th[t].id, x);
  }

  lemma ReleaseLeaves(sys: System, t: nat, x: Id)
    requires Inv(sys) && Enabled(sys, Release(t)) && Live(sys.store, x)
    ensures Live(Step(sys, Release(t)).store, x) <==> !Leaves(sys, Release(t), x)
  {
    var s, th := sys.store, sys.threads;
    assert PhaseOk(s, th[t]) && EntryOk(s, th, th[t].id);
    CountsOwner(th, t, th[t].id);
  }

  lemma HitKeeps(s: Store, path: Path, x: Id)
    requires ListOk(s) && path in s.openFiles && Live(s, x) && s.entries[s.openFiles[path]].refs >= 0
    ensures Live(Hit(s, path), x)
            <==> !(s.entries[x].path != path && s.entries[x].refs == 0 && x in s.order && x !in Hit(s, path).order)
  {
    HitOrder(s, path);
    var id, b := s.openFiles[path], Joined(s, path);
    EvictionIsExact(b, x);
    OthersMembers(s.order, id, x);
  }

  lemma PublishKeeps(s: Store, id: Id, x: Id)
    requires ListOk(s) && Live(s, id) && Live(s, x) && s.entries[id].refs > 0
    ensures Live(Publish(s, id), x) <==> !(s.entries[x].refs == 0 && x in s.order && x !in Publish(s, id).order)
  {
    PublishOrder(s, id);
    EvictionIsExact(Published(s, id), x);
    OthersMembers(s.order, id, x);
  }

  lemma {:induction false} OthersMembers(order: seq<Id>, id: Id, x: Id)
    ensures x in Others(order, id) <==> x in order && x != id
  {
    if order != [] { OthersMembers(order[1..], id, x); }
  }

  // ---------------------------------------------------------------- pending closes

  /** A close is pending from a `CloseBook` of a referenced entry until its path is acquired again. */
  lemma PendingIsExact(sys: System, ev: Event, x: Id)
    requires Inv(sys) && Enabled(sys, ev) && Live(sys.store, x) && Live(Step(sys, ev).store, x)
    ensures Step(sys, ev).store.entries[x].closePending
            <==> if ev == Close(sys.store.entries[x].path) then true
                 else if ev.Acquire? && ev.path == sys.store.entries[x].path then false
                 else sys.store.entries[x].closePending
  {
    SoundList(sys.store, sys.threads);
    hide Inv, ListOk, Hit, Publish, ReleasePath, ClosePath, TryClose, Fail, Signal;
    match ev
    case Acquire(t, path) => AcquirePending(sys, t, path, x);
    case LoadOk(t) => LoadPending(sys, t, x);
    case LoadErr(t) => IdPending(sys.store, sys.threads[t].id, x);
    case CloseReady(t) => IdPending(sys.store, sys.threads[t].id, x);
    case Wake(t) =>
    case Release(t) => PathPending(sys.store, sys.store.entries[sys.threads[t].id].path, x);
    case Close(path) => PathPending(sys.store, path, x);
    case Replace(path) => PathPending(sys.store, path, x);
    case CloseStore =>
  }

  lemma IdPending(s: Store, id: Id, x: Id)
    requires WellFormed(s) && id < |s.entries| && x < |s.entries|
    ensures Fail(s, id).entries[x].closePending == s.entries[x].closePending
    ensures Signal(s, id).entries[x].closePending == s.entries[x].closePending
  {
  }

  lemma PathPending(s: Store, path: Path, x: Id)
    requires ListOk(s) && Live(s, x)
    ensures ReleasePath(s, path).entries[x].closePending == s.entries[x].closePending
    ensures TryClose(s, path).entries[x].closePending == s.entries[x].closePending
    ensures path != s.entries[x].path ==> ClosePath(s, path).entries[x].closePending == s.entries[x].closePending
    ensures path == s.entries[x].path && Live(ClosePath(s, path), x) ==> ClosePath(s, path).entries[x].closePending
  {
    hide Position, RemoveAt, NoRepeats;
    assert path in s.openFiles && s.openFiles[path] == x ==> s.entries[x].path == path;
  }

  lemma AcquirePending(sys: System, t: nat, path: Path, x: Id)
    requires Inv(sys) && Enabled(sys, Acquire(t, path)) && Live(sys.store, x)
    ensures x < |Step(sys, Acquire(t, path)).store.entries|
    ensures Step(sys, Acquire(t, path)).store.entries[x].closePending
            <==> path != sys.store.entries[x].path && sys.store.entries[x].closePending
  {
    var s := sys.store;
    if path in s.openFiles {
      SoundList(s, sys.threads);
      HitOrder(s, path);
      EvictionIsExact(Joined(s, path), x);
      hide Inv, ListOk, Hit, EvictExcess;
    }
  }

  lemma LoadPending(sys: System, t: nat, x: Id)
    requires Inv(sys) && Enabled(sys, LoadOk(t)) && Live(sys.store, x)
    ensures x < |Step(sys, LoadOk(t)).store.entries|
    ensures Step(sys, LoadOk(t)).store.entries[x].closePending == sys.store.entries[x].closePending
  {
    SoundList(sys.store, sys.threads);
    LoaderIsLive(sys, t);
    hide Inv, ListOk, Publish;
    PublishPending(sys.store, sys.threads[t].id, x);
  }

  lemma PublishPending(s: Store, id: Id, x: Id)
    requires ListOk(s) && Live(s, id) && Live(s, x)
    ensures x < |Publish(s, id).entries| && Publish(s, id).entries[x].closePending == s.entries[x].closePending
  {
    PublishOrder(s, id);
    hide ListOk, EvictExcess, Touch;
    EvictionIsExact(Published(s, id), x);
  }

  // ---------------------------------------------------------------- acquiring

  /** An acquire of a path that is in the store shares its entry, be it loaded or still loading; any other
      starts a load of its own. */
  lemma AcquireShares(sys: System, t: nat, path: Path)
    requires Inv(sys) && Enabled(sys, Acquire(t, path))
    ensures var s, r := sys.store, Step(sys, Acquire(t, path));
            && path in r.store.openFiles && r.store.order != [] && r.store.order[0] == r.store.openFiles[path]
            && if path in s.openFiles then
                 r.threads[t] == Waiting(s.openFiles[path]) && r.store.openFiles[path] == s.openFiles[path]
               else
                 && r.threads[t] == Loading(|s.entries|) && r.store.openFiles == s.openFiles[path := |s.entries|]
                 && |r.store.entries| == |s.entries| + 1 && r.store.entries[..|s.entries|] == s.entries
  {
    var s := sys.store;
    SoundList(s, sys.threads);
    OrderIsExact(sys, Acquire(t, path));
    if path in s.openFiles {
      assert EntryOk(s, sys.threads, s.openFiles[path]);
      LeavesIsExact(sys, Acquire(t, path), s.openFiles[path]);
      HitOrder(s, path);
      EvictionFrame(Joined(s, path), s.openFiles[path]);
    }
  }

  // ---------------------------------------------------------------- replacing and closing

  /** An accepted replacement lets go of the old reader: its path is free, nothing of it is listed, and
      every reader that was ever opened for it is closed, once.  A refused one changes nothing. */
  lemma ReplaceLetsGo(sys: System, path: Path)
    requires Inv(sys) && Enabled(sys, Replace(path))
    ensures var s, r := sys.store, Step(sys, Replace(path)).store;
            if InUse(s, path) then r == s
            else
              && path !in r.openFiles && |r.entries| == |s.entries|
              && (forall i :: 0 <= i < |r.order| ==> r.order[i] < |r.entries| && r.entries[r.order[i]].path != path)
              && (forall x :: 0 <= x < |r.entries| && r.entries[x].path == path && r.entries[x].reader.Reader? ==>
                    r.entries[x].reader.closes == 1)
  {
    var s, th := sys.store, sys.threads;
    StepKeepsInv(sys, Replace(path));
    var r := Step(sys, Replace(path)).store;
    if !InUse(s, path) {
      if path in s.openFiles { assert EntryOk(s, th, s.openFiles[path]); }
      SoundList(r, th);
      forall i | 0 <= i < |r.order| ensures r.order[i] < |r.entries| && r.entries[r.order[i]].path != path {
        assert Live(r, r.order[i]);
      }
      forall x | 0 <= x < |r.entries| && r.entries[x].path == path && r.entries[x].reader.Reader?
        ensures r.entries[x].reader.closes == 1
      {
        assert EntryOk(r, th, x);
      }
    }
  }

  /** A path that is free stays so until it is acquired, and that acquire opens the file anew. */
  lemma {:induction false} FreeUntilAcquired(states: seq<System>, events: seq<Event>, m: nat, n: nat, path: Path)
    requires IsRun(states, events) && m <= n < |states| && path !in states[m].store.openFiles
    requires forall i :: m <= i < n && events[i].Acquire? ==> events[i].path != path
    ensures path !in states[n].store.openFiles && |states[n].store.entries| >= |states[m].store.entries|
  {
    if m < n {
      FreeUntilAcquired(states, events, m, n - 1, path);
      RunKeepsInv(states, events, n - 1);
      assert StepAt(states, events, n - 1);
      StaysFree(states[n - 1], events[n - 1], path);
    }
  }

  lemma StaysFree(sys: System, ev: Event, path: Path)
    requires Inv(sys) && Enabled(sys, ev) && path !in sys.store.openFiles && (ev.Acquire? ==> ev.path != path)
    ensures path !in Step(sys, ev).store.openFiles && |Step(sys, ev).store.entries| >= |sys.store.entries|
  {
    var s, th := sys.store, sys.threads;
    SoundList(s, th);
    match ev
    case Acquire(t, p) => if p in s.openFiles { HitOrder(s, p); EvictionOpens(Joined(s, p), path); }
    case LoadOk(t) => assert PhaseOk(s, th[t]); PublishOrder(s, th[t].id); EvictionOpens(Published(s, th[t].id), path);
    case _ =>
  }

  lemma {:induction false} EvictionOpens(s: Store, path: Path)
    requires WellFormed(s) && path !in s.openFiles
    ensures path !in EvictExcess(s).openFiles && |EvictExcess(s).entries| == |s.entries|
    decreases |s.order|
  {
    if |s.order| > s.cap { EvictionOpens(EvictOne(s), path); }
  }

  /** A replacement of the path is accepted. */
  ghost predicate Accepts(s: Store, path: Path) {
    WellFormed(s) && !InUse(s, path)
  }

  /** After an accepted replacement the next acquire of the path opens the new file: it never shares an
      entry that was there before. */
  lemma ReplacedFileIsOpenedAnew(states: seq<System>, events: seq<Event>, m: nat, n: nat, t: nat, path: Path)
    requires IsRun(states, events) && m < n < |events|
    requires events[m] == Replace(path) && Accepts(states[m].store, path) && events[n] == Acquire(t, path)
    requires forall i :: m < i < n && events[i].Acquire? ==> events[i].path != path
    ensures t < |states[n + 1].threads| && states[n + 1].threads[t].Loading?
    ensures states[n + 1].threads[t].id >= |states[m].store.entries|
  {
    RunKeepsInv(states, events, m);
    assert StepAt(states, events, m) && StepAt(states, events, n);
    ReplaceLetsGo(states[m], path);
    hide Inv, TryClose, Install, Hit;
    FreeUntilAcquired(states, events, m + 1, n, path);
  }

  /** A shutdown closes every reader and forgets every path. */
  lemma ShutdownClosesAll(sys: System)
    requires Inv(sys) && Enabled(sys, CloseStore)
    ensures var s, r := sys.store, Step(sys, CloseStore).store;
            && r.openFiles == map[] && r.order == [] && |r.entries| == |s.entries|
            && forall x :: 0 <= x < |r.entries| && r.entries[x].reader.Reader? ==> r.entries[x].reader.closes == 1
  {
    StepKeepsInv(sys, CloseStore);
    var r := Step(sys, CloseStore).store;
    forall x | 0 <= x < |r.entries| && r.entries[x].reader.Reader? ensures r.entries[x].reader.closes == 1 {
      assert EntryOk(r, sys.threads, x);
    }
  }

  // ---------------------------------------------------------------- least recently used

  /** The step at which an entry was last used, counted from one. */
  ghost function LastUse(states: seq<System>, events: seq<Event>, n: nat, id: Id): nat
    requires IsRun(states, events) && n < |states|
  {
    if n == 0 then 0
    else
      assert StepAt(states, events, n - 1);
      if Used(states[n - 1], events[n - 1]) == id then n else LastUse(states, events, n - 1, id)
  }

  ghost predicate ByUse(states: seq<System>, events: seq<Event>, n: nat, order: seq<Id>)
    requires IsRun(states, events) && n < |states|
  {
    forall i, j :: 0 <= i < j < |order| ==> LastUse(states, events, n, order[i]) > LastUse(states, events, n, order[j])
  }

  lemma {:induction false} UsedBefore(states: seq<System>, events: seq<Event>, n: nat, id: Id)
    requires IsRun(states, events) && n < |states|
    ensures LastUse(states, events, n, id) <= n
  {
    if n > 0 { UsedBefore(states, events, n - 1, id); }
  }

  /** Leaving out an entry keeps the others in order. */
  lemma {:induction false} OthersByUse(states: seq<System>, events: seq<Event>, n: nat, order: seq<Id>, id: Id)
    requires IsRun(states, events) && n < |states| && ByUse(states, events, n, order)
    ensures ByUse(states, events, n, Others(order, id))
  {
    if order != [] {
      var rest := Others(order[1..], id);
      OthersByUse(states, events, n, order[1..], id);
      if order[0] != id {
        forall j | 0 <= j < |rest| ensures LastUse(states, events, n, order[0]) > LastUse(states, events, n, rest[j]) {
          OthersMembers(order[1..], id, rest[j]);
          var k :| 0 <= k < |order[1..]| && order[1..][k] == rest[j];
        }
      }
    }
  }

  lemma LaterUse(states: seq<System>, events: seq<Event>, n: nat, order: seq<Id>)
    requires IsRun(states, events) && n + 1 < |states| && ByUse(states, events, n, order)
    requires Enabled(states[n], events[n]) && forall i :: 0 <= i < |order| ==> order[i] != Used(states[n], events[n])
    ensures ByUse(states, events, n + 1, order)
  {
    forall i | 0 <= i < |order| ensures LastUse(states, events, n + 1, order[i]) == LastUse(states, events, n, order[i]) {
    }
  }

  /** In every reachable state the list runs from the most to the least recently used entry, so that
      eviction, which takes from the back, takes the least recently used ones. */
  lemma {:induction false} ListIsByUse(states: seq<System>, events: seq<Event>, n: nat)
    requires IsRun(states, events) && n < |states|
    ensures ByUse(states, events, n, states[n].store.order)
  {
    if n > 0 {
      hide ByUse, NextOrder, Inv, Enabled, Step, Initial;
      var sys, ev := states[n - 1], events[n - 1];
      ListIsByUse(states, events, n - 1);
      RunKeepsInv(states, events, n - 1);
      assert StepAt(states, events, n - 1);
      OrderIsExact(sys, ev);
      NextOrderByUse(states, events, n - 1);
    }
  }

  lemma NextOrderByUse(states: seq<System>, events: seq<Event>, n: nat)
    requires IsRun(states, events) && n + 1 < |states| && Enabled(states[n], events[n])
    requires ByUse(states, events, n, states[n].store.order)
    ensures ByUse(states, events, n + 1, NextOrder(states[n], events[n]))
  {
    var order, used, unused := states[n].store.order, Used(states[n], events[n]), Unused(states[n], events[n]);
    if unused >= 0 {
      OthersByUse(states, events, n, order, unused);
      LaterUse(states, events, n, Others(order, unused));
    } else if used >= 0 {
      OthersByUse(states, events, n, order, used);
      var rest := Others(order, used);
      forall i | 0 <= i < |rest| ensures rest[i] != used { OthersMembers(order, used, rest[i]); }
      LaterUse(states, events, n, rest);
      forall i | 0 <= i < |rest| ensures LastUse(states, events, n + 1, used) > LastUse(states, events, n + 1, rest[i]) {
        UsedBefore(states, events, n, rest[i]);
      }
    } else {
      LaterUse(states, events, n, order);
    }
  }

  // ---------------------------------------------------------------- waiting

  lemma {:induction false} EvictionKeepsReady(s: Store, x: Id)
    requires WellFormed(s) && x < |s.entries|
    ensures |EvictExcess(s).entries| == |s.entries| && EvictExcess(s).entries[x].ready == s.entries[x].ready
    decreases |s.order|
  {
    if |s.order| > s.cap {
      EvictionKeepsReady(EvictOne(s), x);
    }
  }

  lemma PathKeepsReady(s: Store, path: Path, x: Id)
    requires WellFormed(s) && x < |s.entries|
    ensures |ReleasePath(s, path).entries| == |ClosePath(s, path).entries| == |TryClose(s, path).entries| == |s.entries|
    ensures ReleasePath(s, path).entries[x].ready == s.entries[x].ready
    ensures ClosePath(s, path).entries[x].ready == s.entries[x].ready
    ensures TryClose(s, path).entries[x].ready == s.entries[x].ready
  {
    hide Position, RemoveAt;
  }

  lemma AcquireKeepsReady(s: Store, path: Path, x: Id)
    requires WellFormed(s) && x < |s.entries|
    ensures if path in s.openFiles then |Hit(s, path).entries| == |s.entries| && Hit(s, path).entries[x].ready == s.entries[x].ready
            else |Install(s, path).entries| == |s.entries| + 1 && Install(s, path).entries[x] == s.entries[x]
  {
    hide Position, RemoveAt, EvictExcess;
    if path in s.openFiles {
      HitEvicts(s, path);
      EvictionKeepsReady(Joined(s, path), x);
    }
  }

  lemma LoadKeepsReady(s: Store, id: Id, x: Id)
    requires WellFormed(s) && id < |s.entries| && x < |s.entries|
    ensures |Publish(s, id).entries| == |Fail(s, id).entries| == |Signal(s, id).entries| == |s.entries|
    ensures Publish(s, id).entries[x].ready == Fail(s, id).entries[x].ready == s.entries[x].ready
    ensures Signal(s, id).entries[x].ready <==> s.entries[x].ready || id == x
  {
    hide Position, RemoveAt, EvictExcess;
    EvictionKeepsReady(Published(s, id), x);
  }

  /** An entry becomes ready when its loader says so, and stays ready. */
  lemma ReadyIsExact(sys: System, ev: Event, x: Id)
    requires Inv(sys) && Enabled(sys, ev) && x < |sys.store.entries|
    ensures |Step(sys, ev).store.entries| == |sys.store.entries| + (if IsMiss(sys, ev) then 1 else 0)
    ensures Step(sys, ev).store.entries[x].ready
            <==> sys.store.entries[x].ready || (ev.CloseReady? && sys.threads[ev.t].id == x)
  {
    var s, th := sys.store, sys.threads;
    hide Inv, Hit, Install, Publish, Fail, Signal, ReleasePath, ClosePath, TryClose;
    match ev
    case Acquire(t, path) => AcquireKeepsReady(s, path, x);
    case LoadOk(t) => LoadKeepsReady(s, th[t].id, x);
    case LoadErr(t) => LoadKeepsReady(s, th[t].id, x);
    case CloseReady(t) => LoadKeepsReady(s, th[t].id, x);
    case Wake(t) =>
    case Release(t) => PathKeepsReady(s, s.entries[th[t].id].path, x);
    case Close(path) => PathKeepsReady(s, path, x);
    case Replace(path) => PathKeepsReady(s, path, x);
    case CloseStore =>
  }

  predicate IsMiss(sys: System, ev: Event) {
    ev.Acquire? && ev.path !in sys.store.openFiles
  }

  ghost predicate LoadsFor(sys: System, t: nat, x: Id) {
    t < |sys.threads| && IsLoader(sys.threads[t]) && sys.threads[t].id == x
  }

  lemma LoaderStays(sys: System, ev: Event, t: nat, x: Id)
    requires Enabled(sys, ev) && LoadsFor(sys, t, x)
    ensures LoadsFor(Step(sys, ev), t, x) || ev == CloseReady(t)
  {
    hide WellFormed, Hit, Install, Publish, Fail, Signal, ReleasePath, ClosePath, TryClose, Shutdown;
  }

  /** Whoever waits for an entry waits for a borrower that is still loading it: no failure, close,
      replacement or eviction leaves a waiter behind. */
  lemma {:induction false} WaitersWaitForALoader(states: seq<System>, events: seq<Event>, n: nat, x: Id) returns (t: nat)
    requires IsRun(states, events) && n < |states|
    requires x < |states[n].store.entries| && !states[n].store.entries[x].ready
    ensures LoadsFor(states[n], t, x)
  {
    var sys, ev := states[n - 1], events[n - 1];
    assert StepAt(states, events, n - 1);
    RunKeepsInv(states, events, n - 1);
    if x < |sys.store.entries| {
      ReadyIsExact(sys, ev, x);
      t := WaitersWaitForALoader(states, events, n - 1, x);
      LoaderStays(sys, ev, t, x);
    } else {
      OnlyMissesGrow(sys, ev);
      t := ev.t;
    }
  }

  /** The first entry of all is a miss, too. */
  lemma OnlyMissesGrow(sys: System, ev: Event)
    requires Inv(sys) && Enabled(sys, ev) && |Step(sys, ev).store.entries| > |sys.store.entries|
    ensures IsMiss(sys, ev) && Step(sys, ev).threads[ev.t] == Loading(|sys.store.entries|)
    ensures |Step(sys, ev).store.entries| == |sys.store.entries| + 1
  {
    if sys.store.entries != [] {
      ReadyIsExact(sys, ev, 0);
    }
  }
}
