/** The profile lifetime protocol of internal/api/profilemgr.go. */
module Profiles {

  // Opening, borrowing, locking a set of names, draining, and sealing the manager.  `pm.mu` and each
  // profile's own mutex protect only the short sections below; loading, draining and closing happen
  // outside them.  A profile's dependencies are identified by their position in `deps` (a pointer in
  // the source).

  type Name = string
  type Id = nat

  /** `closes` counts how often the handles were closed. */
  datatype Deps = Deps(name: Name, refs: int, closing: bool, closes: nat)

  /** `closed` refuses admission; `sealed` says that `open` was taken away by `CloseAll`. */
  datatype Manager = Manager(
    deps: seq<Deps>,
    open: map<Name, Id>,
    blocked: set<Name>,
    opening: set<Name>,
    closed: bool,
    sealed: bool
  )

  predicate WellFormed(m: Manager) {
    forall n :: n in m.open ==> m.open[n] < |m.deps|
  }

  predicate Free(m: Manager, name: Name) {
    name !in m.blocked && name !in m.opening
  }

  function Elements(names: seq<Name>): set<Name> {
    set n | n in names
  }

  // ---------------------------------------------------------------- critical sections

  function SetDeps(m: Manager, id: Id, d: Deps): Manager
    requires id < |m.deps|
  {
    m.(deps := m.deps[id := d])
  }

  /** `acquire` of a profile that is not closing. */
  function Borrow(m: Manager, id: Id): Manager
    requires id < |m.deps|
  {
    SetDeps(m, id, m.deps[id].(refs := m.deps[id].refs + 1))
  }

  /** The profile can be borrowed as it stands. */
  predicate Available(m: Manager, name: Name)
    requires WellFormed(m)
  {
    name in m.open && !m.deps[m.open[name]].closing
  }

  /** `Get` marks the name when it has to load the profile itself. */
  function StartOpening(m: Manager, name: Name): Manager {
    m.(open := m.open - {name}, opening := m.opening + {name})
  }

  /** `loadProfile` returned handles, outside the mutex. */
  function Loaded(m: Manager, name: Name): Manager {
    m.(deps := m.deps + [Deps(name, 0, false, 0)])
  }

  /** `Get` publishes the loaded profile together with its first reference. */
  function Publish(m: Manager, name: Name, id: Id): Manager
    requires id < |m.deps|
  {
    Borrow(m, id).(open := m.open[name := id], opening := m.opening - {name})
  }

  function Release(m: Manager, id: Id): Manager
    requires id < |m.deps|
  {
    if m.deps[id].refs <= 0 then m else SetDeps(m, id, m.deps[id].(refs := m.deps[id].refs - 1))
  }

  function MarkClosing(m: Manager, id: Id): Manager
    requires id < |m.deps|
  {
    SetDeps(m, id, m.deps[id].(closing := true))
  }

  function CloseHandles(m: Manager, id: Id): Manager
    requires id < |m.deps|
  {
    SetDeps(m, id, m.deps[id].(closes := m.deps[id].closes + 1))
  }

  /** The profiles a locker takes away, in the order of its names. */
  function Detached(open: map<Name, Id>, names: seq<Name>): seq<Id> {
    if names == [] then []
    else (if names[0] in open then [open[names[0]]] else []) + Detached(open, names[1..])
  }

  function Block(m: Manager, names: seq<Name>): Manager {
    m.(blocked := m.blocked + Elements(names), open := m.open - Elements(names))
  }

  function Unblock(m: Manager, names: seq<Name>): Manager {
    m.(blocked := m.blocked - Elements(names))
  }

  // ---------------------------------------------------------------- the protocol

  /** What one caller is doing.

      `Opening` loads a profile; `Opened` holds the loaded handles before publication; `Aborting`
      closes handles it will not publish; `Aborted` still owns its opening mark.  `Draining` owns a
      blocked set of names and closes what it detached, first marking the head of its list;
      `Locked` returned successfully.  `Sealing` waits for every opener and locker, `ClosingAll`
      drains what `CloseAll` took, `Finished` returned from it. */
  datatype Phase =
    | Idle
    | Opening(name: Name)
    | Opened(name: Name, id: Id)
    | Aborting(name: Name, id: Id, marked: bool)
    | Aborted(name: Name)
    | Borrowing(id: Id)
    | Draining(names: seq<Name>, todo: seq<Id>, marked: bool)
    | Locked(names: seq<Name>)
    | Sealing
    | ClosingAll(todo: seq<Id>, marked: bool)
    | Finished

  datatype System = System(m: Manager, threads: seq<Phase>)

  datatype Event =
    | Get(name: Name)
    | Load(ok: bool)
    | Admit(cancelled: bool)
    | Mark
    | Close
    | DropMark
    | Find(name: Name)
    | Done
    | Lock(names: seq<Name>)
    | Return(cancelled: bool)
    | Unlock
    | Seal
    | TakeAll(names: seq<Name>)
    | FinishAll

  predicate Distinct(names: seq<Name>) {
    forall i, j :: 0 <= i < j < |names| ==> names[i] != names[j]
  }

  /** The profiles a phase holds outside the manager's maps. */
  function Held(p: Phase): seq<Id> {
    match p
    case Opened(_, id) => [id]
    case Aborting(_, id, _) => [id]
    case Draining(_, todo, _) => todo
    case ClosingAll(todo, _) => todo
    case _ => []
  }

  /** One atomic step of the caller in phase `p`. */
  ghost predicate Next(m: Manager, p: Phase, ev: Event, m': Manager, p': Phase) {
    && WellFormed(m)
    && match ev
       case Get(name) =>
         && p == Idle && !m.closed && Free(m, name)
         && if Available(m, name)
            then m' == Borrow(m, m.open[name]) && p' == Borrowing(m.open[name])
            else m' == StartOpening(m, name) && p' == Opening(name)
       case Load(ok) =>
         && p.Opening?
         && if ok then m' == Loaded(m, p.name) && p' == Opened(p.name, |m.deps|)
            else m' == m && p' == Aborted(p.name)
       case Admit(cancelled) =>
         && p.Opened? && p.id < |m.deps|
         && if m.closed || cancelled then m' == m && p' == Aborting(p.name, p.id, false)
            else m' == Publish(m, p.name, p.id) && p' == Borrowing(p.id)
       case Mark =>
         && (p.Aborting? || p.Draining? || p.ClosingAll?) && !p.marked && Held(p) != [] && Held(p)[0] < |m.deps|
         && m' == MarkClosing(m, Held(p)[0]) && p' == p.(marked := true)
       case Close =>
         && (p.Aborting? || p.Draining? || p.ClosingAll?) && p.marked && Held(p) != [] && Held(p)[0] < |m.deps|
         && m.deps[Held(p)[0]].refs <= 0
         && m' == CloseHandles(m, Held(p)[0])
         && p' == (if p.Aborting? then Aborted(p.name) else p.(todo := p.todo[1..], marked := false))
       case DropMark => p.Aborted? && m' == m.(opening := m.opening - {p.name}) && p' == Idle
       case Find(name) =>
         && p == Idle && !m.closed && name !in m.blocked && Available(m, name)
         && m' == Borrow(m, m.open[name]) && p' == Borrowing(m.open[name])
       case Done => p.Borrowing? && p.id < |m.deps| && m' == Release(m, p.id) && p' == Idle
       case Lock(names) =>
         && p == Idle && !m.closed && Distinct(names) && (forall n :: n in names ==> Free(m, n))
         && m' == Block(m, names) && p' == Draining(names, Detached(m.open, names), false)
       case Return(cancelled) =>
         && p.Draining? && p.todo == []
         && if cancelled then m' == Unblock(m, p.names) && p' == Idle
            else m' == m && p' == Locked(p.names)
       case Unlock => p.Locked? && m' == Unblock(m, p.names) && p' == Idle
       case Seal => p == Idle && !m.closed && m' == m.(closed := true) && p' == Sealing
       case TakeAll(names) =>
         && p == Sealing && m.opening == {} && m.blocked == {} && Distinct(names) && Elements(names) == m.open.Keys
         && m' == m.(open := map[], sealed := true) && p' == ClosingAll(Detached(m.open, names), false)
       case FinishAll => p.ClosingAll? && p.todo == [] && m' == m && p' == Finished
  }

  ghost predicate Step(s: System, t: nat, ev: Event, s': System) {
    && t < |s.threads| == |s'.threads|
    && s'.threads == s.threads[t := s'.threads[t]]
    && Next(s.m, s.threads[t], ev, s'.m, s'.threads[t])
  }

  ghost predicate Initial(s: System) {
    && s.m == Manager([], map[], {}, {}, false, false)
    && forall t :: 0 <= t < |s.threads| ==> s.threads[t] == Idle
  }

  ghost predicate StepAt(states: seq<System>, steps: seq<(nat, Event)>, i: nat)
    requires i < |steps| < |states|
  {
    Step(states[i], steps[i].0, steps[i].1, states[i + 1])
  }

  ghost predicate IsRun(states: seq<System>, steps: seq<(nat, Event)>) {
    && |states| == |steps| + 1
    && Initial(states[0])
    && forall i :: 0 <= i < |steps| ==> StepAt(states, steps, i)
  }

  // ---------------------------------------------------------------- the invariant

  /** The names a phase owns exclusively. */
  function Claims(p: Phase): set<Name> {
    match p
    case Opening(name) => {name}
    case Opened(name, _) => {name}
    case Aborting(name, _, _) => {name}
    case Aborted(name) => {name}
    case Draining(names, _, _) => Elements(names)
    case Locked(names) => Elements(names)
    case _ => {}
  }

  predicate IsSealer(p: Phase) {
    p.Sealing? || p.ClosingAll? || p.Finished?
  }

  predicate Live(m: Manager, id: Id) {
    id < |m.deps| && m.deps[id].closes == 0
  }

  /** Detached profiles: live, with distinct names. */
  ghost predicate HeldOk(m: Manager, ids: seq<Id>) {
    && (forall i :: 0 <= i < |ids| ==> Live(m, ids[i]))
    && (forall i, j :: 0 <= i < j < |ids| ==> m.deps[ids[i]].name != m.deps[ids[j]].name)
  }

  ghost predicate PhaseOk(m: Manager, p: Phase) {
    && HeldOk(m, Held(p))
    && match p
       case Idle => true
       case Opening(name) => name in m.opening
       case Opened(name, id) => name in m.opening && Live(m, id) && m.deps[id].name == name && !m.deps[id].closing
       case Aborting(name, id, marked) => name in m.opening && Live(m, id) && m.deps[id].name == name && (marked ==> m.deps[id].closing)
       case Aborted(name) => name in m.opening
       case Borrowing(id) => id < |m.deps|
       case Draining(names, todo, marked) =>
         && Elements(names) <= m.blocked
         && (forall i :: 0 <= i < |todo| ==> m.deps[todo[i]].name in names)
         && (marked ==> todo != [] && m.deps[todo[0]].closing)
       case Locked(names) => Elements(names) <= m.blocked
       case Sealing => m.closed && !m.sealed
       case ClosingAll(todo, marked) => m.closed && m.sealed && (marked ==> todo != [] && m.deps[todo[0]].closing)
       case Finished => m.closed && m.sealed
  }

  predicate Borrows(p: Phase, id: Id) {
    p == Borrowing(id)
  }

  function Count(threads: seq<Phase>, id: Id): nat {
    if threads == [] then 0
    else Count(threads[..|threads| - 1], id) + (if Borrows(threads[|threads| - 1], id) then 1 else 0)
  }

  /** The reference count is the number of borrowers, and closed handles have none. */
  ghost predicate DepsOk(d: Deps, count: nat) {
    && d.refs == count
    && (d.closes != 0 ==> d.closes == 1 && d.closing && d.refs == 0)
  }

  ghost predicate MapsOk(m: Manager) {
    && WellFormed(m) && m.opening !! m.blocked
    && (forall n :: n in m.open ==>
          && m.deps[m.open[n]].name == n && m.deps[m.open[n]].closes == 0 && !m.deps[m.open[n]].closing
          && Free(m, n))
    && (m.sealed ==> m.closed && m.open == map[] && m.opening == {} && m.blocked == {})
  }

  ghost predicate InOpen(m: Manager, id: Id)
    requires id < |m.deps|
  {
    m.deps[id].name in m.open && m.open[m.deps[id].name] == id
  }

  ghost predicate HeldBy(threads: seq<Phase>, t: nat, id: Id) {
    t < |threads| && id in Held(threads[t])
  }

  /** A live profile is published, or some caller is about to publish or close it. */
  ghost predicate Placed(s: System, id: Id)
    requires id < |s.m.deps|
  {
    InOpen(s.m, id) || exists t: nat :: HeldBy(s.threads, t, id)
  }

  ghost predicate ThreadOk(s: System, t: nat)
    requires t < |s.threads|
  {
    PhaseOk(s.m, s.threads[t])
  }

  /** Two callers own different names, and only one of them is in `CloseAll`. */
  ghost predicate Apart(p: Phase, q: Phase) {
    Claims(p) !! Claims(q) && !(IsSealer(p) && IsSealer(q))
  }

  ghost predicate PairOk(s: System, t: nat, u: nat)
    requires t < |s.threads| && u < |s.threads|
  {
    t != u ==> Apart(s.threads[t], s.threads[u])
  }

  ghost predicate CountOk(s: System, id: Id)
    requires id < |s.m.deps|
  {
    DepsOk(s.m.deps[id], Count(s.threads, id))
  }

  ghost predicate PlaceOk(s: System, id: Id)
    requires id < |s.m.deps|
  {
    s.m.deps[id].closes == 0 ==> Placed(s, id)
  }

  ghost predicate Inv(s: System) {
    && MapsOk(s.m)
    && (forall t: nat :: t < |s.threads| ==> ThreadOk(s, t))
    && (forall t: nat, u: nat :: t < |s.threads| && u < |s.threads| ==> PairOk(s, t, u))
    && (forall id: Id :: id < |s.m.deps| ==> CountOk(s, id))
    && (forall id: Id :: id < |s.m.deps| ==> PlaceOk(s, id))
  }

  // ---------------------------------------------------------------- counting borrowers

  lemma {:induction false} CountUpdate(threads: seq<Phase>, t: nat, p: Phase, id: Id)
    requires t < |threads|
    ensures Count(threads[t := p], id)
         == Count(threads, id) - (if Borrows(threads[t], id) then 1 else 0) + (if Borrows(p, id) then 1 else 0)
  {
    var n := |threads| - 1;
    if t < n {
      assert threads[t := p][..n] == threads[..n][t := p];
      CountUpdate(threads[..n], t, p, id);
    } else {
      assert threads[t := p][..n] == threads[..n];
    }
  }

  lemma {:induction false} CountsBorrower(threads: seq<Phase>, t: nat, id: Id)
    requires t < |threads| && Borrows(threads[t], id)
    ensures Count(threads, id) >= 1
  {
    if t < |threads| - 1 {
      CountsBorrower(threads[..|threads| - 1], t, id);
    }
  }

  lemma {:induction false} CountNone(threads: seq<Phase>, id: Id)
    requires forall t :: 0 <= t < |threads| ==> !Borrows(threads[t], id)
    ensures Count(threads, id) == 0
  {
    if threads != [] {
      CountNone(threads[..|threads| - 1], id);
    }
  }

  // ---------------------------------------------------------------- at most one live profile per name

  /** What a caller holds is not published, and carries a name only it may touch. */
  lemma HeldIsClaimed(s: System, t: nat, id: Id)
    requires Inv(s) && HeldBy(s.threads, t, id)
    ensures Live(s.m, id) && s.m.deps[id].name !in s.m.open
    ensures s.m.deps[id].name in Claims(s.threads[t]) || s.threads[t].ClosingAll?
  {
    assert ThreadOk(s, t);
    var i :| 0 <= i < |Held(s.threads[t])| && Held(s.threads[t])[i] == id;
  }

  lemma SealedHolder(s: System, t: nat, id: Id)
    requires Inv(s) && s.m.sealed && HeldBy(s.threads, t, id)
    ensures s.threads[t].ClosingAll?
  {
    HeldIsClaimed(s, t, id);
    assert ThreadOk(s, t);
  }

  lemma NamesApart(s: System, t: nat, u: nat, a: Id, b: Id)
    requires Inv(s) && HeldBy(s.threads, t, a) && HeldBy(s.threads, u, b) && t < u
    requires a < |s.m.deps| && b < |s.m.deps|
    ensures s.m.deps[a].name != s.m.deps[b].name
  {
    HeldIsClaimed(s, t, a);
    HeldIsClaimed(s, u, b);
    assert PairOk(s, t, u);
    if s.threads[t].ClosingAll? || s.threads[u].ClosingAll? {
      assert ThreadOk(s, t) && ThreadOk(s, u);
      SealedHolder(s, t, a);
      SealedHolder(s, u, b);
    }
  }

  lemma HeldApart(s: System, t: nat, u: nat, a: Id, b: Id)
    requires Inv(s) && HeldBy(s.threads, t, a) && HeldBy(s.threads, u, b)
    requires a < |s.m.deps| && b < |s.m.deps| && s.m.deps[a].name == s.m.deps[b].name
    ensures t == u && a == b
  {
    if t < u {
      NamesApart(s, t, u, a, b);
    } else if u < t {
      NamesApart(s, u, t, b, a);
    } else {
      assert ThreadOk(s, t);
    }
  }

  lemma OneLivePerName(s: System, a: Id, b: Id)
    requires Inv(s) && Live(s.m, a) && Live(s.m, b) && s.m.deps[a].name == s.m.deps[b].name
    ensures a == b
  {
    assert PlaceOk(s, a) && PlaceOk(s, b);
    if !InOpen(s.m, a) {
      var t: nat :| HeldBy(s.threads, t, a);
      HeldIsClaimed(s, t, a);
      var u: nat :| HeldBy(s.threads, u, b);
      HeldApart(s, t, u, a, b);
    } else if !InOpen(s.m, b) {
      var u: nat :| HeldBy(s.threads, u, b);
      HeldIsClaimed(s, u, b);
    }
  }

  // ---------------------------------------------------------------- what a step leaves to the others

  ghost predicate IsHeld(p: Phase, id: Id) {
    id in Held(p)
  }

  /** The manager changed around the profiles and names of phase `p` only. */
  ghost predicate ChangedAround(m: Manager, p: Phase, m': Manager) {
    && |m.deps| <= |m'.deps|
    && (forall id :: 0 <= id < |m.deps| ==>
          && m'.deps[id].name == m.deps[id].name
          && (!IsHeld(p, id) ==> m'.deps[id].closing == m.deps[id].closing && m'.deps[id].closes == m.deps[id].closes))
    && (forall n :: n in m.opening && n !in Claims(p) ==> n in m'.opening)
    && (forall n :: n in m.blocked && n !in Claims(p) ==> n in m'.blocked)
    && (m.closed ==> m'.closed)
    && (m'.sealed == m.sealed || IsSealer(p))
  }

  lemma OtherPhase(s: System, t: nat, u: nat, m': Manager)
    requires Inv(s) && t < |s.threads| && u < |s.threads| && t != u
    requires ChangedAround(s.m, s.threads[t], m')
    ensures PhaseOk(m', s.threads[u])
  {
    var p, q := s.threads[t], s.threads[u];
    assert ThreadOk(s, u) && PairOk(s, t, u);
    forall i | 0 <= i < |Held(q)|
      ensures Live(s.m, Held(q)[i]) && !IsHeld(p, Held(q)[i])
    {
      var id := Held(q)[i];
      HeldIsClaimed(s, u, id);
      if IsHeld(p, id) {
        HeldApart(s, t, u, id, id);
      }
    }
    SamePhase(s.m, p, m', q);
  }

  lemma SamePhase(m: Manager, p: Phase, m': Manager, q: Phase)
    requires PhaseOk(m, q) && ChangedAround(m, p, m')
    requires Apart(p, q)
    requires forall i :: 0 <= i < |Held(q)| ==> !IsHeld(p, Held(q)[i])
    ensures PhaseOk(m', q)
  {
    var ids := Held(q);
    forall i | 0 <= i < |ids|
      ensures Live(m', ids[i]) && m'.deps[ids[i]].name == m.deps[ids[i]].name
              && m'.deps[ids[i]].closing == m.deps[ids[i]].closing
    {
      assert Live(m, ids[i]);
    }
    assert HeldOk(m', ids);
    if ids != [] {
      assert m'.deps[ids[0]].closing == m.deps[ids[0]].closing;
    }
    assert q.Draining? || q.Locked? ==> Claims(q) == Elements(q.names);
    assert forall n :: n in Claims(q) && n in m.opening ==> n in m'.opening;
    assert forall n :: n in Claims(q) && n in m.blocked ==> n in m'.blocked;
  }

  /** No caller owns a name that is free while the manager still admits. */
  lemma FreeIsUnclaimed(s: System, u: nat, n: Name)
    requires Inv(s) && u < |s.threads| && Free(s.m, n)
    ensures n !in Claims(s.threads[u])
  {
    assert ThreadOk(s, u);
  }

  /** The phases after a step of caller `t`. */
  lemma PhasesAfter(s: System, t: nat, s': System)
    requires Inv(s) && t < |s.threads| == |s'.threads| && s'.threads == s.threads[t := s'.threads[t]]
    requires ChangedAround(s.m, s.threads[t], s'.m) && PhaseOk(s'.m, s'.threads[t])
    requires Entitled(s, s.threads[t], s'.threads[t])
    ensures forall u: nat :: u < |s'.threads| ==> ThreadOk(s', u)
    ensures forall u: nat, v: nat :: u < |s'.threads| && v < |s'.threads| ==> PairOk(s', u, v)
  {
    var p' := s'.threads[t];
    forall u: nat | u < |s'.threads| ensures ThreadOk(s', u) {
      if u != t {
        OtherPhase(s, t, u, s'.m);
      }
    }
    forall u: nat, v: nat | u < |s'.threads| && v < |s'.threads| ensures PairOk(s', u, v) {
      assert PairOk(s, u, v);
      if u == t != v {
        ApartAfter(s, t, v, p');
      } else if v == t != u {
        ApartAfter(s, t, u, p');
      }
    }
  }

  lemma ApartAfter(s: System, t: nat, u: nat, p': Phase)
    requires Inv(s) && t < |s.threads| && u < |s.threads| && u != t
    requires Entitled(s, s.threads[t], p')
    ensures Apart(p', s.threads[u])
  {
    assert ThreadOk(s, u) && PairOk(s, t, u);
    forall n | n in Claims(p') && n in Claims(s.threads[u]) ensures false {
      if Free(s.m, n) {
        FreeIsUnclaimed(s, u, n);
      }
    }
  }

  /** A live profile keeps its place unless the step moved it. */
  lemma PlaceAfter(s: System, t: nat, s': System, id: Id)
    requires Inv(s) && t < |s.threads| == |s'.threads| && s'.threads == s.threads[t := s'.threads[t]]
    requires id < |s.m.deps| <= |s'.m.deps| && s'.m.deps[id].name == s.m.deps[id].name && s.m.deps[id].closes == 0
    requires InOpen(s.m, id) ==> Placed(s', id)
    requires IsHeld(s.threads[t], id) ==> Placed(s', id)
    ensures Placed(s', id)
  {
    assert PlaceOk(s, id);
    if !InOpen(s.m, id) {
      var u: nat :| HeldBy(s.threads, u, id);
      if u != t {
        assert HeldBy(s'.threads, u, id);
      }
    }
  }

  function Gain(p: Phase, p': Phase, id: Id): int {
    (if Borrows(p', id) then 1 else 0) - (if Borrows(p, id) then 1 else 0)
  }

  /** The counts of borrowers after caller `t` changed from `p` to `p'`. */
  lemma CountsAfter(threads: seq<Phase>, t: nat, p': Phase)
    requires t < |threads|
    ensures forall id :: Count(threads[t := p'], id) == Count(threads, id) + Gain(threads[t], p', id)
  {
    forall id ensures Count(threads[t := p'], id) == Count(threads, id) + Gain(threads[t], p', id) {
      CountUpdate(threads, t, p', id);
    }
  }

  /** How one profile may change when its number of borrowers changes by `gain`. */
  ghost predicate Follows(d: Deps, d': Deps, gain: int) {
    && d'.name == d.name && d'.refs == d.refs + gain
    && if d'.closes == d.closes then d.closes != 0 ==> d' == d
       else d.closes == 0 && d'.closes == 1 && d'.closing && d'.refs == 0
  }

  ghost predicate AllFollow(s: System, t: nat, s': System)
    requires t < |s.threads| && t < |s'.threads|
  {
    && |s'.m.deps| == |s.m.deps|
    && forall id: Id :: id < |s.m.deps| ==> Follows(s.m.deps[id], s'.m.deps[id], Gain(s.threads[t], s'.threads[t], id))
  }

  /** Every profile the step took out of `open` or out of the caller's hands has a new place. */
  ghost predicate PlacesKept(s: System, t: nat, s': System)
    requires t < |s.threads| && t < |s'.threads| && |s'.m.deps| == |s.m.deps|
  {
    && (forall id: Id :: id < |s.m.deps| && InOpen(s.m, id) ==> InOpen(s'.m, id) || IsHeld(s'.threads[t], id))
    && (forall id: Id :: id < |s.m.deps| && IsHeld(s.threads[t], id) ==>
          IsHeld(s'.threads[t], id) || InOpen(s'.m, id) || s'.m.deps[id].closes != 0)
  }

  /** The caller's new phase owns nothing it did not own or find free, and seals only once. */
  ghost predicate Entitled(s: System, p: Phase, p': Phase) {
    && (Claims(p') <= Claims(p) || forall n :: n in Claims(p') ==> Free(s.m, n))
    && (IsSealer(p') ==> IsSealer(p) || !s.m.closed)
  }

  /** What one step has to show; the rest of the invariant follows. */
  lemma Assemble(s: System, t: nat, s': System)
    requires Inv(s) && t < |s.threads| == |s'.threads| && s'.threads == s.threads[t := s'.threads[t]]
    requires MapsOk(s'.m) && ChangedAround(s.m, s.threads[t], s'.m) && PhaseOk(s'.m, s'.threads[t])
    requires Entitled(s, s.threads[t], s'.threads[t])
    requires AllFollow(s, t, s') && PlacesKept(s, t, s')
    ensures Inv(s')
  {
    PhasesAfter(s, t, s');
    CountsAfter(s.threads, t, s'.threads[t]);
    forall id: Id | id < |s'.m.deps| ensures CountOk(s', id) {
      assert CountOk(s, id);
      assert Follows(s.m.deps[id], s'.m.deps[id], Gain(s.threads[t], s'.threads[t], id));
    }
    forall id: Id | id < |s'.m.deps| ensures PlaceOk(s', id) {
      assert Follows(s.m.deps[id], s'.m.deps[id], Gain(s.threads[t], s'.threads[t], id));
      if s'.m.deps[id].closes == 0 {
        if IsHeld(s'.threads[t], id) { assert HeldBy(s'.threads, t, id); }
        PlaceAfter(s, t, s', id);
      }
    }
  }

  // ---------------------------------------------------------------- steps that leave the profiles alone

  lemma {:induction false} DetachedFacts(m: Manager, names: seq<Name>)
    requires MapsOk(m) && Distinct(names)
    ensures HeldOk(m, Detached(m.open, names))
    ensures forall i :: 0 <= i < |Detached(m.open, names)| ==> m.deps[Detached(m.open, names)[i]].name in names
    ensures forall n :: n in names && n in m.open ==> m.open[n] in Detached(m.open, names)
  {
    if names != [] {
      var rest := Detached(m.open, names[1..]);
      DetachedFacts(m, names[1..]);
      assert names == [names[0]] + names[1..];
      assert names[0] !in names[1..];
      forall i | 0 <= i < |rest| ensures m.deps[rest[i]].name != names[0] {
        assert m.deps[rest[i]].name in names[1..];
      }
    }
  }

  lemma QuietFacts(s: System, t: nat, ev: Event, s': System)
    requires Inv(s) && Step(s, t, ev, s')
    requires ev.DropMark? || ev.Return? || ev.Unlock? || ev.Seal? || ev.FinishAll?
             || (ev.Load? && !ev.ok) || (ev.Admit? && (s.m.closed || ev.cancelled))
    ensures MapsOk(s'.m) && ChangedAround(s.m, s.threads[t], s'.m) && PhaseOk(s'.m, s'.threads[t])
    ensures Entitled(s, s.threads[t], s'.threads[t])
    ensures s'.m.deps == s.m.deps && s'.m.open == s.m.open && Held(s'.threads[t]) == Held(s.threads[t])
    ensures !s.threads[t].Borrowing? && !s'.threads[t].Borrowing?
  {
    assert ThreadOk(s, t);
  }

  lemma QuietEvents(s: System, t: nat, ev: Event, s': System)
    requires Inv(s) && Step(s, t, ev, s')
    requires ev.DropMark? || ev.Return? || ev.Unlock? || ev.Seal? || ev.FinishAll?
             || (ev.Load? && !ev.ok) || (ev.Admit? && (s.m.closed || ev.cancelled))
    ensures Inv(s')
  {
    QuietFacts(s, t, ev, s');
    Assemble(s, t, s');
  }

  /** A `Get` that finds the name open finds it available: `open` never holds a closing profile. */
  lemma OpenIsAvailable(m: Manager, name: Name)
    requires MapsOk(m)
    ensures Available(m, name) <==> name in m.open
  {
  }

  lemma StartOpeningKeepsInv(s: System, t: nat, name: Name, s': System)
    requires Inv(s) && Step(s, t, Get(name), s') && !Available(s.m, name)
    ensures Inv(s')
  {
    assert ThreadOk(s, t);
    OpenIsAvailable(s.m, name);
    assert s'.m.open == s.m.open;
    Assemble(s, t, s');
  }

  lemma LockKeepsInv(s: System, t: nat, names: seq<Name>, s': System)
    requires Inv(s) && Step(s, t, Lock(names), s')
    ensures Inv(s')
  {
    DetachedFacts(s.m, names);
    forall id: Id | id < |s.m.deps| && InOpen(s.m, id)
      ensures InOpen(s'.m, id) || IsHeld(s'.threads[t], id)
    {
      if s.m.deps[id].name in names {
        assert s.m.open[s.m.deps[id].name] in Detached(s.m.open, names);
      }
    }
    Assemble(s, t, s');
  }

  lemma TakeAllPhase(s: System, t: nat, names: seq<Name>, s': System)
    requires Inv(s) && Step(s, t, TakeAll(names), s')
    ensures MapsOk(s'.m) && ChangedAround(s.m, s.threads[t], s'.m) && PhaseOk(s'.m, s'.threads[t])
    ensures s.threads[t] == Sealing && s'.threads[t] == ClosingAll(Detached(s.m.open, names), false) && s'.m.deps == s.m.deps
    ensures Elements(names) == s.m.open.Keys
    ensures forall n :: n in names && n in s.m.open ==> s.m.open[n] in Detached(s.m.open, names)
  {
    assert ThreadOk(s, t);
    DetachedFacts(s.m, names);
  }

  lemma TakeAllKeepsInv(s: System, t: nat, names: seq<Name>, s': System)
    requires Inv(s) && Step(s, t, TakeAll(names), s')
    ensures Inv(s')
  {
    TakeAllPhase(s, t, names, s');
    forall id: Id | id < |s.m.deps| && InOpen(s.m, id) ensures IsHeld(s'.threads[t], id) {
      assert s.m.deps[id].name in Elements(names);
    }
    Assemble(s, t, s');
  }

  // ---------------------------------------------------------------- steps that touch one profile

  lemma RefsOnly(m: Manager, p: Phase, id: Id, refs: int)
    requires MapsOk(m) && id < |m.deps|
    ensures var m' := SetDeps(m, id, m.deps[id].(refs := refs)); MapsOk(m') && ChangedAround(m, p, m')
  {
  }

  /** One more or one fewer borrower of profile `id`. */
  lemma RefStep(s: System, t: nat, p': Phase, id: Id)
    requires Inv(s) && t < |s.threads| && Live(s.m, id)
    requires (s.threads[t] == Idle && p' == Borrowing(id)) || (s.threads[t] == Borrowing(id) && p' == Idle)
    ensures Inv(System(SetDeps(s.m, id, s.m.deps[id].(refs := s.m.deps[id].refs + Gain(s.threads[t], p', id))),
                       s.threads[t := p']))
  {
    var d := s.m.deps[id].(refs := s.m.deps[id].refs + Gain(s.threads[t], p', id));
    var s' := System(SetDeps(s.m, id, d), s.threads[t := p']);
    RefsOnly(s.m, s.threads[t], id, d.refs);
    Assemble(s, t, s');
  }

  lemma BorrowKeepsInv(s: System, t: nat, id: Id, s': System)
    requires Inv(s) && t < |s.threads| && s.threads[t] == Idle && Live(s.m, id)
    requires s' == System(Borrow(s.m, id), s.threads[t := Borrowing(id)])
    ensures Inv(s')
  {
    hide Inv;
    RefStep(s, t, Borrowing(id), id);
  }

  lemma BorrowedIsLive(s: System, t: nat, id: Id)
    requires Inv(s) && t < |s.threads| && s.threads[t] == Borrowing(id) && id < |s.m.deps|
    ensures Live(s.m, id) && s.m.deps[id].refs > 0
  {
    CountsBorrower(s.threads, t, id);
    assert CountOk(s, id);
  }

  lemma ReleaseKeepsInv(s: System, t: nat, id: Id, s': System)
    requires Inv(s) && t < |s.threads| && s.threads[t] == Borrowing(id) && id < |s.m.deps|
    requires s' == System(Release(s.m, id), s.threads[t := Idle])
    ensures Inv(s')
  {
    hide Inv;
    BorrowedIsLive(s, t, id);
    RefStep(s, t, Idle, id);
  }

  lemma PublishFacts(s: System, t: nat)
    requires Inv(s) && t < |s.threads| && s.threads[t].Opened? && !s.m.closed
    ensures var name, id := s.threads[t].name, s.threads[t].id;
            && Live(s.m, id) && s.m.deps[id].name == name && name !in s.m.open
            && MapsOk(Publish(s.m, name, id)) && ChangedAround(s.m, s.threads[t], Publish(s.m, name, id))
  {
    var name, id := s.threads[t].name, s.threads[t].id;
    assert ThreadOk(s, t);
    assert HeldBy(s.threads, t, id);
    HeldIsClaimed(s, t, id);
  }

  lemma PublishKeepsInv(s: System, t: nat, s': System)
    requires Inv(s) && Step(s, t, Admit(false), s') && !s.m.closed
    ensures Inv(s')
  {
    var name, id := s.threads[t].name, s.threads[t].id;
    PublishFacts(s, t);
    Assemble(s, t, s');
  }

  lemma LoadedPhases(s: System, t: nat, s': System)
    requires Inv(s) && Step(s, t, Load(true), s')
    ensures MapsOk(s'.m)
    ensures forall u: nat :: u < |s'.threads| ==> ThreadOk(s', u)
    ensures forall u: nat, v: nat :: u < |s'.threads| && v < |s'.threads| ==> PairOk(s', u, v)
    ensures HeldBy(s'.threads, t, |s.m.deps|) && s'.threads[t].Opened? && s.threads[t].Opening?
  {
    assert ThreadOk(s, t);
    PhasesAfter(s, t, s');
  }

  lemma NobodyBorrowsTheUnborn(s: System)
    requires Inv(s)
    ensures Count(s.threads, |s.m.deps|) == 0
  {
    forall u | 0 <= u < |s.threads| ensures !Borrows(s.threads[u], |s.m.deps|) {
      assert ThreadOk(s, u);
    }
    CountNone(s.threads, |s.m.deps|);
  }

  lemma LoadedKeepsInv(s: System, t: nat, s': System)
    requires Inv(s) && Step(s, t, Load(true), s')
    ensures Inv(s')
  {
    LoadedPhases(s, t, s');
    CountsAfter(s.threads, t, s'.threads[t]);
    NobodyBorrowsTheUnborn(s);
    forall x: Id | x < |s'.m.deps| ensures CountOk(s', x) {
      if x < |s.m.deps| { assert CountOk(s, x); }
    }
    forall x: Id | x < |s'.m.deps| ensures PlaceOk(s', x) {
      if x < |s.m.deps| && s.m.deps[x].closes == 0 {
        PlaceAfter(s, t, s', x);
      }
    }
  }

  /** The head of a drain list is not published, and nobody else holds it. */
  lemma MarkFacts(s: System, t: nat, s': System)
    requires Inv(s) && Step(s, t, Mark, s')
    ensures Held(s'.threads[t]) == Held(s.threads[t]) && Claims(s'.threads[t]) == Claims(s.threads[t])
    ensures MapsOk(s'.m) && ChangedAround(s.m, s.threads[t], s'.m) && PhaseOk(s'.m, s'.threads[t])
    ensures IsSealer(s'.threads[t]) <==> IsSealer(s.threads[t])
  {
    var id := Held(s.threads[t])[0];
    assert ThreadOk(s, t);
    assert HeldBy(s.threads, t, id);
    HeldIsClaimed(s, t, id);
    MarkedPhase(s.m, s.threads[t]);
    MarkedMaps(s.m, s.threads[t], id);
  }

  lemma MarkedPhase(m: Manager, p: Phase)
    requires PhaseOk(m, p) && (p.Aborting? || p.Draining? || p.ClosingAll?) && Held(p) != [] && Held(p)[0] < |m.deps|
    ensures PhaseOk(MarkClosing(m, Held(p)[0]), p.(marked := true))
  {
  }

  lemma MarkedMaps(m: Manager, p: Phase, id: Id)
    requires MapsOk(m) && IsHeld(p, id) && id < |m.deps| && m.deps[id].name !in m.open
    ensures MapsOk(MarkClosing(m, id)) && ChangedAround(m, p, MarkClosing(m, id))
  {
  }

  lemma MarkKeepsInv(s: System, t: nat, s': System)
    requires Inv(s) && Step(s, t, Mark, s')
    ensures Inv(s')
  {
    MarkFacts(s, t, s');
    Assemble(s, t, s');
  }

  lemma ClosePhase(s: System, t: nat, s': System)
    requires Inv(s) && Step(s, t, Close, s')
    ensures MapsOk(s'.m) && ChangedAround(s.m, s.threads[t], s'.m) && PhaseOk(s'.m, s'.threads[t])
    ensures forall x :: IsHeld(s.threads[t], x) && x != Held(s.threads[t])[0] ==> IsHeld(s'.threads[t], x)
    ensures s.m.deps[Held(s.threads[t])[0]].closing && s.m.deps[Held(s.threads[t])[0]].closes == 0
  {
    var p, p' := s.threads[t], s'.threads[t];
    var id := Held(p)[0];
    assert ThreadOk(s, t);
    assert HeldBy(s.threads, t, id);
    HeldIsClaimed(s, t, id);
    forall i | 0 <= i < |Held(p')| ensures Held(p')[i] == Held(p)[i + 1] && Held(p')[i] != id {
      assert s.m.deps[Held(p)[0]].name != s.m.deps[Held(p)[i + 1]].name;
    }
  }

  lemma CloseKeepsInv(s: System, t: nat, s': System)
    requires Inv(s) && Step(s, t, Close, s')
    ensures Inv(s')
  {
    var id := Held(s.threads[t])[0];
    ClosePhase(s, t, s');
    assert CountOk(s, id);
    Assemble(s, t, s');
  }

  // ---------------------------------------------------------------- every run

  lemma StepKeepsInv(s: System, t: nat, ev: Event, s': System)
    requires Inv(s) && Step(s, t, ev, s')
    ensures Inv(s')
  {
    match ev
    case Get(name) =>
      if Available(s.m, name) { BorrowKeepsInv(s, t, s.m.open[name], s'); } else { StartOpeningKeepsInv(s, t, name, s'); }
    case Load(ok) => if ok { LoadedKeepsInv(s, t, s'); } else { QuietEvents(s, t, ev, s'); }
    case Admit(cancelled) =>
      if s.m.closed || cancelled { QuietEvents(s, t, ev, s'); } else { PublishKeepsInv(s, t, s'); }
    case Mark => MarkKeepsInv(s, t, s');
    case Close => CloseKeepsInv(s, t, s');
    case DropMark => QuietEvents(s, t, ev, s');
    case Find(name) => BorrowKeepsInv(s, t, s.m.open[name], s');
    case Done => ReleaseKeepsInv(s, t, s.threads[t].id, s');
    case Lock(names) => LockKeepsInv(s, t, names, s');
    case Return(cancelled) => QuietEvents(s, t, ev, s');
    case Unlock => QuietEvents(s, t, ev, s');
    case Seal => QuietEvents(s, t, ev, s');
    case TakeAll(names) => TakeAllKeepsInv(s, t, names, s');
    case FinishAll => QuietEvents(s, t, ev, s');
  }

  lemma {:induction false} RunKeepsInv(states: seq<System>, steps: seq<(nat, Event)>, n: nat)
    requires IsRun(states, steps) && n < |states|
    ensures Inv(states[n])
  {
    if n > 0 {
      RunKeepsInv(states, steps, n - 1);
      assert StepAt(states, steps, n - 1);
      StepKeepsInv(states[n - 1], steps[n - 1].0, steps[n - 1].1, states[n]);
    }
  }

  // ---------------------------------------------------------------- what callers get

  /** In every interleaving, a name has at most one live (loaded, not yet closed) profile. */
  lemma AtMostOneLive(states: seq<System>, steps: seq<(nat, Event)>, n: nat, a: Id, b: Id)
    requires IsRun(states, steps) && n < |states|
    requires Live(states[n].m, a) && Live(states[n].m, b) && states[n].m.deps[a].name == states[n].m.deps[b].name
    ensures a == b
  {
    RunKeepsInv(states, steps, n);
    OneLivePerName(states[n], a, b);
  }

  predicate Locks(p: Phase, name: Name) {
    (p.Draining? || p.Locked?) && name in p.names
  }

  /** Concurrent lockers hold disjoint sets of names. */
  lemma LockersAreDisjoint(states: seq<System>, steps: seq<(nat, Event)>, n: nat, t: nat, u: nat, name: Name)
    requires IsRun(states, steps) && n < |states| && t < |states[n].threads| && u < |states[n].threads|
    requires Locks(states[n].threads[t], name) && Locks(states[n].threads[u], name)
    ensures t == u
  {
    RunKeepsInv(states, steps, n);
    assert PairOk(states[n], t, u);
    assert name in Claims(states[n].threads[t]) && name in Claims(states[n].threads[u]);
  }

  /** A profile somebody still has to publish or close carries no locked name. */
  lemma HeldIsNotLocked(s: System, t: nat, u: nat, id: Id)
    requires Inv(s) && t < |s.threads| && s.threads[t].Locked? && HeldBy(s.threads, u, id) && id < |s.m.deps|
    ensures s.m.deps[id].name !in s.threads[t].names
  {
    HeldIsClaimed(s, u, id);
    assert PairOk(s, t, u) && ThreadOk(s, t) && ThreadOk(s, u);
    var name, names := s.m.deps[id].name, s.threads[t].names;
    assert Claims(s.threads[t]) == Elements(names);
    assert name in names ==> name in Elements(names) && name in s.m.blocked;
    assert s.threads[u].ClosingAll? ==> s.m.blocked == {};
  }

  /** From a successful `lockProfiles` to its unlock, every profile of a locked name is closed, nobody
      references one, and nobody is opening one. */
  lemma LockIsExclusive(states: seq<System>, steps: seq<(nat, Event)>, n: nat, t: nat, id: Id)
    requires IsRun(states, steps) && n < |states| && t < |states[n].threads| && states[n].threads[t].Locked?
    requires id < |states[n].m.deps| && states[n].m.deps[id].name in states[n].threads[t].names
    ensures states[n].m.deps[id].closes == 1 && states[n].m.deps[id].refs == 0
    ensures forall u :: 0 <= u < |states[n].threads| ==> states[n].threads[u] != Borrowing(id)
    ensures states[n].m.deps[id].name !in states[n].m.open && states[n].m.deps[id].name !in states[n].m.opening
  {
    RunKeepsInv(states, steps, n);
    var s := states[n];
    var name := s.m.deps[id].name;
    assert ThreadOk(s, t) && CountOk(s, id) && PlaceOk(s, id);
    assert name in Claims(s.threads[t]) && name in s.m.blocked;
    if s.m.deps[id].closes == 0 {
      var u: nat :| HeldBy(s.threads, u, id);
      HeldIsNotLocked(s, t, u, id);
    }
    forall u | 0 <= u < |s.threads| ensures s.threads[u] != Borrowing(id) {
      if s.threads[u] == Borrowing(id) {
        CountsBorrower(s.threads, u, id);
      }
    }
  }

  /** A borrower's profile is never closed under it, and no profile is closed twice. */
  lemma BorrowersAreSafe(states: seq<System>, steps: seq<(nat, Event)>, n: nat, id: Id)
    requires IsRun(states, steps) && n < |states| && id < |states[n].m.deps|
    ensures states[n].m.deps[id].refs == Count(states[n].threads, id)
    ensures states[n].m.deps[id].closes <= 1
    ensures forall t :: 0 <= t < |states[n].threads| && states[n].threads[t] == Borrowing(id) ==> Live(states[n].m, id)
  {
    RunKeepsInv(states, steps, n);
    var s := states[n];
    assert CountOk(s, id);
    forall t | 0 <= t < |s.threads| && s.threads[t] == Borrowing(id) ensures Live(s.m, id) {
      CountsBorrower(s.threads, t, id);
    }
  }

  lemma NothingHeldAfterCloseAll(s: System, t: nat, u: nat, id: Id)
    requires Inv(s) && t < |s.threads| && s.threads[t].Finished? && u < |s.threads|
    ensures !HeldBy(s.threads, u, id)
  {
    assert ThreadOk(s, t) && PairOk(s, t, u);
    if HeldBy(s.threads, u, id) {
      SealedHolder(s, u, id);
    }
  }

  /** Once `CloseAll` returned, every profile ever opened is closed, and no borrower is left. */
  lemma CloseAllClosesEverything(states: seq<System>, steps: seq<(nat, Event)>, n: nat, t: nat, id: Id)
    requires IsRun(states, steps) && n < |states| && t < |states[n].threads| && states[n].threads[t].Finished?
    requires id < |states[n].m.deps|
    ensures states[n].m.deps[id].closes == 1 && Count(states[n].threads, id) == 0
  {
    RunKeepsInv(states, steps, n);
    var s := states[n];
    assert ThreadOk(s, t) && CountOk(s, id) && PlaceOk(s, id);
    if s.m.deps[id].closes == 0 {
      var u: nat :| HeldBy(s.threads, u, id);
      NothingHeldAfterCloseAll(s, t, u, id);
    }
  }

  /** The branch of `Get` that drops a closing profile from `open` is never taken. */
  lemma OpenProfilesAreNotClosing(states: seq<System>, steps: seq<(nat, Event)>, n: nat, name: Name)
    requires IsRun(states, steps) && n < |states| && name in states[n].m.open
    ensures WellFormed(states[n].m) && Available(states[n].m, name) && Free(states[n].m, name)
  {
    RunKeepsInv(states, steps, n);
  }

  // ---------------------------------------------------------------- who is waited for

  ghost predicate Claimed(threads: seq<Phase>, name: Name) {
    exists t: nat :: ClaimedBy(threads, t, name)
  }

  predicate ClaimedBy(threads: seq<Phase>, t: nat, name: Name) {
    t < |threads| && name in Claims(threads[t])
  }

  /** No mark without an owner. */
  ghost predicate MarksOwned(s: System) {
    forall name :: name in s.m.blocked || name in s.m.opening ==> Claimed(s.threads, name)
  }

  /** What the stepping caller claimed it still claims, or the mark is gone. */
  lemma OwnMarks(s: System, t: nat, ev: Event, s': System, name: Name)
    requires Inv(s) && Step(s, t, ev, s') && (name in s'.m.blocked || name in s'.m.opening)
    ensures name in Claims(s.threads[t]) ==> name in Claims(s'.threads[t])
    ensures !(name in s.m.blocked || name in s.m.opening) ==> name in Claims(s'.threads[t])
  {
    assert ThreadOk(s, t);
  }

  lemma StepKeepsMarks(s: System, t: nat, ev: Event, s': System)
    requires Inv(s) && MarksOwned(s) && Step(s, t, ev, s')
    ensures MarksOwned(s')
  {
    hide Next, Inv, Claims;
    forall name | name in s'.m.blocked || name in s'.m.opening ensures Claimed(s'.threads, name) {
      OwnMarks(s, t, ev, s', name);
      if name in Claims(s'.threads[t]) {
        assert ClaimedBy(s'.threads, t, name);
      } else {
        var u: nat :| ClaimedBy(s.threads, u, name);
        assert ClaimedBy(s'.threads, u, name);
      }
    }
  }

  lemma {:induction false} RunKeepsMarks(states: seq<System>, steps: seq<(nat, Event)>, n: nat)
    requires IsRun(states, steps) && n < |states|
    ensures MarksOwned(states[n])
  {
    if n > 0 {
      RunKeepsMarks(states, steps, n - 1);
      RunKeepsInv(states, steps, n - 1);
      assert StepAt(states, steps, n - 1);
      StepKeepsMarks(states[n - 1], steps[n - 1].0, steps[n - 1].1, states[n]);
    }
  }

  /** Whoever waits for a name waits for somebody: a name is not free exactly while some caller loads it,
      closes what it loaded, or holds or drains it under a lock.  An unlock, a failed load and a cancelled
      lock leave nothing behind. */
  lemma WaitersWaitForSomebody(states: seq<System>, steps: seq<(nat, Event)>, n: nat, name: Name)
    requires IsRun(states, steps) && n < |states|
    ensures !Free(states[n].m, name) <==> exists t: nat :: ClaimedBy(states[n].threads, t, name)
  {
    RunKeepsMarks(states, steps, n);
    RunKeepsInv(states, steps, n);
    forall t: nat | ClaimedBy(states[n].threads, t, name) ensures !Free(states[n].m, name) {
      assert ThreadOk(states[n], t);
    }
  }

  /** Every open profile can be borrowed and searched as it stands. */
  lemma OpenProfilesAreFindable(states: seq<System>, steps: seq<(nat, Event)>, n: nat, name: Name, hasBook: Id -> bool)
    requires IsRun(states, steps) && n < |states|
    ensures WellFormed(states[n].m)
    ensures Findable(states[n].m, name, hasBook) <==> name in states[n].m.open && hasBook(states[n].m.open[name])
  {
    RunKeepsInv(states, steps, n);
  }

  /** A profile that was published stays in `open` until a locker or `CloseAll` takes it, so that every
      `Get` in between shares it. */
  lemma OpenUntilTaken(s: System, t: nat, ev: Event, s': System, name: Name)
    requires Inv(s) && Step(s, t, ev, s') && name in s.m.open
    ensures (ev.Lock? && name in ev.names) || ev.TakeAll? || (name in s'.m.open && s'.m.open[name] == s.m.open[name])
  {
    assert ThreadOk(s, t);
  }

  // ---------------------------------------------------------------- the manager

  /** What the admission section of `Get` decided. */
  datatype Admission = Refused | Wait | Lent(id: Id) | MustLoad

  lemma {:induction false} DetachedSnoc(open: map<Name, Id>, names: seq<Name>, name: Name)
    ensures Detached(open, names + [name]) == Detached(open, names) + (if name in open then [open[name]] else [])
  {
    if names != [] {
      assert (names + [name])[1..] == names[1..] + [name];
      DetachedSnoc(open, names[1..], name);
    }
  }

  lemma BlockStep(open: map<Name, Id>, names: seq<Name>, i: nat)
    requires i < |names| && Distinct(names)
    ensures Elements(names[..i + 1]) == Elements(names[..i]) + {names[i]}
    ensures names[i] !in Elements(names[..i])
    ensures Detached(open, names[..i + 1])
         == Detached(open, names[..i]) + (if names[i] in open then [open[names[i]]] else [])
  {
    assert names[..i + 1] == names[..i] + [names[i]];
    DetachedSnoc(open, names[..i], names[i]);
  }

  /** The `ProfileManager` object; each method is one critical section under its mutex. */
  class ProfileManager {
    var deps: seq<Deps>
    var open: map<Name, Id>
    var blocked: set<Name>
    var opening: set<Name>
    var closed: bool
    var sealed: bool

    function State(): Manager
      reads this
    {
      Manager(deps, open, blocked, opening, closed, sealed)
    }

    constructor ()
      ensures State() == Manager([], map[], {}, {}, false, false)
    {
      deps, open, blocked, opening, closed, sealed := [], map[], {}, {}, false, false;
    }

    /** `Get` up to the load: the waiting loop re-runs this section after every wake-up. */
    method GetSection(name: Name, cancelled: bool) returns (r: Admission)
      requires WellFormed(State())
      modifies this
      ensures r == Refused <==> old(closed) || cancelled
      ensures r == Wait <==> !(old(closed) || cancelled) && !Free(old(State()), name)
      ensures r.Lent? ==> Available(old(State()), name) && r.id == old(open)[name] && State() == Borrow(old(State()), r.id)
      ensures r == MustLoad ==> !Available(old(State()), name) && State() == StartOpening(old(State()), name)
      ensures r == Refused || r == Wait ==> State() == old(State())
    {
      if closed || cancelled {
        return Refused;
      }
      if name in blocked || name in opening {
        return Wait;
      }
      if name in open {
        var id := open[name];
        if !deps[id].closing {
          deps := deps[id := deps[id].(refs := deps[id].refs + 1)];
          return Lent(id);
        }
        open := open - {name};
      }
      opening := opening + {name};
      assert name !in old(open) ==> open == old(open) - {name};
      return MustLoad;
    }

    /** The publication section of `Get`; a refused profile is closed by the caller. */
    method AdmitSection(name: Name, id: Id, cancelled: bool) returns (published: bool)
      requires id < |deps|
      modifies this
      ensures published <==> !old(closed) && !cancelled
      ensures State() == if published then Publish(old(State()), name, id) else old(State())
    {
      if closed || cancelled {
        return false;
      }
      deps := deps[id := deps[id].(refs := deps[id].refs + 1)];
      open := open[name := id];
      opening := opening - {name};
      return true;
    }

    /** The claiming section of `lockProfiles`: every name is seen free before any is marked. */
    method LockSection(names: seq<Name>, cancelled: bool) returns (granted: bool, toClose: seq<Id>)
      requires WellFormed(State()) && Distinct(names)
      modifies this
      ensures granted <==> !old(closed) && !cancelled && forall n :: n in names ==> Free(old(State()), n)
      ensures granted ==> State() == Block(old(State()), names) && toClose == Detached(old(open), names)
      ensures !granted ==> State() == old(State())
    {
      if closed || cancelled {
        return false, [];
      }
      for i := 0 to |names|
        invariant forall k :: 0 <= k < i ==> Free(State(), names[k])
      {
        if names[i] in blocked || names[i] in opening {
          assert names[i] in names;
          return false, [];
        }
      }
      toClose := BlockAll(names);
      granted := true;
    }

    method BlockAll(names: seq<Name>) returns (toClose: seq<Id>)
      requires WellFormed(State()) && Distinct(names)
      modifies this
      ensures State() == Block(old(State()), names) && toClose == Detached(old(open), names)
    {
      toClose := [];
      ghost var was := State();
      for i := 0 to |names|
        invariant blocked == was.blocked + Elements(names[..i]) && open == was.open - Elements(names[..i])
        invariant deps == was.deps && opening == was.opening && closed == was.closed && sealed == was.sealed
        invariant toClose == Detached(was.open, names[..i])
      {
        BlockStep(was.open, names, i);
        blocked := blocked + {names[i]};
        if names[i] in open {
          toClose := toClose + [open[names[i]]];
          open := open - {names[i]};
        }
      }
      assert names[..|names|] == names;
    }

    method UnlockSection(names: seq<Name>)
      modifies this
      ensures State() == Unblock(old(State()), names)
    {
      for i := 0 to |names|
        invariant State() == Unblock(old(State()), names[..i])
      {
        assert Elements(names[..i + 1]) == Elements(names[..i]) + {names[i]};
        blocked := blocked - {names[i]};
      }
      assert names[..|names|] == names;
    }

    method ReleaseSection(id: Id)
      requires id < |deps|
      modifies this
      ensures State() == Release(old(State()), id)
    {
      if deps[id].refs <= 0 {
        return;
      }
      deps := deps[id := deps[id].(refs := deps[id].refs - 1)];
    }

    /** `FindBook`: some open, unblocked profile that has the book, borrowed; `none` only when there
        is no such profile. */
    method FindBook(hasBook: Id -> bool) returns (found: bool, id: Id)
      requires WellFormed(State())
      modifies this
      ensures found ==> exists n :: n in old(open) && Findable(old(State()), n, hasBook) && id == old(open)[n]
                                 && State() == Borrow(old(State()), id)
      ensures !found ==> State() == old(State()) && (closed || forall n :: n in open ==> !Findable(State(), n, hasBook))
    {
      if closed {
        return false, 0;
      }
      var todo := open.Keys;
      while todo != {}
        invariant todo <= open.Keys && State() == old(State())
        invariant forall n :: n in open && n !in todo ==> !Findable(State(), n, hasBook)
        decreases todo
      {
        var name :| name in todo;
        todo := todo - {name};
        if name in blocked || !hasBook(open[name]) {
          continue;
        }
        id := open[name];
        if deps[id].closing {
          continue;
        }
        deps := deps[id := deps[id].(refs := deps[id].refs + 1)];
        assert name in old(open) && Findable(old(State()), name, hasBook);
        return true, id;
      }
      return false, 0;
    }
  }

  predicate Findable(m: Manager, name: Name, hasBook: Id -> bool)
    requires WellFormed(m)
  {
    name !in m.blocked && Available(m, name) && hasBook(m.open[name])
  }
}
