/** The login throttle of internal/api/throttle.go.  Times are in seconds. */
module Throttle {

  // Admission per (profile, client), lockout after repeated failures, and the caps that bound its
  // memory.

  import opened Basics
  import opened Wrappers

  const MAX_FAILURES := 5
  const MAX_ENTRIES := 4096
  const MAX_PROFILES_PER_CLIENT := 64
  const WINDOW := 15 * 60
  const LOCKOUT := 60
  const CONCURRENT_RETRY := 1

  type Client = string

  datatype Key = Key(profile: string, client: Client)

  /** `lockedUntil` is `None` for the zero time. */
  datatype Entry = Entry(failures: nat, windowStart: int, lockedUntil: Option<int>, lastSeen: int, inFlight: bool)

  type Entries = map<Key, Entry>

  function ClientKeys(entries: Entries, c: Client): set<Key> {
    set k | k in entries && k.client == c
  }

  function ClientCount(entries: Entries, c: Client): nat {
    |ClientKeys(entries, c)|
  }

  predicate Locked(e: Entry, now: int) {
    e.lockedUntil.Some? && now < e.lockedUntil.value
  }

  predicate Stale(e: Entry, now: int) {
    !e.inFlight && !Locked(e, now) && now - e.lastSeen >= WINDOW
  }

  function Prune(entries: Entries, now: int): Entries {
    map k | k in entries && !Stale(entries[k], now) :: entries[k]
  }

  predicate Full(entries: Entries, c: Client) {
    |entries| >= MAX_ENTRIES || ClientCount(entries, c) >= MAX_PROFILES_PER_CLIENT
  }

  /** The entries after `beginAttempt` and how long the caller has to wait; zero admits it. */
  function Begin(entries: Entries, key: Key, now: int): (Entries, int) {
    if key in entries then
      var e := entries[key];
      if Locked(e, now) then (entries, e.lockedUntil.value - now)
      else if e.inFlight then (entries, CONCURRENT_RETRY)
      else (entries[key := e.(inFlight := true, lastSeen := now)], 0)
    else
      var kept := if Full(entries, key.client) then Prune(entries, now) else entries;
      if Full(kept, key.client) then (kept, WINDOW)
      else (kept[key := Entry(0, now, None, now, true)], 0)
  }

  function Release(entries: Entries, key: Key): Entries {
    if key !in entries then entries
    else if entries[key].failures == 0 && entries[key].lockedUntil.None? then entries - {key}
    else entries[key := entries[key].(inFlight := false)]
  }

  function FailedEntry(e: Entry, now: int): Entry {
    var restart := now - e.windowStart >= WINDOW;
    var failures := (if restart then 0 else e.failures) + 1;
    Entry(failures, if restart then now else e.windowStart,
          if failures >= MAX_FAILURES then Some(now + LOCKOUT) else e.lockedUntil, now, e.inFlight)
  }

  function Fail(entries: Entries, key: Key, now: int): Entries {
    if key !in entries then entries else entries[key := FailedEntry(entries[key], now)]
  }

  function Succeed(entries: Entries, key: Key): Entries {
    if key !in entries then entries else entries[key := entries[key].(failures := 0, lockedUntil := None)]
  }

  // ---------------------------------------------------------------- caps

  predicate ClientCapped(entries: Entries, c: Client) {
    ClientCount(entries, c) <= MAX_PROFILES_PER_CLIENT
  }

  ghost predicate Capped(entries: Entries) {
    |entries| <= MAX_ENTRIES && forall c :: ClientCapped(entries, c)
  }

  lemma SubsetCount(small: Entries, big: Entries, c: Client)
    requires small.Keys <= big.Keys
    ensures ClientCount(small, c) <= ClientCount(big, c) && |small| <= |big|
  {
    SubsetSize(ClientKeys(small, c), ClientKeys(big, c));
    SubsetSize(small.Keys, big.Keys);
  }

  lemma InsertCount(entries: Entries, key: Key, e: Entry, c: Client)
    ensures ClientCount(entries[key := e], c)
         == ClientCount(entries, c) + (if key !in entries && key.client == c then 1 else 0)
    ensures |entries[key := e]| == |entries| + (if key !in entries then 1 else 0)
  {
    if key !in entries && key.client == c {
      assert ClientKeys(entries[key := e], c) == ClientKeys(entries, c) + {key};
    } else {
      assert ClientKeys(entries[key := e], c) == ClientKeys(entries, c);
    }
    assert entries[key := e].Keys == entries.Keys + {key};
    assert |entries[key := e].Keys| == |entries[key := e]| && |entries.Keys| == |entries|;
  }

  lemma DeleteCount(entries: Entries, key: Key, c: Client)
    requires key in entries
    ensures ClientCount(entries - {key}, c) == ClientCount(entries, c) - (if key.client == c then 1 else 0)
  {
    if key.client == c {
      assert ClientKeys(entries - {key}, c) == ClientKeys(entries, c) - {key};
    } else {
      assert ClientKeys(entries - {key}, c) == ClientKeys(entries, c);
    }
  }

  lemma FewerStayCapped(small: Entries, big: Entries)
    requires Capped(big) && small.Keys <= big.Keys
    ensures Capped(small)
  {
    SubsetCount(small, big, "");
    forall c ensures ClientCapped(small, c) {
      SubsetCount(small, big, c);
      assert ClientCapped(big, c);
    }
  }

  lemma BeginKeepsCaps(entries: Entries, key: Key, now: int)
    requires Capped(entries)
    ensures Capped(Begin(entries, key, now).0)
  {
    if key in entries {
      FewerStayCapped(Begin(entries, key, now).0, entries);
    } else {
      var kept := if Full(entries, key.client) then Prune(entries, now) else entries;
      FewerStayCapped(kept, entries);
      if !Full(kept, key.client) {
        var e := Entry(0, now, None, now, true);
        var grown := kept[key := e];
        InsertCount(kept, key, e, "");
        forall c ensures ClientCapped(grown, c) {
          InsertCount(kept, key, e, c);
          assert ClientCapped(kept, c);
        }
      }
    }
  }

  // ---------------------------------------------------------------- failure histories

  /** One recorded failure: when, its number in its counting window, and when that window started. */
  datatype Failure = Failure(time: int, count: nat, windowStart: int)

  /** How the next failure of a key follows one, with no success between them: either it goes on
      counting in the same window, or that window was over. */
  predicate Follows(f: Failure, g: Failure) {
    && f.time <= g.time && g.windowStart <= g.time
    && (f.count >= MAX_FAILURES ==> g.time >= f.time + LOCKOUT)
    && (|| (g.count == f.count + 1 && g.windowStart == f.windowStart && g.time < g.windowStart + WINDOW)
        || Restarts(f, g))
  }

  predicate Restarts(f: Failure, g: Failure) {
    g.count == 1 && g.windowStart >= f.windowStart + WINDOW && g.windowStart >= f.time
  }

  predicate FollowsAt(log: seq<Failure>, i: nat)
    requires i + 1 < |log|
  {
    Follows(log[i], log[i + 1])
  }

  ghost predicate History(log: seq<Failure>) {
    && (log != [] ==> log[0].count == 1 && log[0].windowStart <= log[0].time < log[0].windowStart + WINDOW)
    && (forall i: nat :: i + 1 < |log| ==> FollowsAt(log, i))
  }

  /** A failure numbered `n` comes at least `n - 5` lockouts after its window started. */
  lemma {:induction false} CountTakesTime(log: seq<Failure>, i: nat)
    requires History(log) && i < |log|
    ensures log[i].windowStart <= log[i].time
    ensures log[i].time < log[i].windowStart + WINDOW || log[i].count == 1
    ensures log[i].time >= log[i].windowStart + LOCKOUT * (log[i].count - MAX_FAILURES)
  {
    if i > 0 {
      CountTakesTime(log, i - 1);
      assert FollowsAt(log, i - 1);
    }
  }

  /** A counting window without a success holds at most 5 + 14 failures. */
  lemma CountIsBounded(log: seq<Failure>, i: nat)
    requires History(log) && i < |log|
    ensures log[i].count <= MAX_FAILURES + WINDOW / LOCKOUT - 1
  {
    CountTakesTime(log, i);
  }

  /** What a stretch of failures inside one window takes. */
  predicate SameWindow(log: seq<Failure>, i: nat, j: nat)
    requires i <= j < |log|
  {
    && log[j].windowStart == log[i].windowStart && log[j].count == log[i].count + (j - i)
    && log[j].time - log[i].time >= LOCKOUT * Max(log[j].count - Max(log[i].count, MAX_FAILURES), 0)
  }

  /** A stretch that crosses into a second window at position `m`. */
  predicate Crosses(log: seq<Failure>, i: nat, m: nat, j: nat) {
    i < m <= j < |log| && SameWindow(log, i, m - 1) && Restarts(log[m - 1], log[m]) && SameWindow(log, m, j)
  }

  lemma {:induction false} TimeRises(log: seq<Failure>, i: nat, j: nat)
    requires History(log) && i <= j < |log|
    ensures log[i].time <= log[j].time
  {
    if i < j {
      TimeRises(log, i, j - 1);
      assert FollowsAt(log, j - 1);
    }
  }

  lemma SameWindowExtends(log: seq<Failure>, i: nat, j: nat)
    requires History(log) && i < j < |log| && SameWindow(log, i, j - 1) && !Restarts(log[j - 1], log[j])
    ensures SameWindow(log, i, j)
  {
    assert FollowsAt(log, j - 1);
  }

  /** Two restarts are a whole window apart. */
  lemma TwoRestarts(log: seq<Failure>, i: nat, m: nat, j: nat)
    requires History(log) && i < j < |log| && Restarts(log[j - 1], log[j]) && log[j].windowStart <= log[j].time
    requires log[j].time < log[i].time + WINDOW
    ensures !Crosses(log, i, m, j - 1)
  {
    if i < m < |log| {
      TimeRises(log, i, m - 1);
    }
  }

  /** A stretch of failures shorter than one window meets at most two counting windows. */
  lemma {:induction false} AtMostTwoWindows(log: seq<Failure>, i: nat, j: nat) returns (m: nat)
    requires History(log) && i <= j < |log| && log[j].time < log[i].time + WINDOW
    ensures SameWindow(log, i, j) || Crosses(log, i, m, j)
  {
    m := j;
    if i < j {
      assert FollowsAt(log, j - 1);
      TimeRises(log, j - 1, j);
      m := AtMostTwoWindows(log, i, j - 1);
      if Restarts(log[j - 1], log[j]) {
        TwoRestarts(log, i, m, j);
        m := j;
      } else if SameWindow(log, i, j - 1) {
        SameWindowExtends(log, i, j);
      } else {
        SameWindowExtends(log, m, j);
      }
    }
  }

  /** Any 15 minutes without a success hold at most 23 failures of one key. */
  lemma SlidingBound(log: seq<Failure>, i: nat, j: nat)
    requires History(log) && i <= j < |log| && log[j].time < log[i].time + WINDOW
    ensures j - i + 1 <= 23
  {
    var m := AtMostTwoWindows(log, i, j);
    CountTakesTime(log, i);
    CountIsPositive(log, i);
    if !SameWindow(log, i, j) {
      assert FollowsAt(log, m - 1);
    }
  }

  lemma CountIsPositive(log: seq<Failure>, i: nat)
    requires History(log) && i < |log|
    ensures log[i].count >= 1
  {
    if i > 0 { assert FollowsAt(log, i - 1); }
  }

  // ---------------------------------------------------------------- attempts over time

  /** A login attempt: admitted for a key until it releases, with at most one result recorded. */
  datatype Attempt = Idle | Admitted(key: Key, recorded: bool)

  /** History, for every key: `log` has the failures recorded since its last success, and `seen` the time
      of its last admission or failure. */
  datatype System = System(entries: Entries, clock: int, attempts: seq<Attempt>, log: map<Key, seq<Failure>>, seen: map<Key, int>)

  datatype Event =
    | BeginAttempt(t: nat, key: Key, now: int)
    | RecordFailure(t: nat, now: int)
    | RecordSuccess(t: nat)
    | ReleaseAttempt(t: nat)
    | Sweep(now: int)

  function Log(s: System, key: Key): seq<Failure> {
    if key in s.log then s.log[key] else []
  }

  function Logged(s: System, key: Key, now: int): map<Key, seq<Failure>> {
    if key !in s.entries then s.log
    else
      var e := FailedEntry(s.entries[key], now);
      s.log[key := Log(s, key) + [Failure(now, e.failures, e.windowStart)]]
  }

  /** Sections run in the order of the times their callers read; an attempt records at most one result and
      releases once. */
  ghost predicate Step(s: System, ev: Event, s': System) {
    match ev
    case BeginAttempt(t, key, now) =>
      && t < |s.attempts| && s.attempts[t] == Idle && s.clock <= now
      && var (entries, wait) := Begin(s.entries, key, now);
         s' == System(entries, now, if wait == 0 then s.attempts[t := Admitted(key, false)] else s.attempts, s.log,
                      if wait == 0 then s.seen[key := now] else s.seen)
    case RecordFailure(t, now) =>
      && t < |s.attempts| && s.attempts[t].Admitted? && !s.attempts[t].recorded && s.clock <= now
      && var key := s.attempts[t].key;
         s' == System(Fail(s.entries, key, now), now, s.attempts[t := Admitted(key, true)], Logged(s, key, now),
                      s.seen[key := now])
    case RecordSuccess(t) =>
      && t < |s.attempts| && s.attempts[t].Admitted? && !s.attempts[t].recorded
      && var key := s.attempts[t].key;
         s' == System(Succeed(s.entries, key), s.clock, s.attempts[t := Admitted(key, true)], s.log[key := []], s.seen)
    case ReleaseAttempt(t) =>
      && t < |s.attempts| && s.attempts[t].Admitted?
      && s' == System(Release(s.entries, s.attempts[t].key), s.clock, s.attempts[t := Idle], s.log, s.seen)
    case Sweep(now) => s.clock <= now && s' == s.(entries := Prune(s.entries, now), clock := now)
  }

  ghost predicate Initial(s: System) {
    s.entries == map[] && s.log == map[] && forall t :: 0 <= t < |s.attempts| ==> s.attempts[t] == Idle
  }

  /** An entry and the failures it stands for. */
  predicate EntryOk(e: Entry, log: seq<Failure>, clock: int) {
    && e.windowStart <= clock && e.lastSeen <= clock
    && if e.failures == 0 then
         e.lockedUntil.None? && (log != [] ==> log[|log| - 1].time + WINDOW <= e.windowStart)
       else
         && log != []
         && var last := log[|log| - 1];
            && last.count == e.failures && last.windowStart == e.windowStart && last.time <= e.lastSeen
            && (e.failures >= MAX_FAILURES ==> e.lockedUntil == Some(last.time + LOCKOUT))
            && (e.failures < MAX_FAILURES && e.lockedUntil.Some? ==> e.lockedUntil.value <= last.time)
  }

  ghost predicate KeyOk(s: System, key: Key) {
    var log := Log(s, key);
    && History(log)
    && (key in s.entries ==>
          && key in s.seen && s.seen[key] == s.entries[key].lastSeen
          && (s.entries[key].inFlight || s.entries[key].failures > 0))
    && if key in s.entries then EntryOk(s.entries[key], log, s.clock)
       else log != [] ==> log[|log| - 1].time + WINDOW <= s.clock
  }

  predicate AttemptOk(s: System, t: nat)
    requires t < |s.attempts|
  {
    s.attempts[t].Admitted? ==>
      var key := s.attempts[t].key;
      && key in s.entries && s.entries[key].inFlight
      && (!s.attempts[t].recorded ==> !Locked(s.entries[key], s.clock))
  }

  predicate Owns(s: System, t: nat, key: Key) {
    t < |s.attempts| && s.attempts[t].Admitted? && s.attempts[t].key == key
  }

  ghost predicate Reserved(s: System, key: Key) {
    key in s.entries && s.entries[key].inFlight ==> exists t: nat :: Owns(s, t, key)
  }

  predicate PairOk(s: System, t: nat, u: nat)
    requires t < |s.attempts| && u < |s.attempts|
  {
    s.attempts[t].Admitted? && s.attempts[u].Admitted? && t != u ==> s.attempts[t].key != s.attempts[u].key
  }

  ghost predicate Inv(s: System) {
    && Capped(s.entries)
    && (forall key :: KeyOk(s, key))
    && (forall key :: Reserved(s, key))
    && (forall t: nat :: t < |s.attempts| ==> AttemptOk(s, t))
    && (forall t: nat, u: nat :: t < |s.attempts| && u < |s.attempts| ==> PairOk(s, t, u))
  }

  // ---------------------------------------------------------------- steps

  /** A key the step did not touch, or whose idle entry it pruned. */
  predicate Untouched(s: System, s': System, key: Key) {
    && s.clock <= s'.clock && Log(s', key) == Log(s, key)
    && (key in s.seen ==> key in s'.seen && s'.seen[key] == s.seen[key])
    && (key in s'.entries ==> key in s.entries && s'.entries[key] == s.entries[key])
    && (key in s.entries && key !in s'.entries ==> Stale(s.entries[key], s'.clock))
  }

  lemma KeyLater(s: System, s': System, key: Key)
    requires Inv(s) && Untouched(s, s', key)
    ensures KeyOk(s', key)
  {
    assert KeyOk(s, key);
    var log := Log(s, key);
    if log != [] {
      CountTakesTime(log, |log| - 1);
    }
  }

  lemma AttemptLater(s: System, s': System, t: nat)
    requires Inv(s) && t < |s.attempts| && t < |s'.attempts| && s'.attempts[t] == s.attempts[t]
    requires s.attempts[t].Admitted? ==> Untouched(s, s', s.attempts[t].key)
    ensures AttemptOk(s', t)
  {
    assert AttemptOk(s, t);
  }

  /** A step that touched one key at most, on behalf of attempt `t`. */
  lemma OneKeyStep(s: System, t: nat, key: Key, s': System)
    requires Inv(s) && t < |s.attempts| && |s'.attempts| == |s.attempts|
    requires s'.attempts == s.attempts[t := s'.attempts[t]]
    requires Capped(s'.entries) && KeyOk(s', key) && AttemptOk(s', t)
    requires forall k :: k != key ==> Untouched(s, s', k)
    requires forall u: nat :: u != t ==> !Owns(s, u, key)
    requires s.attempts[t].Admitted? ==> s.attempts[t].key == key
    requires s'.attempts[t].Admitted? ==> s'.attempts[t].key == key
    requires key in s'.entries && s'.entries[key].inFlight ==> Owns(s', t, key)
    ensures Inv(s')
  {
    forall k ensures KeyOk(s', k) && Reserved(s', k) {
      if k != key {
        KeyLater(s, s', k);
        assert Reserved(s, k);
        if k in s'.entries && s'.entries[k].inFlight {
          var u: nat :| Owns(s, u, k);
          assert Owns(s', u, k);
        }
      }
    }
    forall u: nat | u < |s'.attempts| ensures AttemptOk(s', u) {
      if u != t {
        assert !Owns(s, u, key);
        AttemptLater(s, s', u);
      }
    }
    forall u: nat, v: nat | u < |s'.attempts| && v < |s'.attempts| ensures PairOk(s', u, v) {
      assert PairOk(s, u, v);
      if u != t { assert !Owns(s, u, key); }
      if v != t { assert !Owns(s, v, key); }
    }
  }

  lemma SweepStep(s: System, now: int, s': System)
    requires Inv(s) && Step(s, Sweep(now), s')
    ensures Inv(s')
  {
    FewerStayCapped(s'.entries, s.entries);
    forall k ensures KeyOk(s', k) && Reserved(s', k) {
      KeyLater(s, s', k);
      assert Reserved(s, k);
      if k in s'.entries && s'.entries[k].inFlight {
        var u: nat :| Owns(s, u, k);
        assert Owns(s', u, k);
      }
    }
    forall u: nat | u < |s'.attempts| ensures AttemptOk(s', u) { assert AttemptOk(s, u); AttemptLater(s, s', u); }
    forall u: nat, v: nat | u < |s'.attempts| && v < |s'.attempts| ensures PairOk(s', u, v) { assert PairOk(s, u, v); }
  }

  /** Nobody else holds the reservation of an attempt's key. */
  lemma OnlyOwner(s: System, t: nat, u: nat, key: Key)
    requires Inv(s) && Owns(s, t, key) && u != t
    ensures !Owns(s, u, key)
  {
    if u < |s.attempts| { assert PairOk(s, t, u); }
  }

  lemma NobodyOwns(s: System, u: nat, key: Key)
    requires Inv(s) && !(key in s.entries && s.entries[key].inFlight)
    ensures !Owns(s, u, key)
  {
    if u < |s.attempts| { assert AttemptOk(s, u); }
  }

  lemma BegunEntry(s: System, key: Key, now: int)
    requires Inv(s) && s.clock <= now && Begin(s.entries, key, now).1 == 0
    ensures var entries := Begin(s.entries, key, now).0;
            key in entries && entries[key].inFlight && !Locked(entries[key], now) && EntryOk(entries[key], Log(s, key), now)
    ensures !(key in s.entries && s.entries[key].inFlight)
  {
    assert KeyOk(s, key);
  }

  lemma BeginStep(s: System, t: nat, key: Key, now: int, s': System)
    requires Inv(s) && Step(s, BeginAttempt(t, key, now), s')
    ensures Inv(s')
  {
    BeginKeepsCaps(s.entries, key, now);
    if Begin(s.entries, key, now).1 == 0 {
      BegunEntry(s, key, now);
      assert KeyOk(s, key);
      forall u: nat | u != t ensures !Owns(s, u, key) { NobodyOwns(s, u, key); }
      OneKeyStep(s, t, key, s');
    } else {
      RefusedStep(s, key, now, s');
    }
  }

  lemma RefusedStep(s: System, key: Key, now: int, s': System)
    requires Inv(s) && s.clock <= now && Begin(s.entries, key, now).1 != 0
    requires s' == s.(entries := Begin(s.entries, key, now).0, clock := now)
    ensures Inv(s')
  {
    if s'.entries == s.entries {
      ClockStep(s, s');
    } else {
      SweepStep(s, now, s');
    }
  }

  lemma ClockStep(s: System, s': System)
    requires Inv(s) && s.clock <= s'.clock && s' == s.(clock := s'.clock)
    ensures Inv(s')
  {
    forall k ensures KeyOk(s', k) && Reserved(s', k) {
      KeyLater(s, s', k);
      assert Reserved(s, k);
      if k in s'.entries && s'.entries[k].inFlight {
        var u: nat :| Owns(s, u, k);
        assert Owns(s', u, k);
      }
    }
    forall u: nat | u < |s'.attempts| ensures AttemptOk(s', u) { assert AttemptOk(s, u); AttemptLater(s, s', u); }
    forall u: nat, v: nat | u < |s'.attempts| && v < |s'.attempts| ensures PairOk(s', u, v) { assert PairOk(s, u, v); }
  }

  lemma HistoryGrows(log: seq<Failure>, g: Failure)
    requires History(log)
    requires if log == [] then g.count == 1 && g.windowStart <= g.time < g.windowStart + WINDOW
             else Follows(log[|log| - 1], g)
    ensures History(log + [g])
  {
    forall i: nat | i + 1 < |log + [g]| ensures FollowsAt(log + [g], i) {
      if i + 1 < |log| { assert FollowsAt(log, i); }
    }
  }

  /** The failure an unlocked entry records follows its history. */
  lemma FailureFollows(e: Entry, log: seq<Failure>, clock: int, now: int)
    requires History(log) && EntryOk(e, log, clock) && clock <= now && !Locked(e, clock)
    ensures var e' := FailedEntry(e, now);
            var log' := log + [Failure(now, e'.failures, e'.windowStart)];
            History(log') && EntryOk(e', log', now)
  {
    var e' := FailedEntry(e, now);
    if log != [] {
      CountTakesTime(log, |log| - 1);
    }
    HistoryGrows(log, Failure(now, e'.failures, e'.windowStart));
  }

  lemma UpdateKeepsCaps(entries: Entries, key: Key, e: Entry)
    requires Capped(entries) && key in entries
    ensures Capped(entries[key := e])
  {
    FewerStayCapped(entries[key := e], entries);
  }

  lemma FailureStep(s: System, t: nat, now: int, s': System)
    requires Inv(s) && Step(s, RecordFailure(t, now), s')
    ensures Inv(s')
  {
    var key := s.attempts[t].key;
    assert AttemptOk(s, t) && KeyOk(s, key);
    FailureFollows(s.entries[key], Log(s, key), s.clock, now);
    UpdateKeepsCaps(s.entries, key, FailedEntry(s.entries[key], now));
    forall u: nat | u != t ensures !Owns(s, u, key) { OnlyOwner(s, t, u, key); }
    OneKeyStep(s, t, key, s');
  }

  lemma SuccessStep(s: System, t: nat, s': System)
    requires Inv(s) && Step(s, RecordSuccess(t), s')
    ensures Inv(s')
  {
    var key := s.attempts[t].key;
    assert AttemptOk(s, t) && KeyOk(s, key);
    FewerStayCapped(s'.entries, s.entries);
    forall u: nat | u != t ensures !Owns(s, u, key) { OnlyOwner(s, t, u, key); }
    OneKeyStep(s, t, key, s');
  }

  lemma ReleaseStep(s: System, t: nat, s': System)
    requires Inv(s) && Step(s, ReleaseAttempt(t), s')
    ensures Inv(s')
  {
    var key := s.attempts[t].key;
    assert AttemptOk(s, t) && KeyOk(s, key);
    FewerStayCapped(s'.entries, s.entries);
    forall u: nat | u != t ensures !Owns(s, u, key) { OnlyOwner(s, t, u, key); }
    OneKeyStep(s, t, key, s');
  }

  lemma StepKeepsInv(s: System, ev: Event, s': System)
    requires Inv(s) && Step(s, ev, s')
    ensures Inv(s')
  {
    match ev
    case BeginAttempt(t, key, now) => BeginStep(s, t, key, now, s');
    case RecordFailure(t, now) => FailureStep(s, t, now, s');
    case RecordSuccess(t) => SuccessStep(s, t, s');
    case ReleaseAttempt(t) => ReleaseStep(s, t, s');
    case Sweep(now) => SweepStep(s, now, s');
  }

  // ---------------------------------------------------------------- every run

  ghost predicate StepAt(states: seq<System>, events: seq<Event>, i: nat)
    requires i < |events| < |states|
  {
    Step(states[i], events[i], states[i + 1])
  }

  ghost predicate IsRun(states: seq<System>, events: seq<Event>) {
    && |states| == |events| + 1
    && Initial(states[0])
    && forall i :: 0 <= i < |events| ==> StepAt(states, events, i)
  }

  lemma InitialInv(s: System)
    requires Initial(s)
    ensures Inv(s)
  {
    forall c ensures ClientCapped(s.entries, c) {
      assert ClientKeys(s.entries, c) == {};
    }
  }

  lemma {:induction false} RunKeepsInv(states: seq<System>, events: seq<Event>, n: nat)
    requires IsRun(states, events) && n < |states|
    ensures Inv(states[n])
  {
    if n == 0 {
      InitialInv(states[0]);
    } else {
      RunKeepsInv(states, events, n - 1);
      assert StepAt(states, events, n - 1);
      StepKeepsInv(states[n - 1], events[n - 1], states[n]);
    }
  }

  /** The caps hold in every run. */
  lemma CapsHold(states: seq<System>, events: seq<Event>, n: nat, c: Client)
    requires IsRun(states, events) && n < |states|
    ensures |states[n].entries| <= 4096 && ClientCount(states[n].entries, c) <= 64
  {
    RunKeepsInv(states, events, n);
    assert ClientCapped(states[n].entries, c);
  }

  /** At most one attempt per key is in flight, and an entry is reserved exactly while one is. */
  lemma OneAttemptPerKey(states: seq<System>, events: seq<Event>, n: nat, key: Key)
    requires IsRun(states, events) && n < |states|
    ensures forall t: nat, u: nat :: Owns(states[n], t, key) && Owns(states[n], u, key) ==> t == u
    ensures key in states[n].entries && states[n].entries[key].inFlight <==> exists t: nat :: Owns(states[n], t, key)
  {
    RunKeepsInv(states, events, n);
    var s := states[n];
    assert Reserved(s, key);
    forall t: nat, u: nat | Owns(s, t, key) && Owns(s, u, key) ensures t == u { assert PairOk(s, t, u); }
    forall t: nat | Owns(s, t, key) ensures key in s.entries && s.entries[key].inFlight { assert AttemptOk(s, t); }
  }

  /** A success-free counting window records at most 5 + 14 failures of a key. */
  lemma FailuresPerWindow(states: seq<System>, events: seq<Event>, n: nat, key: Key)
    requires IsRun(states, events) && n < |states| && key in states[n].entries
    ensures states[n].entries[key].failures <= 19
  {
    RunKeepsInv(states, events, n);
    assert KeyOk(states[n], key);
    var log := Log(states[n], key);
    if log != [] {
      CountIsBounded(log, |log| - 1);
    }
  }

  /** Whatever 15 minutes one looks at, they hold at most 23 failures of a key without a success, even
      across the end of a counting window, a sweep, or a new entry. */
  lemma FailuresInAnyQuarterHour(states: seq<System>, events: seq<Event>, n: nat, key: Key, i: nat, j: nat)
    requires IsRun(states, events) && n < |states|
    requires i <= j < |Log(states[n], key)| && Log(states[n], key)[j].time < Log(states[n], key)[i].time + WINDOW
    ensures j - i + 1 <= 23
  {
    RunKeepsInv(states, events, n);
    assert KeyOk(states[n], key);
    SlidingBound(Log(states[n], key), i, j);
  }

  // ---------------------------------------------------------------- who is admitted

  /** The last failure without a success since was at least the fifth of its window, less than a minute ago. */
  predicate LockedOut(log: seq<Failure>, now: int) {
    log != [] && log[|log| - 1].count >= 5 && now < log[|log| - 1].time + 60
  }

  lemma LockedIsLockedOut(s: System, key: Key, now: int)
    requires KeyOk(s, key) && s.clock <= now
    ensures LockedOut(Log(s, key), now) <==> key in s.entries && Locked(s.entries[key], now)
    ensures LockedOut(Log(s, key), now) ==> s.entries[key].lockedUntil == Some(Log(s, key)[|Log(s, key)| - 1].time + 60)
  {
  }

  /** A key is locked exactly while the last of its failures, if there was no success since, was at least
      the fifth of its counting window and less than a minute ago. */
  lemma LockedExactlyAfterFiveFailures(states: seq<System>, events: seq<Event>, n: nat, key: Key, now: int)
    requires IsRun(states, events) && n < |states| && states[n].clock <= now
    ensures var log := Log(states[n], key);
            key in states[n].entries && Locked(states[n].entries[key], now)
            <==> log != [] && log[|log| - 1].count >= 5 && now < log[|log| - 1].time + 60
  {
    RunKeepsInv(states, events, n);
    assert KeyOk(states[n], key);
    LockedIsLockedOut(states[n], key, now);
  }

  /** A failure is counted on within 15 minutes of the start of its window, and starts a new one after. */
  lemma FailuresAreCounted(states: seq<System>, events: seq<Event>, n: nat, key: Key, i: nat)
    requires IsRun(states, events) && n < |states| && i < |Log(states[n], key)|
    ensures var log := Log(states[n], key);
            log[i].count == if i > 0 && log[i].time < log[i - 1].windowStart + 900 then log[i - 1].count + 1 else 1
  {
    RunKeepsInv(states, events, n);
    assert KeyOk(states[n], key);
    var log := Log(states[n], key);
    if i > 0 { assert FollowsAt(log, i - 1); }
  }

  /** An entry nobody needs: no attempt under way, not locked, and not seen for 15 minutes. */
  ghost predicate Forgotten(s: System, key: Key, now: int) {
    && key in s.entries && key in s.seen && now - s.seen[key] >= 900
    && !LockedOut(Log(s, key), now) && forall t: nat :: !Owns(s, t, key)
  }

  /** The entries that have to be kept. */
  ghost function Needed(s: System, now: int): set<Key> {
    set k | k in s.entries && !Forgotten(s, k, now)
  }

  ghost predicate HasRoom(s: System, c: Client, now: int) {
    |Needed(s, now)| < 4096 && |set k | k in Needed(s, now) && k.client == c| < 64
  }

  lemma ForgottenIsStale(s: System, key: Key, now: int)
    requires Inv(s) && s.clock <= now && key in s.entries
    ensures Forgotten(s, key, now) <==> Stale(s.entries[key], now)
  {
    assert KeyOk(s, key) && Reserved(s, key);
    LockedIsLockedOut(s, key, now);
    InFlightIsOwned(s, key);
  }

  lemma InFlightIsOwned(s: System, key: Key)
    requires Inv(s)
    ensures key in s.entries && s.entries[key].inFlight <==> exists t: nat :: Owns(s, t, key)
  {
    assert Reserved(s, key);
    forall t: nat | Owns(s, t, key) ensures key in s.entries && s.entries[key].inFlight { assert AttemptOk(s, t); }
  }

  /** A new key finds room exactly when the entries that have to be kept leave some. */
  lemma RoomIsExact(s: System, key: Key, now: int)
    requires Inv(s) && s.clock <= now && key !in s.entries
    ensures Begin(s.entries, key, now).1 == if HasRoom(s, key.client, now) then 0 else WINDOW
  {
    var kept := Prune(s.entries, now);
    forall k | k in s.entries ensures k in kept <==> k in Needed(s, now) { ForgottenIsStale(s, k, now); }
    assert kept.Keys == Needed(s, now) && |kept.Keys| == |kept|;
    assert ClientKeys(kept, key.client) == set k | k in Needed(s, now) && k.client == key.client;
    SubsetCount(kept, s.entries, key.client);
  }

  /** Admission, exactly: a locked key waits for the rest of its minute, a key with an attempt under way
      for a second, a new key that finds no room for a window, and everyone else not at all. */
  lemma AdmissionIsExact(states: seq<System>, events: seq<Event>, n: nat, key: Key, now: int)
    requires IsRun(states, events) && n < |states| && states[n].clock <= now
    ensures var s := states[n];
            var log := Log(s, key);
            Begin(s.entries, key, now).1
            == if LockedOut(log, now) then log[|log| - 1].time + 60 - now
               else if exists t: nat :: Owns(s, t, key) then 1
               else if key in s.entries || HasRoom(s, key.client, now) then 0
               else 900
  {
    var s := states[n];
    RunKeepsInv(states, events, n);
    assert KeyOk(s, key);
    LockedIsLockedOut(s, key, now);
    InFlightIsOwned(s, key);
    if key !in s.entries { RoomIsExact(s, key, now); }
  }

  /** Nothing is kept for a key that has neither an attempt under way nor a failure since its last success. */
  lemma NothingIsKeptForNothing(states: seq<System>, events: seq<Event>, n: nat, key: Key)
    requires IsRun(states, events) && n < |states| && key in states[n].entries
    ensures Log(states[n], key) != [] || exists t: nat :: Owns(states[n], t, key)
  {
    RunKeepsInv(states, events, n);
    assert KeyOk(states[n], key);
    InFlightIsOwned(states[n], key);
  }

  // ---------------------------------------------------------------- the throttle object

  predicate CountMatches(entries: Entries, clientEntries: map<Client, nat>, c: Client) {
    if c in clientEntries then clientEntries[c] == ClientCount(entries, c) > 0 else ClientCount(entries, c) == 0
  }

  class LoginThrottle {
    var entries: Entries
    var clientEntries: map<Client, nat>

    /** `clientEntries` counts the entries of every client, and holds no zero. */
    ghost predicate Valid()
      reads this
    {
      forall c :: CountMatches(entries, clientEntries, c)
    }

    constructor ()
      ensures Valid() && entries == map[]
    {
      entries, clientEntries := map[], map[];
      new;
      forall c ensures CountMatches(entries, clientEntries, c) {
        assert ClientKeys(entries, c) == {};
      }
    }

    function Counted(c: Client): nat
      reads this
    {
      if c in clientEntries then clientEntries[c] else 0
    }

    method BeginAttempt(key: Key, now: int) returns (wait: int)
      requires Valid()
      modifies this
      ensures Valid() && (entries, wait) == Begin(old(entries), key, now)
    {
      if key in entries {
        var e := entries[key];
        if e.lockedUntil.Some? && e.lockedUntil.value - now > 0 {
          return e.lockedUntil.value - now;
        }
        if e.inFlight {
          return CONCURRENT_RETRY;
        }
        SetEntry(key, e.(inFlight := true, lastSeen := now));
        return 0;
      }
      assert CountMatches(entries, clientEntries, key.client);
      if |entries| >= MAX_ENTRIES || Counted(key.client) >= MAX_PROFILES_PER_CLIENT {
        PruneLocked(now);
        assert CountMatches(entries, clientEntries, key.client);
        if |entries| >= MAX_ENTRIES || Counted(key.client) >= MAX_PROFILES_PER_CLIENT {
          return WINDOW;
        }
      }
      AddEntry(key, Entry(0, now, None, now, true));
      return 0;
    }

    method SetEntry(key: Key, e: Entry)
      requires Valid() && key in entries
      modifies this`entries
      ensures Valid() && entries == old(entries)[key := e]
    {
      ghost var was := entries;
      entries := entries[key := e];
      forall c ensures CountMatches(entries, clientEntries, c) {
        InsertCount(was, key, e, c);
        assert CountMatches(was, clientEntries, c);
      }
    }

    method AddEntry(key: Key, e: Entry)
      requires Valid() && key !in entries
      modifies this
      ensures Valid() && entries == old(entries)[key := e]
    {
      ghost var was, counts := entries, clientEntries;
      entries := entries[key := e];
      clientEntries := clientEntries[key.client := Counted(key.client) + 1];
      forall c ensures CountMatches(entries, clientEntries, c) {
        InsertCount(was, key, e, c);
        assert CountMatches(was, counts, c);
      }
    }

    method ReleaseAttempt(key: Key)
      requires Valid()
      modifies this
      ensures Valid() && entries == Release(old(entries), key)
    {
      if key !in entries {
        return;
      }
      var e := entries[key];
      if e.failures == 0 && e.lockedUntil.None? {
        DeleteEntryLocked(key);
      } else {
        SetEntry(key, e.(inFlight := false));
      }
    }

    method RecordFailure(key: Key, now: int)
      requires Valid()
      modifies this
      ensures Valid() && entries == Fail(old(entries), key, now)
    {
      if key !in entries {
        return;
      }
      var e := entries[key];
      if now - e.windowStart >= WINDOW {
        e := e.(failures := 0, windowStart := now);
      }
      e := e.(failures := e.failures + 1, lastSeen := now);
      if e.failures >= MAX_FAILURES {
        e := e.(lockedUntil := Some(now + LOCKOUT));
      }
      SetEntry(key, e);
    }

    method RecordSuccess(key: Key)
      requires Valid()
      modifies this
      ensures Valid() && entries == Succeed(old(entries), key)
    {
      if key in entries {
        SetEntry(key, entries[key].(failures := 0, lockedUntil := None));
      }
    }

    method PruneLocked(now: int)
      requires Valid()
      modifies this
      ensures Valid() && entries == Prune(old(entries), now)
    {
      ghost var was := entries;
      var todo := entries.Keys;
      while todo != {}
        invariant Valid() && todo <= entries.Keys <= was.Keys
        invariant forall k :: k in was ==> (k in entries <==> k in todo || !Stale(was[k], now))
        invariant forall k :: k in entries ==> entries[k] == was[k]
        decreases |todo|
      {
        var key :| key in todo;
        todo := todo - {key};
        var e := entries[key];
        if e.inFlight || (e.lockedUntil.Some? && now < e.lockedUntil.value) {
          continue;
        }
        if now - e.lastSeen >= WINDOW {
          DeleteEntryLocked(key);
        }
      }
    }

    method DeleteEntryLocked(key: Key)
      requires Valid()
      modifies this
      ensures Valid() && entries == old(entries) - {key}
    {
      if key !in entries {
        return;
      }
      ghost var was, counts := entries, clientEntries;
      assert CountMatches(was, counts, key.client);
      entries := entries - {key};
      if Counted(key.client) <= 1 {
        clientEntries := clientEntries - {key.client};
      } else {
        clientEntries := clientEntries[key.client := clientEntries[key.client] - 1];
      }
      forall c ensures CountMatches(entries, clientEntries, c) {
        DeleteCount(was, key, c);
        assert CountMatches(was, counts, c);
      }
    }
  }
}
