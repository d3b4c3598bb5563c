/** The progress coalescer of internal/api/progress_coalescer.go. */
module Coalescer {

  // Together with the table it saves into and the replacement that renumbers both.  `Staged` entries
  // carry the version of the staging operation that produced them.  The flusher saves outside the
  // mutex, so every step below may happen between any two of its steps.

  import opened ChapterRemaps
  import opened Wrappers

  datatype Key = Key(book: string, user: string)

  datatype Staged = Staged(pos: Position, version: nat)

  /** The mutex-protected state. */
  datatype State = State(pending: map<Key, Staged>, nextVersion: nat)

  function AfterStage(c: State, key: Key, pos: Position): State {
    State(c.pending[key := Staged(pos, c.nextVersion + 1)], c.nextVersion + 1)
  }

  function AfterDiscard(c: State, key: Key, version: nat): State {
    if key in c.pending && c.pending[key].version == version
    then c.(pending := c.pending - {key})
    else c
  }

  function AfterDrop(c: State, book: string): State {
    c.(pending := map k | k in c.pending && k.book != book :: c.pending[k])
  }

  /** What `remapBook` leaves: every entry of the book moved, each under a version of its own that
      is newer than any version handed out before. */
  ghost predicate IsRemapped(c: State, c': State, book: string, remap: ChapterRemap) {
    && c'.pending.Keys == c.pending.Keys
    && c'.nextVersion >= c.nextVersion
    && (forall k :: k in c.pending && k.book != book ==> c'.pending[k] == c.pending[k])
    && (forall k :: k in c.pending && k.book == book ==>
          && c'.pending[k].pos == Apply(remap, c.pending[k].pos)
          && c.nextVersion < c'.pending[k].version <= c'.nextVersion)
    && (forall k, l :: k in c.pending && l in c.pending && k.book == l.book == book && k != l ==>
          c'.pending[k].version != c'.pending[l].version)
  }

  // ---------------------------------------------------------------- the protocol

  /** The outcome of one save. */
  datatype Outcome = Stored | BookGone | Failed

  /** The flusher goroutine: idle, choosing the next entry of its batch snapshot, about to save one,
      or about to report a finished save. */
  datatype Flusher =
    | Sleeping
    | Choosing(batch: map<Key, Staged>)
    | Saving(batch: map<Key, Staged>, key: Key, entry: Staged)
    | Saved(batch: map<Key, Staged>, key: Key, entry: Staged, outcome: Outcome)

  /** `rows` is the progress table, `books` the book rows its foreign key refers to. */
  datatype System = System(c: State, rows: map<Key, Position>, books: set<string>, flusher: Flusher)

  datatype Event =
    | Put(key: Key, pos: Position)
    | BeginFlush
    | Choose(key: Key)
    | Save(outcome: Outcome)
    | Report
    | EndFlush
    | RemapRows(book: string, remap: ChapterRemap)
    | RemapPending(book: string, remap: ChapterRemap)
    | DeleteRows(book: string)
    | Drop(book: string)

  /** A save stores the row, or is refused by the foreign key exactly when the book row is gone, or
      fails without effect. */
  ghost predicate CanEnd(sys: System, outcome: Outcome)
    requires sys.flusher.Saving?
  {
    match outcome
    case Stored => sys.flusher.key.book in sys.books
    case BookGone => sys.flusher.key.book !in sys.books
    case Failed => true
  }

  function RemappedRows(rows: map<Key, Position>, book: string, remap: ChapterRemap): map<Key, Position> {
    map k | k in rows :: if k.book == book then Apply(remap, rows[k]) else rows[k]
  }

  function RowsOfOthers(rows: map<Key, Position>, book: string): map<Key, Position> {
    map k | k in rows && k.book != book :: rows[k]
  }

  /** One atomic step. */
  ghost predicate Next(s: System, ev: Event, s': System) {
    match ev
    case Put(key, pos) => s' == s.(c := AfterStage(s.c, key, pos))
    case BeginFlush =>
      s.flusher.Sleeping? && s' == s.(flusher := if s.c.pending == map[] then Sleeping else Choosing(s.c.pending))
    case Choose(key) =>
      && s.flusher.Choosing? && key in s.flusher.batch
      && s' == s.(flusher := Saving(s.flusher.batch - {key}, key, s.flusher.batch[key]))
    case Save(outcome) =>
      && s.flusher.Saving? && CanEnd(s, outcome)
      && s' == s.(rows := if outcome == Stored then s.rows[s.flusher.key := s.flusher.entry.pos] else s.rows,
                  flusher := Saved(s.flusher.batch, s.flusher.key, s.flusher.entry, outcome))
    case Report =>
      && s.flusher.Saved?
      && s' == s.(c := if s.flusher.outcome == Failed then s.c
                       else AfterDiscard(s.c, s.flusher.key, s.flusher.entry.version),
                  flusher := Choosing(s.flusher.batch))
    case EndFlush => s.flusher.Choosing? && s.flusher.batch == map[] && s' == s.(flusher := Sleeping)
    case RemapRows(book, remap) => s' == s.(rows := RemappedRows(s.rows, book, remap))
    case RemapPending(book, remap) => IsRemapped(s.c, s'.c, book, remap) && s' == s.(c := s'.c)
    case DeleteRows(book) => s' == s.(rows := RowsOfOthers(s.rows, book), books := s.books - {book})
    case Drop(book) => s' == s.(c := AfterDrop(s.c, book))
  }

  ghost predicate Initial(s: System) {
    s.c == State(map[], 0) && s.flusher == Sleeping
  }

  ghost predicate StepAt(states: seq<System>, events: seq<Event>, i: nat)
    requires i < |events| < |states|
  {
    Next(states[i], events[i], states[i + 1])
  }

  ghost predicate IsRun(states: seq<System>, events: seq<Event>) {
    && |states| == |events| + 1
    && Initial(states[0])
    && forall i :: 0 <= i < |events| ==> StepAt(states, events, i)
  }

  // ---------------------------------------------------------------- versions

  /** Every snapshot the flusher still holds. */
  ghost function Snapshots(f: Flusher): map<Key, Staged> {
    match f
    case Sleeping => map[]
    case Choosing(batch) => batch
    case Saving(batch, key, entry) => batch[key := entry]
    case Saved(batch, key, entry, _) => batch[key := entry]
  }

  /** A snapshot never has a newer version than the pending entry of its key, and equal versions
      mean the same staging operation. */
  ghost predicate VersionsOk(s: System) {
    && (forall k :: k in s.c.pending ==> s.c.pending[k].version <= s.c.nextVersion)
    && (forall k :: k in Snapshots(s.flusher) ==> Snapshots(s.flusher)[k].version <= s.c.nextVersion)
    && (forall k :: k in Snapshots(s.flusher) && k in s.c.pending ==>
          && Snapshots(s.flusher)[k].version <= s.c.pending[k].version
          && (Snapshots(s.flusher)[k].version == s.c.pending[k].version ==> Snapshots(s.flusher)[k] == s.c.pending[k]))
    && ((s.flusher.Saving? || s.flusher.Saved?) ==> s.flusher.key !in s.flusher.batch)
  }

  lemma NextKeepsVersions(s: System, ev: Event, s': System)
    requires VersionsOk(s) && Next(s, ev, s')
    ensures VersionsOk(s')
  {
    var a, b := Snapshots(s.flusher), Snapshots(s'.flusher);
    match ev
    case Put(key, pos) =>
    case BeginFlush =>
    case Choose(key) => assert b == a;
    case Save(outcome) => assert b == a;
    case Report =>
      forall k | k in b ensures k in a && b[k] == a[k] {
        assert k != s.flusher.key;
      }
    case EndFlush =>
    case RemapRows(book, remap) =>
    case RemapPending(book, remap) =>
      forall k | k in s'.c.pending ensures s'.c.pending[k].version <= s'.c.nextVersion {
        assert k in s.c.pending;
      }
    case DeleteRows(book) =>
    case Drop(book) =>
  }

  lemma {:induction false} RunKeepsVersions(states: seq<System>, events: seq<Event>, n: nat)
    requires IsRun(states, events) && n < |states|
    ensures VersionsOk(states[n])
  {
    if n > 0 {
      RunKeepsVersions(states, events, n - 1);
      assert StepAt(states, events, n - 1);
      NextKeepsVersions(states[n - 1], events[n - 1], states[n]);
    }
  }

  // ---------------------------------------------------------------- freshness

  /** What a reader is given for one key: the pending position, else the stored one. */
  ghost function Read(s: System, k: Key): Option<Position> {
    if k in s.c.pending then Some(s.c.pending[k].pos)
    else if k in s.rows then Some(s.rows[k])
    else None
  }

  /** What a reader should be given at `n`: what one was given at `a`, replaced by every position staged
      since, and moved along with its pending entry by `remapBook`. */
  ghost function LastStaged(states: seq<System>, events: seq<Event>, a: nat, n: nat, k: Key): Option<Position>
    requires a <= n <= |events| < |states|
  {
    if n == a then Read(states[a], k)
    else
      var before, s := LastStaged(states, events, a, n - 1, k), states[n - 1];
      match events[n - 1]
      case Put(key, pos) => if key == k then Some(pos) else before
      case RemapPending(book, remap) =>
        if book == k.book && k in s.c.pending && before.Some? then Some(Apply(remap, before.value)) else before
      case _ => before
  }

  /** The event neither deletes anything of the key's book nor finds it deleted. */
  ghost predicate Keeps(s: System, ev: Event, k: Key) {
    && (ev.DeleteRows? || ev.Drop? ==> ev.book != k.book)
    && (ev == Save(BookGone) ==> s.flusher.Saving? && s.flusher.key != k)
  }

  /** While the key's book is kept: a snapshot's key stays pending until its save is acknowledged,
      and a save about to be acknowledged is in the table. */
  ghost predicate Held(s: System, k: Key) {
    && (k in Snapshots(s.flusher) ==> k in s.c.pending)
    && (s.flusher.Saved? && s.flusher.key == k ==> s.flusher.outcome != BookGone)
  }

  /** The save being reported would acknowledge the pending entry of the key. */
  ghost predicate Acknowledging(s: System, k: Key) {
    s.flusher.Saved? && s.flusher.key == k && s.flusher.outcome == Stored
    && k in s.c.pending && s.c.pending[k].version == s.flusher.entry.version
  }

  lemma NextKeepsHeld(s: System, ev: Event, s': System, k: Key)
    requires VersionsOk(s) && Held(s, k) && Next(s, ev, s') && Keeps(s, ev, k)
    ensures Held(s', k)
  {
  }

  lemma NextKeepsFresh(s: System, ev: Event, s': System, k: Key)
    requires VersionsOk(s) && Held(s, k) && Next(s, ev, s') && Keeps(s, ev, k)
    requires ev.RemapRows? ==> ev.book != k.book
    requires Acknowledging(s, k) ==> k in s.rows && s.rows[k] == s.c.pending[k].pos
    ensures Acknowledging(s', k) ==> k in s'.rows && s'.rows[k] == s'.c.pending[k].pos
    ensures ev.RemapPending? && ev.book == k.book && k in s.c.pending ==> Read(s', k) == Some(Apply(ev.remap, Read(s, k).value))
    ensures ev.Put? && ev.key == k ==> Read(s', k) == Some(ev.pos)
    ensures !(ev.RemapPending? && ev.book == k.book && k in s.c.pending) && !(ev.Put? && ev.key == k) ==> Read(s', k) == Read(s, k)
  {
  }

  lemma {:induction false} RunKeepsHeld(states: seq<System>, events: seq<Event>, n: nat, k: Key)
    requires IsRun(states, events) && n < |states|
    requires forall i :: 0 <= i < n ==> Keeps(states[i], events[i], k)
    ensures Held(states[n], k)
  {
    if n > 0 {
      RunKeepsHeld(states, events, n - 1, k);
      RunKeepsVersions(states, events, n - 1);
      assert StepAt(states, events, n - 1);
      NextKeepsHeld(states[n - 1], events[n - 1], states[n], k);
    }
  }

  /** No replacement of the key's book is half done: the run begins here, or `remapBook` just ran. */
  ghost predicate Steady(events: seq<Event>, a: nat, k: Key)
    requires a <= |events|
  {
    a == 0 || (events[a - 1].RemapPending? && events[a - 1].book == k.book)
  }

  /** From `a` on no replacement commits rows of the key's book. */
  ghost predicate RowsStay(events: seq<Event>, a: nat, n: nat, k: Key)
    requires n <= |events|
  {
    forall i :: a <= i < n && events[i].RemapRows? ==> events[i].book != k.book
  }

  lemma SteadyStart(states: seq<System>, events: seq<Event>, a: nat, k: Key)
    requires IsRun(states, events) && a < |states| && Steady(events, a, k)
    ensures !Acknowledging(states[a], k)
  {
    if a > 0 {
      RunKeepsVersions(states, events, a - 1);
      assert StepAt(states, events, a - 1);
    }
  }

  /** Read-through freshness: at every step of every run in which the key's book is kept, from the
      beginning or from the end of any replacement until the next one commits its rows, a reader is
      given exactly the position last staged, also in the middle of a save, after failed saves, and when
      newer positions race the acknowledgement. */
  lemma {:induction false} ReadThroughIsFresh(states: seq<System>, events: seq<Event>, a: nat, n: nat, k: Key)
    requires IsRun(states, events) && a <= n < |states| && Steady(events, a, k)
    requires forall i :: 0 <= i < n ==> Keeps(states[i], events[i], k)
    requires RowsStay(events, a, n, k)
    ensures Read(states[n], k) == LastStaged(states, events, a, n, k)
    ensures var s := states[n]; Acknowledging(s, k) ==> k in s.rows && s.rows[k] == s.c.pending[k].pos
  {
    if n == a {
      SteadyStart(states, events, a, k);
    } else {
      var s := states[n - 1];
      ReadThroughIsFresh(states, events, a, n - 1, k);
      RunKeepsVersions(states, events, n - 1);
      RunKeepsHeld(states, events, n - 1, k);
      assert StepAt(states, events, n - 1);
      NextKeepsFresh(s, events[n - 1], states[n], k);
    }
  }

  // ---------------------------------------------------------------- reads in two looks

  /** The row of a key. */
  ghost function RowOf(s: System, k: Key): Option<Position> {
    if k in s.rows then Some(s.rows[k]) else None
  }

  /** What a handler is given that looks into the buffer at one step and, unless it finds the key there,
      reads the row at a later one. */
  ghost function TwoLooks(first: System, second: System, k: Key): Option<Position> {
    if k in first.c.pending then Some(first.c.pending[k].pos) else RowOf(second, k)
  }

  /** A read at one instant between `i` and `j` would have given `v`. */
  ghost predicate SeenSince(states: seq<System>, i: nat, j: nat, k: Key, v: Option<Position>)
    requires j < |states|
  {
    exists l :: i <= l <= j && Read(states[l], k) == v
  }

  lemma SeenLater(states: seq<System>, i: nat, j: nat, k: Key, v: Option<Position>)
    requires i <= j < |states| - 1 && SeenSince(states, i, j, k, v)
    ensures SeenSince(states, i, j + 1, k, v)
  {
    hide Read;
    var l :| i <= l <= j && Read(states[l], k) == v;
    assert i <= l <= j + 1 && Read(states[l], k) == v;
  }

  /** The rows of the key's book are neither moved nor deleted between `i` and `j`. */
  ghost predicate RowsKept(events: seq<Event>, i: nat, j: nat, k: Key)
    requires j <= |events|
  {
    RowsStay(events, i, j, k) && forall l :: i <= l < j && events[l].DeleteRows? ==> events[l].book != k.book
  }

  lemma NextRow(s: System, ev: Event, s': System, k: Key)
    requires Next(s, ev, s') && ((ev.RemapRows? || ev.DeleteRows?) ==> ev.book != k.book)
    ensures RowOf(s', k) == RowOf(s, k)
            || (k in Snapshots(s.flusher) && RowOf(s', k) == Some(Snapshots(s.flusher)[k].pos))
  {
  }

  lemma NextSnapshot(s: System, ev: Event, s': System, k: Key)
    requires VersionsOk(s) && Next(s, ev, s') && k in Snapshots(s'.flusher)
    ensures || (k in Snapshots(s.flusher) && Snapshots(s'.flusher)[k] == Snapshots(s.flusher)[k])
            || (k in s.c.pending && Snapshots(s'.flusher)[k] == s.c.pending[k])
  {
  }

  /** From a step on at which the key is not pending, its row, and any position the flusher is about to
      write to it, were what a read gave at some instant since. */
  lemma {:induction false} RowWasRead(states: seq<System>, events: seq<Event>, i: nat, j: nat, k: Key)
    requires IsRun(states, events) && i <= j < |states|
    requires k !in states[i].c.pending && Held(states[i], k) && RowsKept(events, i, j, k)
    ensures SeenSince(states, i, j, k, RowOf(states[j], k))
    ensures k in Snapshots(states[j].flusher) ==> SeenSince(states, i, j, k, Some(Snapshots(states[j].flusher)[k].pos))
  {
    if i == j {
      assert Read(states[i], k) == RowOf(states[i], k);
    } else {
      hide Next, SeenSince, RowOf, Snapshots;
      var s, s' := states[j - 1], states[j];
      assert StepAt(states, events, j - 1);
      RowWasRead(states, events, i, j - 1, k);
      NextRow(s, events[j - 1], s', k);
      if k in Snapshots(s.flusher) {
        SeenLater(states, i, j - 1, k, Some(Snapshots(s.flusher)[k].pos));
      }
      SeenLater(states, i, j - 1, k, RowOf(s, k));
      if k in Snapshots(s'.flusher) {
        RunKeepsVersions(states, events, j - 1);
        NextSnapshot(s, events[j - 1], s', k);
        if k in s.c.pending {
          SeenNow(states, i, j - 1, k);
          SeenLater(states, i, j - 1, k, Some(s.c.pending[k].pos));
        }
      }
    }
  }

  lemma SeenNow(states: seq<System>, i: nat, j: nat, k: Key)
    requires i <= j < |states| && k in states[j].c.pending
    ensures SeenSince(states, i, j, k, Some(states[j].c.pending[k].pos))
  {
    assert Read(states[j], k) == Some(states[j].c.pending[k].pos);
  }

  /** Looking into the buffer first and at the table later is as good as one look: whatever is staged,
      saved, acknowledged or dropped in between, the handler gets a position that a read at one instant
      between its two looks gives. */
  lemma TwoLooksAreOne(states: seq<System>, events: seq<Event>, i: nat, j: nat, k: Key) returns (l: nat)
    requires IsRun(states, events) && i <= j < |states| && RowsKept(events, i, j, k)
    requires forall n :: 0 <= n < i ==> Keeps(states[n], events[n], k)
    ensures i <= l <= j && Read(states[l], k) == TwoLooks(states[i], states[j], k)
  {
    if k in states[i].c.pending {
      l := i;
    } else {
      RunKeepsHeld(states, events, i, k);
      RowWasRead(states, events, i, j, k);
      l :| i <= l <= j && Read(states[l], k) == RowOf(states[j], k);
    }
  }

  /** One user's pending positions, or rows, by book. */
  ghost predicate IsListOf(m: map<string, Position>, user: string, at: System, pending: bool) {
    forall b :: (if b in m then Some(m[b]) else None)
                == if !pending then RowOf(at, Key(b, user))
                   else if Key(b, user) in at.c.pending then Some(at.c.pending[Key(b, user)].pos) else None
  }

  /** The book list: a snapshot of the buffer first, then the rows, and the snapshot laid over them.  Every
      book is given a position that a read at one instant in between gives. */
  lemma ListIsRead(states: seq<System>, events: seq<Event>, i: nat, j: nat, user: string, book: string,
                   staged: map<string, Position>, rows: map<string, Position>) returns (l: nat)
    requires IsRun(states, events) && i <= j < |states| && RowsKept(events, i, j, Key(book, user))
    requires forall n :: 0 <= n < i ==> Keeps(states[n], events[n], Key(book, user))
    requires IsListOf(staged, user, states[i], true) && IsListOf(rows, user, states[j], false)
    ensures i <= l <= j
    ensures Read(states[l], Key(book, user)) == if book in rows + staged then Some((rows + staged)[book]) else None
  {
    l := TwoLooksAreOne(states, events, i, j, Key(book, user));
  }

  // ---------------------------------------------------------------- the final drain

  /** An event of one flush in which every save is stored. */
  ghost predicate Draining(ev: Event) {
    ev.Choose? || ev == Save(Stored) || ev.Report?
  }

  lemma {:induction false} DrainInvariant(states: seq<System>, events: seq<Event>, m: nat, n: nat)
    requires IsRun(states, events) && m < n < |states|
    requires events[m] == BeginFlush && states[m].c.pending != map[]
    requires forall i :: m < i < n ==> Draining(events[i])
    ensures states[n].flusher != Sleeping
    ensures states[n].c.pending == Snapshots(states[n].flusher)
    ensures states[n].flusher.Saved? ==> states[n].flusher.outcome == Stored
  {
    RunKeepsVersions(states, events, n - 1);
    assert StepAt(states, events, n - 1);
    if n - 1 > m {
      DrainInvariant(states, events, m, n - 1);
      var f := states[n - 1].flusher;
      if events[n - 1].Choose? {
        assert Snapshots(states[n].flusher) == Snapshots(f);
      } else if events[n - 1].Report? {
        assert f.batch[f.key := f.entry] - {f.key} == f.batch;
      }
    }
  }

  /** The flush begun at `m` is over at `n`: nobody staged meanwhile, and every save was stored.  A flush
      of an empty buffer is over at once. */
  ghost predicate Drained(states: seq<System>, events: seq<Event>, m: nat, n: nat)
    requires n <= |events| < |states|
  {
    && m < n && events[m] == BeginFlush
    && if states[m].c.pending == map[] then n == m + 1
       else m + 1 < n && events[n - 1] == EndFlush && forall i :: m < i < n - 1 ==> Draining(events[i])
  }

  /** The drain of `stop`: a flush during which nobody stages and every save is stored leaves the buffer
      empty, and the table alone then answers every read, for a book that was replaced before, too. */
  lemma FinalDrainIsComplete(states: seq<System>, events: seq<Event>, a: nat, m: nat, n: nat, k: Key)
    requires IsRun(states, events) && a <= n <= |events| && Drained(states, events, m, n)
    requires forall i :: 0 <= i < n ==> Keeps(states[i], events[i], k)
    requires Steady(events, a, k) && RowsStay(events, a, n, k)
    ensures states[n].c.pending == map[]
    ensures (if k in states[n].rows then Some(states[n].rows[k]) else None) == LastStaged(states, events, a, n, k)
  {
    if states[m].c.pending != map[] {
      DrainInvariant(states, events, m, n - 1);
    }
    assert StepAt(states, events, n - 1);
    ReadThroughIsFresh(states, events, a, n, k);
  }

  // ---------------------------------------------------------------- drops and acknowledgements

  /** A dropped entry is never put back by a save that was in flight: it stays out until staged again. */
  lemma {:induction false} DroppedStaysOut(states: seq<System>, events: seq<Event>, m: nat, n: nat, k: Key)
    requires IsRun(states, events) && m < n < |states|
    requires events[m] == Drop(k.book)
    requires forall i, pos :: m < i < n ==> events[i] != Put(k, pos)
    ensures k !in states[n].c.pending
  {
    assert StepAt(states, events, n - 1);
    if n - 1 > m {
      DroppedStaysOut(states, events, m, n - 1, k);
      if events[n - 1].Put? {
        assert events[n - 1] != Put(k, events[n - 1].pos);
      }
    }
  }

  /** A save of exactly version `v` of the key was started and ended well between two points. */
  ghost predicate SavedVersion(states: seq<System>, events: seq<Event>, m: nat, n: nat, k: Key, v: nat)
    requires n <= |events| < |states|
  {
    exists j :: m < j < n && SavesVersion(states[j], events[j], k, v)
  }

  ghost predicate SavesVersion(s: System, ev: Event, k: Key, v: nat) {
    ev.Save? && ev.outcome != Failed && s.flusher.Saving? && s.flusher.key == k && s.flusher.entry.version == v
  }

  /** The event gives the key a pending entry of a new version. */
  ghost predicate Versions(s: System, ev: Event, k: Key) {
    (ev.Put? && ev.key == k) || (ev.RemapPending? && ev.book == k.book && k in s.c.pending)
  }

  /** The event replaces or drops the pending entry of the key. */
  ghost predicate Supersedes(ev: Event, k: Key) {
    (ev.Put? && ev.key == k) || ((ev.RemapPending? || ev.Drop?) && ev.book == k.book)
  }

  /** The flusher is about to acknowledge version `v`. */
  ghost predicate Reporting(f: Flusher, k: Key, v: nat) {
    f.Saved? && f.key == k && f.entry.version == v && f.outcome != Failed
  }

  /** The entry `e` given to the key is pending, or was saved. */
  ghost predicate Owed(s: System, k: Key, e: Staged, saved: bool) {
    && (k in s.c.pending ==> s.c.pending[k] == e)
    && (k !in s.c.pending || Reporting(s.flusher, k, e.version) ==> saved)
  }

  lemma VersionsOwes(s: System, ev: Event, s': System, k: Key)
    requires VersionsOk(s) && Next(s, ev, s') && Versions(s, ev, k)
    ensures k in s'.c.pending && Owed(s', k, s'.c.pending[k], false)
    ensures ev.Put? ==> s'.c.pending[k].pos == ev.pos
    ensures ev.RemapPending? ==> s'.c.pending[k].pos == Apply(ev.remap, s.c.pending[k].pos)
    ensures s'.c.pending[k].version > s.c.nextVersion && s'.flusher == s.flusher
  {
    assert s.flusher.Saved? ==> s.flusher.key in Snapshots(s.flusher);
  }

  lemma NextOwes(s: System, ev: Event, s': System, k: Key, e: Staged, saved: bool)
    requires Next(s, ev, s') && !Supersedes(ev, k) && Owed(s, k, e, saved)
    ensures Owed(s', k, e, saved || SavesVersion(s, ev, k, e.version))
  {
  }

  /** A staged, re-staged or remapped entry leaves the buffer only after a save of that very version,
      begun after it was staged: an older save still in flight never acknowledges it. */
  lemma {:induction false} OnlyItsOwnSaveAcknowledges(states: seq<System>, events: seq<Event>, m: nat, n: nat, k: Key)
    requires IsRun(states, events) && m < n <= |events|
    requires Versions(states[m], events[m], k)
    requires forall i :: m < i < n ==> !Supersedes(events[i], k)
    ensures k in states[m + 1].c.pending
    ensures var e := states[m + 1].c.pending[k];
            Owed(states[n], k, e, SavedVersion(states, events, m, n, k, e.version))
  {
    hide Next, Supersedes, Owed, SavesVersion, Versions, VersionsOk;
    RunKeepsVersions(states, events, m);
    assert StepAt(states, events, m);
    VersionsOwes(states[m], events[m], states[m + 1], k);
    var e := states[m + 1].c.pending[k];
    if n - 1 == m {
      OwedEither(states[n], k, e, SavedVersion(states, events, m, n, k, e.version));
    } else {
      OnlyItsOwnSaveAcknowledges(states, events, m, n - 1, k);
      assert StepAt(states, events, n - 1);
      NextOwes(states[n - 1], events[n - 1], states[n], k, e, SavedVersion(states, events, m, n - 1, k, e.version));
      OneMoreSave(states, events, m, n, k, e.version);
    }
  }

  lemma OwedEither(s: System, k: Key, e: Staged, saved: bool)
    requires Owed(s, k, e, false)
    ensures Owed(s, k, e, saved)
  {
  }

  lemma OneMoreSave(states: seq<System>, events: seq<Event>, m: nat, n: nat, k: Key, v: nat)
    requires m < n - 1 && n <= |events| < |states|
    ensures SavedVersion(states, events, m, n, k, v)
            <==> SavedVersion(states, events, m, n - 1, k, v) || SavesVersion(states[n - 1], events[n - 1], k, v)
  {
    hide SavesVersion;
  }

  /** A deleted book's rows are gone for good: a save still in flight finds no book to refer to. */
  lemma {:induction false} DeletedRowsStayGone(states: seq<System>, events: seq<Event>, m: nat, n: nat, k: Key)
    requires IsRun(states, events) && m < n < |states| && events[m] == DeleteRows(k.book)
    ensures k !in states[n].rows && k.book !in states[n].books
  {
    assert StepAt(states, events, n - 1);
    if n - 1 > m { DeletedRowsStayGone(states, events, m, n - 1, k); }
  }

  // ---------------------------------------------------------------- what is staged or moved reaches the table

  /** The entry `e` of the key is read, and is pending or stored: older saves, in flight or to come,
      neither acknowledge it nor overwrite its row afterwards. */
  ghost predicate Settling(s: System, k: Key, e: Staged) {
    && (k in s.c.pending ==> s.c.pending[k] == e)
    && (k !in s.c.pending ==> k !in Snapshots(s.flusher) && k in s.rows && s.rows[k] == e.pos)
    && (Reporting(s.flusher, k, e.version) ==> k in s.rows && s.rows[k] == e.pos)
  }

  lemma VersionsSettles(s: System, ev: Event, s': System, k: Key)
    requires VersionsOk(s) && Next(s, ev, s') && Versions(s, ev, k)
    ensures k in s'.c.pending && Settling(s', k, s'.c.pending[k])
  {
    VersionsOwes(s, ev, s', k);
  }

  lemma NextSettles(s: System, ev: Event, s': System, k: Key, e: Staged)
    requires VersionsOk(s) && Settling(s, k, e) && Next(s, ev, s') && Keeps(s, ev, k) && !Supersedes(ev, k)
    requires ev.RemapRows? ==> ev.book != k.book
    ensures Settling(s', k, e)
  {
  }

  /** Between `m` and `n` the key's book is neither deleted nor replaced, and the entry that event `m`
      gave to the key is not superseded. */
  ghost predicate Undisturbed(states: seq<System>, events: seq<Event>, m: nat, n: nat, k: Key) {
    && IsRun(states, events) && m < n <= |events| && Versions(states[m], events[m], k)
    && (forall i :: m < i < n ==> Keeps(states[i], events[i], k) && !Supersedes(events[i], k))
    && RowsStay(events, m + 1, n, k)
  }

  /** What event `m` gave to the key to hold: the staged position, or the image of the pending one. */
  ghost function Given(s: System, ev: Event, k: Key): Position
    requires Versions(s, ev, k)
  {
    if ev.Put? then ev.pos else Apply(ev.remap, s.c.pending[k].pos)
  }

  lemma {:induction false} RunSettles(states: seq<System>, events: seq<Event>, m: nat, n: nat, k: Key)
    requires Undisturbed(states, events, m, n, k)
    ensures k in states[m + 1].c.pending && states[m + 1].c.pending[k].pos == Given(states[m], events[m], k)
    ensures Settling(states[n], k, states[m + 1].c.pending[k])
  {
    hide Next, Settling, Keeps, Supersedes;
    RunKeepsVersions(states, events, n - 1);
    assert StepAt(states, events, n - 1);
    if n - 1 == m {
      VersionsOwes(states[m], events[m], states[n], k);
      VersionsSettles(states[m], events[m], states[n], k);
    } else {
      RunSettles(states, events, m, n - 1, k);
      NextSettles(states[n - 1], events[n - 1], states[n], k, states[m + 1].c.pending[k]);
    }
  }

  /** A staged or remapped position is what readers get from then on, whatever older save was in flight
      and whatever happened to the book before. */
  lemma VersionedIsRead(states: seq<System>, events: seq<Event>, m: nat, n: nat, k: Key)
    requires Undisturbed(states, events, m, n, k)
    ensures Read(states[n], k) == Some(Given(states[m], events[m], k))
  {
    RunSettles(states, events, m, n, k);
  }

  /** The event is a failed save of the key. */
  ghost predicate FailsKey(s: System, ev: Event, k: Key) {
    ev == Save(Failed) && s.flusher.Saving? && s.flusher.key == k
  }

  /** During a flush the entry is out of the buffer, or still ahead in the flusher's batch. */
  ghost predicate Ahead(s: System, k: Key) {
    && (k in s.c.pending ==> k in Snapshots(s.flusher) && Snapshots(s.flusher)[k] == s.c.pending[k])
    && (s.flusher.Saved? && s.flusher.key == k ==> s.flusher.outcome != Failed)
  }

  lemma NextAhead(s: System, ev: Event, s': System, k: Key)
    requires VersionsOk(s) && Ahead(s, k) && Next(s, ev, s')
    requires !Supersedes(ev, k) && !FailsKey(s, ev, k)
    ensures Ahead(s', k)
  {
  }

  /** From the beginning of a flush on, unless a save of the key fails. */
  lemma {:induction false} FlushAhead(states: seq<System>, events: seq<Event>, f: nat, n: nat, k: Key)
    requires IsRun(states, events) && f < n <= |events| && events[f] == BeginFlush
    requires forall i :: f < i < n ==> !Supersedes(events[i], k) && !FailsKey(states[i], events[i], k)
    ensures Ahead(states[n], k)
  {
    hide Next, Ahead, Supersedes, FailsKey;
    assert StepAt(states, events, n - 1);
    if n - 1 == f {
      BeginAhead(states[f], states[n], k);
    } else {
      FlushAhead(states, events, f, n - 1, k);
      RunKeepsVersions(states, events, n - 1);
      NextAhead(states[n - 1], events[n - 1], states[n], k);
    }
  }

  lemma BeginAhead(s: System, s': System, k: Key)
    requires Next(s, BeginFlush, s')
    ensures Ahead(s', k)
  {
  }

  /** The next flush that does not fail to save the key makes its position durable, whatever happens to
      other keys and books meanwhile, and it stays so until the key is staged, moved or dropped again. */
  lemma VersionedIsDurable(states: seq<System>, events: seq<Event>, m: nat, f: nat, e: nat, n: nat, k: Key)
    requires Undisturbed(states, events, m, n, k) && m < f < e < n
    requires events[f] == BeginFlush && events[e] == EndFlush
    requires forall i :: f < i < e ==> !FailsKey(states[i], events[i], k)
    ensures k !in states[n].c.pending && k in states[n].rows && states[n].rows[k] == Given(states[m], events[m], k)
  {
    FlushAhead(states, events, f, e, k);
    assert StepAt(states, events, e);
    StaysOut(states, events, m, e + 1, n, k);
    RunSettles(states, events, m, n, k);
  }

  lemma {:induction false} StaysOut(states: seq<System>, events: seq<Event>, m: nat, e: nat, n: nat, k: Key)
    requires Undisturbed(states, events, m, n, k) && m < e <= n && k !in states[e].c.pending
    ensures k !in states[n].c.pending
    decreases n - e
  {
    if e < n {
      assert StepAt(states, events, e);
      StaysOut(states, events, m, e + 1, n, k);
    }
  }

  /** `remapBook`: a position that was pending then is durable in the new numbering after the next flush
      that stores it, although an older save may still have written the old one. */
  lemma RemappedIsDurable(states: seq<System>, events: seq<Event>, m: nat, f: nat, e: nat, n: nat, k: Key, remap: ChapterRemap)
    requires IsRun(states, events) && m < f < e < n <= |events|
    requires events[m] == RemapPending(k.book, remap) && k in states[m].c.pending
    requires Undisturbed(states, events, m, n, k)
    requires events[f] == BeginFlush && events[e] == EndFlush
    requires forall i :: f < i < e ==> !FailsKey(states[i], events[i], k)
    ensures forall i :: m < i <= n ==> Read(states[i], k) == Some(Apply(remap, states[m].c.pending[k].pos))
    ensures k !in states[n].c.pending && k in states[n].rows
    ensures states[n].rows[k] == Apply(remap, states[m].c.pending[k].pos)
  {
    forall i | m < i <= n ensures Read(states[i], k) == Some(Apply(remap, states[m].c.pending[k].pos)) {
      VersionedIsRead(states, events, m, i, k);
    }
    VersionedIsDurable(states, events, m, f, e, n, k);
  }

  // ---------------------------------------------------------------- replacement against the flusher

  /** Some save of the key was stored strictly between two points. */
  ghost predicate StoredBetween(states: seq<System>, events: seq<Event>, m: nat, n: nat, k: Key)
    requires n <= |events| < |states|
  {
    exists j :: m < j < n && StoresKey(states[j], events[j], k)
  }

  ghost predicate StoresKey(s: System, ev: Event, k: Key) {
    ev == Save(Stored) && s.flusher.Saving? && s.flusher.key == k
  }

  /** From the commit of the replaced rows at `m` up to `remapBook`; `a` is the start of the run or the
      end of an earlier replacement of the book. */
  ghost predicate Window(states: seq<System>, events: seq<Event>, a: nat, m: nat, n: nat, k: Key, remap: ChapterRemap) {
    && IsRun(states, events) && a <= m < n <= |events|
    && events[m] == RemapRows(k.book, remap)
    && (forall i :: 0 <= i < n ==> Keeps(states[i], events[i], k))
    && Steady(events, a, k) && RowsStay(events, a, m, k) && RowsStay(events, m + 1, n, k)
    && (forall i :: m < i < n ==> !Supersedes(events[i], k))
    && Read(states[m], k).Some?
  }

  ghost predicate WindowInv(s: System, k: Key, p: Position, row: Position) {
    && Held(s, k)
    && (k in s.c.pending ==> s.c.pending[k].pos == p)
    && (k !in s.c.pending ==> k in s.rows && s.rows[k] == row)
    && (Acknowledging(s, k) ==> k in s.rows && s.rows[k] == row)
  }

  lemma NextKeepsWindow(s: System, ev: Event, s': System, k: Key, p: Position, row: Position)
    requires VersionsOk(s) && WindowInv(s, k, p, row) && Next(s, ev, s') && Keeps(s, ev, k)
    requires !Supersedes(ev, k) && (ev.RemapRows? ==> ev.book != k.book)
    ensures WindowInv(s', k, p, if StoresKey(s, ev, k) then p else row)
  {
    NextKeepsHeld(s, ev, s', k);
  }

  lemma {:induction false} WindowHolds(states: seq<System>, events: seq<Event>, a: nat, m: nat, n: nat, k: Key,
                                       remap: ChapterRemap)
    requires Window(states, events, a, m, n, k, remap)
    ensures var p := Read(states[m], k).value;
            WindowInv(states[n], k, p, if StoredBetween(states, events, m, n, k) then p else Apply(remap, p))
  {
    hide Next, Supersedes, Keeps, StoresKey;
    var p := Read(states[m], k).value;
    if n - 1 == m {
      WindowOpens(states, events, a, m, k, remap);
    } else {
      WindowHolds(states, events, a, m, n - 1, k, remap);
      RunKeepsVersions(states, events, n - 1);
      assert StepAt(states, events, n - 1);
      var row := if StoredBetween(states, events, m, n - 1, k) then p else Apply(remap, p);
      NextKeepsWindow(states[n - 1], events[n - 1], states[n], k, p, row);
      OneMoreStore(states, events, m, n, k);
    }
  }

  lemma WindowOpens(states: seq<System>, events: seq<Event>, a: nat, m: nat, k: Key, remap: ChapterRemap)
    requires Window(states, events, a, m, m + 1, k, remap)
    ensures var p := Read(states[m], k).value; WindowInv(states[m + 1], k, p, Apply(remap, p))
  {
    ReadThroughIsFresh(states, events, a, m, k);
    RunKeepsVersions(states, events, m);
    RunKeepsHeld(states, events, m, k);
    assert StepAt(states, events, m);
    NextKeepsHeld(states[m], events[m], states[m + 1], k);
  }

  lemma OneMoreStore(states: seq<System>, events: seq<Event>, m: nat, n: nat, k: Key)
    requires m < n - 1 && n <= |events| < |states|
    ensures StoredBetween(states, events, m, n, k)
            <==> StoredBetween(states, events, m, n - 1, k) || StoresKey(states[n - 1], events[n - 1], k)
  {
    hide StoresKey;
  }

  /** A replacement moves the rows first and the pending entries later.  A reader of the key gets the
      moved position afterwards if and only if the key is still pending when `remapBook` runs, or no
      save of it was stored in between (or the move leaves the position where it is). */
  lemma ReplacementMovesThePosition(states: seq<System>, events: seq<Event>, a: nat, m: nat, n: nat, k: Key,
                                    remap: ChapterRemap)
    requires Window(states, events, a, m, n, k, remap) && n < |events| && events[n] == RemapPending(k.book, remap)
    ensures var p := Read(states[m], k).value;
            Read(states[n + 1], k) == Some(Apply(remap, p))
            <==> k in states[n].c.pending || !StoredBetween(states, events, m, n, k) || Apply(remap, p) == p
  {
    WindowHolds(states, events, a, m, n, k, remap);
    assert StepAt(states, events, n);
  }

  const TO_FRONT := ChapterRemap([ChapterMove(0, false), ChapterMove(0, false)], 2)
  const SECOND := Position(1, 0.5, None)

  /** A flush of one position that a replacement of its book's rows runs into. */
  ghost function MissingStates(k: Key): seq<System> {
    var e := Staged(SECOND, 1);
    var start := System(State(map[], 0), map[], {k.book}, Sleeping);
    var staged := start.(c := State(map[k := e], 1));
    var saving := staged.(flusher := Saving(map[], k, e));
    var done := start.(c := State(map[], 1), rows := map[k := SECOND], flusher := Choosing(map[]));
    [ start,
      staged,
      staged.(flusher := Choosing(map[k := e])),
      saving,
      saving,
      staged.(rows := map[k := SECOND], flusher := Saved(map[], k, e, Stored)),
      done,
      done ]
  }

  ghost function MissingEvents(k: Key): seq<Event> {
    [ Put(k, SECOND), BeginFlush, Choose(k), RemapRows(k.book, TO_FRONT), Save(Stored), Report, RemapPending(k.book, TO_FRONT) ]
  }

  lemma MissingRun(k: Key)
    ensures IsRun(MissingStates(k), MissingEvents(k))
  {
    MissingStart(k);
    MissingEnd(k);
    hide StepAt;
  }

  lemma MissingStart(k: Key)
    ensures var states, events := MissingStates(k), MissingEvents(k);
            StepAt(states, events, 0) && StepAt(states, events, 1) && StepAt(states, events, 2)
  {
    assert map[k := Staged(SECOND, 1)] - {k} == map[];
  }

  lemma MissingEnd(k: Key)
    ensures var states, events := MissingStates(k), MissingEvents(k);
            StepAt(states, events, 3) && StepAt(states, events, 4) && StepAt(states, events, 5) && StepAt(states, events, 6)
  {
    assert map[k := Staged(SECOND, 1)] - {k} == map[];
  }

  /** The lost move, concretely: the flusher stores and acknowledges the old position between the two
      halves of the replacement. */
  lemma ReplacementCanMissAPosition(k: Key)
    ensures var states, events := MissingStates(k), MissingEvents(k);
            && Window(states, events, 0, 3, 6, k, TO_FRONT) && events[6] == RemapPending(k.book, TO_FRONT)
            && Read(states[7], k) == Read(states[3], k) == Some(SECOND) != Some(Apply(TO_FRONT, SECOND))
  {
    MissingRun(k);
  }

  /** Why the buffer comes first: in the same run, a handler that reads the table while the position is
      pending and the buffer after the acknowledgement finds nothing, though every read in between gives
      the position. */
  lemma TableFirstCanMissAPosition(k: Key)
    ensures var states, events := MissingStates(k), MissingEvents(k);
            && IsRun(states, events) && RowOf(states[2], k) == None && k !in states[6].c.pending
            && forall l :: 2 <= l <= 6 ==> Read(states[l], k) == Some(SECOND)
  {
    MissingRun(k);
  }

  // ---------------------------------------------------------------- the objects

  /** The progress table: an upsert guarded by the foreign key to the book row. */
  class ProgressTable {
    var rows: map<Key, Position>
    var books: set<string>

    /** `broken` stands for a failure of the database itself. */
    method Save(key: Key, pos: Position, broken: bool) returns (outcome: Outcome)
      modifies this`rows
      ensures outcome == if broken then Failed else if key.book in books then Stored else BookGone
      ensures rows == if outcome == Stored then old(rows)[key := pos] else old(rows)
    {
      if broken {
        return Failed;
      }
      if key.book !in books {
        return BookGone;
      }
      rows := rows[key := pos];
      return Stored;
    }
  }

  /** A flush that still has the keys `todo` before it has stored key `k`. */
  predicate Written(batch: map<Key, Staged>, todo: set<Key>, broken: set<Key>, books: set<string>, k: Key) {
    k in batch && k !in todo && k !in broken && k.book in books
  }

  /** `remapBook` with the keys `todo` still to be visited. */
  ghost predicate PartlyRemapped(was: State, c: State, todo: set<Key>, book: string, remap: ChapterRemap) {
    && todo <= was.pending.Keys == c.pending.Keys && c.nextVersion >= was.nextVersion
    && (forall k :: k in was.pending && (k in todo || k.book != book) ==> c.pending[k] == was.pending[k])
    && (forall k :: k in was.pending && k !in todo && k.book == book ==>
          && c.pending[k].pos == Apply(remap, was.pending[k].pos)
          && was.nextVersion < c.pending[k].version <= c.nextVersion)
    && (forall k, l :: k in was.pending && l in was.pending && k !in todo && l !in todo && k.book == l.book == book && k != l ==>
          c.pending[k].version != c.pending[l].version)
  }

  lemma RemapOne(was: State, c: State, todo: set<Key>, key: Key, book: string, remap: ChapterRemap)
    requires PartlyRemapped(was, c, todo, book, remap) && key in todo
    ensures key in c.pending
    ensures key.book != book ==> PartlyRemapped(was, c, todo - {key}, book, remap)
    ensures key.book == book ==>
              PartlyRemapped(was, AfterStage(c, key, Apply(remap, c.pending[key].pos)), todo - {key}, book, remap)
  {
  }

  lemma NoneRemapped(was: State, book: string, remap: ChapterRemap)
    ensures PartlyRemapped(was, was, was.pending.Keys, book, remap)
  {
  }

  lemma AllRemapped(was: State, c: State, book: string, remap: ChapterRemap)
    requires PartlyRemapped(was, c, {}, book, remap)
    ensures IsRemapped(was, c, book, remap)
  {
  }

  class ProgressCoalescer {
    const maxPending: nat
    var pending: map<Key, Staged>
    var nextVersion: nat

    function Value(): State
      reads this
    {
      State(pending, nextVersion)
    }

    constructor (maxPending: nat)
      ensures Value() == State(map[], 0)
    {
      this.maxPending := maxPending;
      pending, nextVersion := map[], 0;
    }

    /** The result asks for an early flush. */
    method Stage(key: Key, pos: Position) returns (overCap: bool)
      modifies this
      ensures Value() == AfterStage(old(Value()), key, pos)
      ensures overCap <==> |pending| >= maxPending
    {
      nextVersion := nextVersion + 1;
      pending := pending[key := Staged(pos, nextVersion)];
      overCap := |pending| >= maxPending;
    }

    method Get(key: Key) returns (r: Option<Position>)
      ensures r == if key in pending then Some(pending[key].pos) else None
    {
      r := if key in pending then Some(pending[key].pos) else None;
    }

    /** One user's pending positions by book. */
    method GetAll(user: string) returns (result: map<string, Position>)
      ensures forall b :: b in result <==> Key(b, user) in pending
      ensures forall b :: b in result ==> result[b] == pending[Key(b, user)].pos
    {
      result := map[];
      var todo := pending.Keys;
      while todo != {}
        invariant todo <= pending.Keys
        invariant forall b :: b in result <==> Key(b, user) in pending && Key(b, user) !in todo
        invariant forall b :: b in result ==> result[b] == pending[Key(b, user)].pos
        decreases todo
      {
        var key :| key in todo;
        if key.user == user {
          result := result[key.book := pending[key].pos];
        }
        todo := todo - {key};
      }
    }

    method DiscardSaved(key: Key, version: nat)
      modifies this
      ensures Value() == AfterDiscard(old(Value()), key, version)
    {
      if key in pending && pending[key].version == version {
        pending := pending - {key};
      }
    }

    method DropBook(book: string)
      modifies this
      ensures Value() == AfterDrop(old(Value()), book)
    {
      ghost var was := pending;
      var todo := pending.Keys;
      while todo != {}
        invariant todo <= pending.Keys <= was.Keys && nextVersion == old(nextVersion)
        invariant forall k :: k in was ==> (k in pending <==> k in todo || k.book != book)
        invariant forall k :: k in pending ==> pending[k] == was[k]
        decreases todo
      {
        var key :| key in todo;
        todo := todo - {key};
        if key.book == book {
          pending := pending - {key};
        }
      }
    }

    method RemapBook(book: string, remap: ChapterRemap)
      modifies this
      ensures IsRemapped(old(Value()), Value(), book, remap)
    {
      hide PartlyRemapped, IsRemapped, Apply;
      ghost var was := Value();
      var todo := pending.Keys;
      NoneRemapped(was, book, remap);
      while todo != {}
        invariant PartlyRemapped(was, Value(), todo, book, remap)
        decreases todo
      {
        var key :| key in todo;
        RemapOne(was, Value(), todo, key, book, remap);
        todo := todo - {key};
        if key.book != book {
          continue;
        }
        var entry := pending[key];
        nextVersion := nextVersion + 1;
        pending := pending[key := Staged(Apply(remap, entry.pos), nextVersion)];
      }
      AllRemapped(was, Value(), book, remap);
    }

    /** `flush` when nobody interferes: the positions whose saves fail stay pending, the others are
        stored, unless their book is gone. */
    method Flush(table: ProgressTable, broken: set<Key>)
      modifies this, table`rows
      ensures nextVersion == old(nextVersion)
      ensures pending == map k | k in old(pending) && k in broken :: old(pending)[k]
      ensures table.rows == old(table.rows)
              + map k | k in old(pending) && k !in broken && k.book in table.books :: old(pending)[k].pos
    {
      if pending == map[] {
        assert table.rows == old(table.rows) + map[];
        return;
      }
      var batch := pending;
      var todo := batch.Keys;
      while todo != {}
        invariant todo <= batch.Keys && nextVersion == old(nextVersion)
        invariant forall k :: k in pending <==> k in batch && (k in todo || k in broken)
        invariant forall k :: k in pending ==> pending[k] == batch[k]
        invariant forall k :: k in table.rows <==> k in old(table.rows) || Written(batch, todo, broken, table.books, k)
        invariant forall k :: k in table.rows ==>
                    table.rows[k] == if Written(batch, todo, broken, table.books, k) then batch[k].pos else old(table.rows)[k]
        decreases todo
      {
        var key :| key in todo;
        todo := todo - {key};
        var outcome := table.Save(key, batch[key].pos, key in broken);
        if outcome != Failed {
          DiscardSaved(key, batch[key].version);
        }
      }
    }
  }
}
