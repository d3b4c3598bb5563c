/** The book cache of internal/storage/bookcache.go: the list order it keeps by binary search, and the
    spine memo that shared loads fill while books are added, replaced and removed. */
module BookCaches {

  import opened AsciiFold
  import opened Basics
  import opened ByteStrings
  import opened Wrappers

  type Id = Bytes
  type Json = Bytes

  /** `spineJson` is empty for records built from summaries; `rest` stands for the other columns. */
  datatype Book = Book(id: Id, title: Bytes, spineJson: Json, rest: nat)

  /** Parsed spine content and where it came from: the cached record itself, or the database as it
      was at moment `readAt`. */
  datatype Spine = FromRecord(json: Json) | FromStore(json: Json, readAt: nat)

  datatype Cache = Cache(
    byID: map<Id, Book>,
    order: seq<Id>,
    generations: map<Id, nat>,
    nextGeneration: nat,
    spines: map<Id, Spine>
  )

  // ---------------------------------------------------------------- the list order

  /** How the listed book compares with a target; an orphaned ID counts as larger. */
  function Probe(byID: map<Id, Book>, existing: Id, title: Bytes, id: Id): int {
    if existing !in byID then 1 else Rank(byID[existing].title, existing, title, id)
  }

  predicate InOrder(byID: map<Id, Book>, x: Id, y: Id) {
    x in byID && y in byID && Rank(byID[x].title, x, byID[y].title, y) < 0
  }

  ghost predicate Ascending(byID: map<Id, Book>, order: seq<Id>) {
    forall i, j :: 0 <= i < j < |order| ==> InOrder(byID, order[i], order[j])
  }

  /** What a rebuild from the database yields: every cached ID, strictly ascending by title, then ID. */
  ghost predicate Listing(byID: map<Id, Book>, order: seq<Id>) {
    Ascending(byID, order) && Known(byID, order) && Complete(byID, order)
  }

  ghost predicate Known(byID: map<Id, Book>, order: seq<Id>) {
    forall i :: 0 <= i < |order| ==> order[i] in byID
  }

  ghost predicate Complete(byID: map<Id, Book>, order: seq<Id>) {
    forall id :: id in byID ==> id in order
  }

  /** Binary search for the target between positions `i` and `j`. */
  function Search(byID: map<Id, Book>, order: seq<Id>, title: Bytes, id: Id, i: nat, j: nat): (pos: nat)
    requires i <= j <= |order|
    requires i > 0 ==> Probe(byID, order[i - 1], title, id) < 0
    requires j < |order| ==> Probe(byID, order[j], title, id) >= 0
    ensures pos <= |order|
    ensures pos > 0 ==> Probe(byID, order[pos - 1], title, id) < 0
    ensures pos < |order| ==> Probe(byID, order[pos], title, id) >= 0
    decreases j - i
  {
    if i == j then i
    else
      var h := (i + j) / 2;
      if Probe(byID, order[h], title, id) < 0 then Search(byID, order, title, id, h + 1, j)
      else Search(byID, order, title, id, i, h)
  }

  function Slot(byID: map<Id, Book>, order: seq<Id>, title: Bytes, id: Id): (pos: nat)
    ensures pos <= |order|
    ensures pos > 0 ==> Probe(byID, order[pos - 1], title, id) < 0
    ensures pos < |order| ==> Probe(byID, order[pos], title, id) >= 0
  {
    Search(byID, order, title, id, 0, |order|)
  }

  function InsertAt(s: seq<Id>, pos: nat, id: Id): (r: seq<Id>)
    requires pos <= |s|
    ensures |r| == |s| + 1
    ensures forall i :: 0 <= i < |r| ==> r[i] == (if i < pos then s[i] else if i == pos then id else s[i - 1])
  {
    s[..pos] + [id] + s[pos..]
  }

  function WithoutId(byID: map<Id, Book>, order: seq<Id>, title: Bytes, id: Id): seq<Id> {
    var pos := Slot(byID, order, title, id);
    if pos < |order| && order[pos] == id then RemoveAt(order, pos) else order
  }

  /** The order after a book whose position may change is put in its place. */
  function Placed(byID: map<Id, Book>, order: seq<Id>, b: Book): seq<Id> {
    var rest := if b.id in byID then WithoutId(byID, order, byID[b.id].title, b.id) else order;
    InsertAt(rest, Slot(byID, rest, b.title, b.id), b.id)
  }

  function AfterAdd(c: Cache, b: Book): Cache {
    var order := if b.id in c.byID && c.byID[b.id].title == b.title then c.order else Placed(c.byID, c.order, b);
    Cache(c.byID[b.id := b], order, c.generations[b.id := c.nextGeneration + 1], c.nextGeneration + 1,
          c.spines - {b.id})
  }

  function AfterRemove(c: Cache, id: Id): Cache {
    if id !in c.byID then c
    else Cache(c.byID - {id}, WithoutId(c.byID, c.order, c.byID[id].title, id), c.generations - {id},
               c.nextGeneration + 1, c.spines - {id})
  }

  predicate IsBoundary(byID: map<Id, Book>, order: seq<Id>, title: Bytes, id: Id, pos: nat) {
    && pos <= |order|
    && (pos > 0 ==> Probe(byID, order[pos - 1], title, id) < 0)
    && (pos < |order| ==> Probe(byID, order[pos], title, id) >= 0)
  }

  lemma BoundariesAgree(byID: map<Id, Book>, order: seq<Id>, title: Bytes, id: Id, pos: nat, slot: nat)
    requires Ascending(byID, order) && Known(byID, order)
    requires IsBoundary(byID, order, title, id, pos) && IsBoundary(byID, order, title, id, slot)
    ensures pos == slot
  {
    if slot < pos {
      SmallerProbe(byID, order, title, id, slot, pos - 1);
    } else if pos < slot {
      SmallerProbe(byID, order, title, id, pos, slot - 1);
    }
  }

  /** Any place where the comparison changes sign is the slot, because the order ascends. */
  lemma BoundaryIsSlot(byID: map<Id, Book>, order: seq<Id>, title: Bytes, id: Id, pos: nat)
    requires Ascending(byID, order) && Known(byID, order) && IsBoundary(byID, order, title, id, pos)
    ensures pos == Slot(byID, order, title, id)
  {
    BoundariesAgree(byID, order, title, id, pos, Slot(byID, order, title, id));
  }

  lemma SmallerProbe(byID: map<Id, Book>, order: seq<Id>, title: Bytes, id: Id, i: nat, j: nat)
    requires Ascending(byID, order) && Known(byID, order)
    requires i <= j < |order| && Probe(byID, order[j], title, id) < 0
    ensures Probe(byID, order[i], title, id) < 0
  {
    if i < j {
      assert InOrder(byID, order[i], order[j]);
      RankTransitive(byID[order[i]].title, order[i], byID[order[j]].title, order[j], title, id);
    }
  }

  /** Everything from the slot on comes after a target that is not listed. */
  lemma AfterSlot(byID: map<Id, Book>, order: seq<Id>, title: Bytes, id: Id, slot: nat, j: nat)
    requires Ascending(byID, order) && Known(byID, order)
    requires IsBoundary(byID, order, title, id, slot) && slot <= j < |order| && order[j] != id
    ensures Rank(title, id, byID[order[j]].title, order[j]) < 0
  {
    RankAntisymmetric(byID[order[j]].title, order[j], title, id);
    if Probe(byID, order[j], title, id) < 0 {
      SmallerProbe(byID, order, title, id, slot, j);
    }
  }

  /** A listed book is found at its own slot. */
  lemma FindsItself(byID: map<Id, Book>, order: seq<Id>, id: Id)
    requires Listing(byID, order) && id in byID
    ensures Slot(byID, order, byID[id].title, id) < |order| && order[Slot(byID, order, byID[id].title, id)] == id
  {
    var k :| 0 <= k < |order| && order[k] == id;
    var title := byID[id].title;
    RankAntisymmetric(title, id, title, id);
    if k > 0 {
      assert InOrder(byID, order[k - 1], order[k]);
    }
    BoundaryIsSlot(byID, order, title, id, k);
  }

  /** The part of a listing around position `pos`, whose ID is gone from the map. */
  lemma RemovedPair(byID: map<Id, Book>, order: seq<Id>, pos: nat, i: nat, j: nat)
    requires Ascending(byID, order) && pos < |order| && i < j < |order| && i != pos && j != pos
    ensures InOrder(byID - {order[pos]}, order[i], order[j])
  {
    assert InOrder(byID, order[i], order[j]);
    Distinct(byID, order, i, pos);
    Distinct(byID, order, j, pos);
  }

  lemma Distinct(byID: map<Id, Book>, order: seq<Id>, i: nat, j: nat)
    requires Ascending(byID, order) && i < |order| && j < |order| && i != j
    ensures order[i] != order[j]
  {
    var x, y := if i < j then i else j, if i < j then j else i;
    assert InOrder(byID, order[x], order[y]);
    RankAntisymmetric(byID[order[x]].title, order[x], byID[order[x]].title, order[x]);
  }

  lemma RemovalAscends(byID: map<Id, Book>, order: seq<Id>, pos: nat)
    requires Ascending(byID, order) && pos < |order|
    ensures Ascending(byID - {order[pos]}, RemoveAt(order, pos))
  {
    var rest := RemoveAt(order, pos);
    forall i, j | 0 <= i < j < |rest| ensures InOrder(byID - {order[pos]}, rest[i], rest[j]) {
      RemovedPair(byID, order, pos, if i < pos then i else i + 1, if j < pos then j else j + 1);
    }
  }

  lemma RemovalCovers(byID: map<Id, Book>, order: seq<Id>, pos: nat)
    requires Complete(byID, order) && pos < |order|
    ensures Complete(byID - {order[pos]}, RemoveAt(order, pos))
  {
    forall x | x in byID - {order[pos]} ensures x in RemoveAt(order, pos) {
      var k :| 0 <= k < |order| && order[k] == x;
      assert RemoveAt(order, pos)[if k < pos then k else k - 1] == x;
    }
  }

  lemma RemovalLists(byID: map<Id, Book>, order: seq<Id>, id: Id)
    requires Listing(byID, order) && id in byID
    ensures Listing(byID - {id}, WithoutId(byID, order, byID[id].title, id))
  {
    var pos := Slot(byID, order, byID[id].title, id);
    FindsItself(byID, order, id);
    RemovalAscends(byID, order, pos);
    RemovalCovers(byID, order, pos);
    forall i | 0 <= i < |RemoveAt(order, pos)| ensures RemoveAt(order, pos)[i] in byID - {id} {
      Distinct(byID, order, if i < pos then i else i + 1, pos);
    }
  }

  lemma InsertedPair(byID: map<Id, Book>, order: seq<Id>, b: Book, pos: nat, i: nat, j: nat)
    requires Ascending(byID, order) && Known(byID, order) && b.id !in byID && i < j <= |order|
    requires IsBoundary(byID, order, b.title, b.id, pos)
    ensures InOrder(byID[b.id := b], InsertAt(order, pos, b.id)[i], InsertAt(order, pos, b.id)[j])
  {
    hide Lex, Compare;
    if i == pos {
      AfterSlot(byID, order, b.title, b.id, pos, j - 1);
    } else if j == pos {
      SmallerProbe(byID, order, b.title, b.id, i, pos - 1);
    } else {
      assert InOrder(byID, order[if i < pos then i else i - 1], order[if j < pos then j else j - 1]);
    }
  }

  lemma InsertionCovers(byID: map<Id, Book>, order: seq<Id>, b: Book, pos: nat)
    requires Complete(byID, order) && pos <= |order|
    ensures Complete(byID[b.id := b], InsertAt(order, pos, b.id))
  {
    var grown := InsertAt(order, pos, b.id);
    assert grown[pos] == b.id;
    forall x | x in byID ensures x in grown {
      var k :| 0 <= k < |order| && order[k] == x;
      assert grown[if k < pos then k else k + 1] == x;
    }
  }

  lemma InsertionLists(byID: map<Id, Book>, order: seq<Id>, b: Book)
    requires Listing(byID, order) && b.id !in byID
    ensures Listing(byID[b.id := b], InsertAt(order, Slot(byID, order, b.title, b.id), b.id))
  {
    var pos := Slot(byID, order, b.title, b.id);
    var grown := InsertAt(order, pos, b.id);
    forall i, j | 0 <= i < j < |grown| ensures InOrder(byID[b.id := b], grown[i], grown[j]) {
      InsertedPair(byID, order, b, pos, i, j);
    }
    InsertionCovers(byID, order, b, pos);
  }

  lemma RefreshLists(byID: map<Id, Book>, order: seq<Id>, b: Book)
    requires Listing(byID, order) && b.id in byID && byID[b.id].title == b.title
    ensures Listing(byID[b.id := b], order)
  {
    forall i, j | 0 <= i < j < |order| ensures InOrder(byID[b.id := b], order[i], order[j]) {
      assert InOrder(byID, order[i], order[j]);
    }
  }

  /** The slot does not depend on a record that is not listed. */
  lemma SlotIgnores(byID: map<Id, Book>, rest: seq<Id>, title: Bytes, id: Id)
    requires Ascending(byID - {id}, rest) && Known(byID - {id}, rest)
    ensures Slot(byID, rest, title, id) == Slot(byID - {id}, rest, title, id)
  {
    var pos := Slot(byID, rest, title, id);
    assert pos > 0 ==> rest[pos - 1] in byID - {id};
    assert pos < |rest| ==> rest[pos] in byID - {id};
    BoundaryIsSlot(byID - {id}, rest, title, id, pos);
  }

  /** A changed title: the book is taken out under its old title and put back under the new one. */
  lemma RetitleLists(byID: map<Id, Book>, order: seq<Id>, b: Book, rest: seq<Id>)
    requires Listing(byID, order) && b.id in byID && rest == WithoutId(byID, order, byID[b.id].title, b.id)
    ensures Listing(byID[b.id := b], InsertAt(rest, Slot(byID, rest, b.title, b.id), b.id))
  {
    hide Slot, Search, WithoutId, InsertAt;
    RemovalLists(byID, order, b.id);
    SlotIgnores(byID, rest, b.title, b.id);
    InsertionLists(byID - {b.id}, rest, b);
    assert (byID - {b.id})[b.id := b] == byID[b.id := b];
  }

  lemma AddKeepsListing(c: Cache, b: Book)
    requires Listing(c.byID, c.order)
    ensures Listing(AfterAdd(c, b).byID, AfterAdd(c, b).order)
  {
    if b.id !in c.byID {
      InsertionLists(c.byID, c.order, b);
    } else if c.byID[b.id].title == b.title {
      RefreshLists(c.byID, c.order, b);
    } else {
      RetitleLists(c.byID, c.order, b, WithoutId(c.byID, c.order, c.byID[b.id].title, b.id));
    }
  }

  lemma RemoveKeepsListing(c: Cache, id: Id)
    requires Listing(c.byID, c.order)
    ensures Listing(AfterRemove(c, id).byID, AfterRemove(c, id).order)
  {
    if id in c.byID {
      RemovalLists(c.byID, c.order, id);
    }
  }

  /** The same books in ascending order, for two orders at once. */
  ghost predicate Same(byID: map<Id, Book>, order: seq<Id>, order': seq<Id>) {
    Ascending(byID, order) && Ascending(byID, order') && (forall id :: id in order <==> id in order')
  }

  lemma HeadsAgree(byID: map<Id, Book>, order: seq<Id>, order': seq<Id>)
    requires Same(byID, order, order') && order != [] && order' != []
    ensures order[0] == order'[0]
  {
    var x, y := order[0], order'[0];
    if x != y {
      assert x in order' && y in order;
      var j :| 0 <= j < |order'| && order'[j] == x;
      var i :| 0 <= i < |order| && order[i] == y;
      assert InOrder(byID, order[0], order[i]) && InOrder(byID, order'[0], order'[j]);
      RankAntisymmetric(byID[x].title, x, byID[y].title, y);
    }
  }

  lemma HeadIsUnique(byID: map<Id, Book>, order: seq<Id>)
    requires Ascending(byID, order) && order != []
    ensures Ascending(byID, order[1..])
    ensures forall id :: id in order[1..] <==> id in order && id != order[0]
  {
    forall i | 1 <= i < |order| ensures order[i] != order[0] {
      Distinct(byID, order, 0, i);
    }
    assert order == [order[0]] + order[1..];
    forall i, j | 0 <= i < j < |order[1..]| ensures InOrder(byID, order[1..][i], order[1..][j]) {
      assert InOrder(byID, order[i + 1], order[j + 1]);
    }
  }

  lemma EmptyAgrees(byID: map<Id, Book>, order: seq<Id>)
    requires order != []
    ensures !Same(byID, [], order)
  {
    assert order[0] in order;
  }

  lemma {:induction false} SameIsEqual(byID: map<Id, Book>, order: seq<Id>, order': seq<Id>)
    requires Same(byID, order, order')
    ensures order == order'
  {
    if order != [] {
      assert order[0] in order';
      HeadsAgree(byID, order, order');
      HeadIsUnique(byID, order);
      HeadIsUnique(byID, order');
      SameIsEqual(byID, order[1..], order'[1..]);
      assert order == [order[0]] + order[1..] && order' == [order'[0]] + order'[1..];
    } else if order' != [] {
      EmptyAgrees(byID, order');
    }
  }

  /** There is only one listing, so a maintained order equals any rebuild. */
  lemma ListingIsUnique(byID: map<Id, Book>, order: seq<Id>, rebuilt: seq<Id>)
    requires Listing(byID, order) && Listing(byID, rebuilt)
    ensures order == rebuilt
  {
    SameIsEqual(byID, order, rebuilt);
  }

  // ---------------------------------------------------------------- the spine memo

  function Gen(c: Cache, id: Id): nat {
    if id in c.generations then c.generations[id] else 0
  }

  /** The book is cached under exactly this generation. */
  predicate Current(c: Cache, id: Id, gen: nat) {
    id in c.byID && Gen(c, id) == gen
  }

  datatype LoadResult = Found(spine: Spine) | Missing | Retry | Failed

  /** `spineLoadStateLocked`: whether a memo, a removal or a replacement already settled the load. */
  function LoadState(c: Cache, id: Id, book: Book, gen: nat): Option<LoadResult> {
    if id in c.spines then Some(Found(c.spines[id]))
    else if id !in c.byID then Some(Missing)
    else if Gen(c, id) != gen || c.byID[id] != book then Some(Retry)
    else None
  }

  /** The last section of `loadSpine`: the cache after it and the result the flight delivers. */
  function Publish(c: Cache, id: Id, book: Book, gen: nat, content: Option<Spine>): (Cache, LoadResult) {
    match LoadState(c, id, book, gen)
    case Some(r) => (c, r)
    case None => if content.None? then (c, Failed) else (c.(spines := c.spines[id := content.value]), Found(content.value))
  }

  /** One instant: the cache, and the spine JSON stored in the database. */
  datatype Moment = Moment(cache: Cache, db: map<Id, Json>)

  /** A shared load.  `since` is the instant of the snapshot that started it; `content` is what it read
      and parsed, if that succeeded. */
  datatype Stage =
    | Starting
    | Reading
    | Holding(content: Option<Spine>)
    | Ended(result: LoadResult, at: nat)

  datatype Flight = Flight(id: Id, gen: nat, book: Book, since: nat, stage: Stage)

  /** A caller of `GetSpine`: called at `start`, looked at the cache at `at`, joined a flight, returned
      a result that was settled at `at`. */
  datatype Caller =
    | Idle
    | Calling(id: Id, start: nat)
    | Snapped(id: Id, gen: nat, book: Book, start: nat, at: nat)
    | Waiting(id: Id, gen: nat, start: nat, at: nat, flight: nat)
    | Returned(id: Id, result: LoadResult, start: nat, at: nat)

  /** `past` lists every instant so far; the last one is now.  `active` is the single-flight table. */
  datatype System = System(
    past: seq<Moment>,
    flights: seq<Flight>,
    active: map<(Id, nat), nat>,
    callers: seq<Caller>
  )

  datatype Event =
    | Add(book: Book)
    | Remove(id: Id)
    | Write(db: map<Id, Json>)
    | Call(t: nat, id: Id)
    | Look(t: nat)
    | Join(t: nat)
    | Receive(t: nat)
    | Leave(t: nat)
    | Check(f: nat)
    | Read(f: nat, ok: bool)
    | Settle(f: nat)
    | Forget(f: nat)

  function Now(s: System): Moment
    requires s.past != []
  {
    s.past[|s.past| - 1]
  }

  /** What a load reads: the record's own JSON, or the database row. */
  predicate CanRead(m: Moment, book: Book) {
    book.spineJson != [] || book.id in m.db
  }

  function ReadContent(m: Moment, book: Book, at: nat): Spine
    requires CanRead(m, book)
  {
    if book.spineJson != [] then FromRecord(book.spineJson) else FromStore(m.db[book.id], at)
  }

  /** The instant after the step has index `|s.past|`. */
  function Advance(s: System, m: Moment): System {
    s.(past := s.past + [m])
  }

  function SetCaller(s: System, t: nat, p: Caller): System
    requires s.past != [] && t < |s.callers|
  {
    Advance(s.(callers := s.callers[t := p]), Now(s))
  }

  function SetStage(s: System, f: nat, stage: Stage, c: Cache): System
    requires s.past != [] && f < |s.flights|
  {
    Advance(s.(flights := s.flights[f := s.flights[f].(stage := stage)]), Moment(c, Now(s).db))
  }

  /** The snapshot section of `GetSpine`. */
  function LookResult(c: Cache, p: Caller, at: nat): Caller
    requires p.Calling?
  {
    if p.id in c.spines then Returned(p.id, Found(c.spines[p.id]), p.start, at)
    else if p.id !in c.byID then Returned(p.id, Missing, p.start, at)
    else Snapped(p.id, Gen(c, p.id), c.byID[p.id], p.start, at)
  }

  function JoinResult(s: System, t: nat): System
    requires s.past != [] && t < |s.callers| && s.callers[t].Snapped?
  {
    var p := s.callers[t];
    var key := (p.id, p.gen);
    if key in s.active then SetCaller(s, t, Waiting(p.id, p.gen, p.start, p.at, s.active[key]))
    else
      var s' := s.(flights := s.flights + [Flight(p.id, p.gen, p.book, p.at, Starting)], active := s.active[key := |s.flights|]);
      SetCaller(s', t, Waiting(p.id, p.gen, p.start, p.at, |s.flights|))
  }

  function ReceiveResult(p: Caller, e: Stage): Caller
    requires p.Waiting? && e.Ended?
  {
    if e.result.Retry? then Calling(p.id, p.start) else Returned(p.id, e.result, p.start, Max(p.at, e.at))
  }

  ghost predicate Step(s: System, ev: Event, s': System) {
    && s.past != []
    && var c, now := Now(s).cache, |s.past|;
       match ev
       case Add(book) => s' == Advance(s, Moment(AfterAdd(c, book), Now(s).db))
       case Remove(id) => s' == Advance(s, Moment(AfterRemove(c, id), Now(s).db))
       case Write(db) => s' == Advance(s, Moment(c, db))
       case Call(t, id) =>
         t < |s.callers| && (s.callers[t].Idle? || s.callers[t].Returned?) && s' == SetCaller(s, t, Calling(id, now))
       case Look(t) =>
         t < |s.callers| && s.callers[t].Calling? && s' == SetCaller(s, t, LookResult(c, s.callers[t], now))
       case Join(t) => t < |s.callers| && s.callers[t].Snapped? && s' == JoinResult(s, t)
       case Receive(t) =>
         && t < |s.callers| && s.callers[t].Waiting? && s.callers[t].flight < |s.flights|
         && s.flights[s.callers[t].flight].stage.Ended?
         && s' == SetCaller(s, t, ReceiveResult(s.callers[t], s.flights[s.callers[t].flight].stage))
       case Leave(t) => t < |s.callers| && s' == SetCaller(s, t, Idle)
       case Check(f) =>
         && f < |s.flights| && s.flights[f].stage.Starting?
         && var state := LoadState(c, s.flights[f].id, s.flights[f].book, s.flights[f].gen);
            s' == SetStage(s, f, if state.None? then Reading else Ended(state.value, now), c)
       case Read(f, ok) =>
         && f < |s.flights| && s.flights[f].stage.Reading? && (ok ==> CanRead(Now(s), s.flights[f].book))
         && s' == SetStage(s, f, Holding(if ok then Some(ReadContent(Now(s), s.flights[f].book, now)) else None), c)
       case Settle(f) =>
         && f < |s.flights| && s.flights[f].stage.Holding?
         && var (c', r) := Publish(c, s.flights[f].id, s.flights[f].book, s.flights[f].gen, s.flights[f].stage.content);
            s' == SetStage(s, f, Ended(r, now), c')
       case Forget(f) =>
         && f < |s.flights| && s.flights[f].stage.Ended?
         && (s.flights[f].id, s.flights[f].gen) in s.active && s.active[(s.flights[f].id, s.flights[f].gen)] == f
         && s' == Advance(s.(active := s.active - {(s.flights[f].id, s.flights[f].gen)}), Now(s))
  }

  ghost predicate Initial(s: System) {
    && |s.past| == 1 && s.flights == [] && s.active == map[]
    && (forall t :: 0 <= t < |s.callers| ==> s.callers[t] == Idle)
    && Listing(Now(s).cache.byID, Now(s).cache.order)
    && Now(s).cache.generations == map[] && Now(s).cache.spines == map[]
    && (forall id :: id in Now(s).cache.byID ==> Now(s).cache.byID[id].id == id)
  }

  // ---------------------------------------------------------------- the invariant

  /** The book kept the same generation, hence the same record, from instant `from` until now. */
  ghost predicate Throughout(past: seq<Moment>, from: nat, id: Id, gen: nat) {
    from < |past| && forall k :: from <= k < |past| ==> Current(past[k].cache, id, gen)
  }

  /** The content belongs to the record, or was in the database at an instant since which the book has
      not been added again. */
  ghost predicate Fresh(past: seq<Moment>, id: Id, book: Book, gen: nat, spine: Spine) {
    match spine
    case FromRecord(json) => json == book.spineJson
    case FromStore(json, at) =>
      at < |past| && id in past[at].db && past[at].db[id] == json && Throughout(past, at, id, gen)
  }

  ghost predicate SpineOk(past: seq<Moment>, id: Id)
    requires past != []
  {
    var c := past[|past| - 1].cache;
    id in c.spines ==> id in c.byID && Fresh(past, id, c.byID[id], Gen(c, id), c.spines[id])
  }

  ghost predicate CacheOk(c: Cache) {
    && Listing(c.byID, c.order)
    && (forall id :: id in c.byID ==> c.byID[id].id == id)
    && (forall id :: id in c.generations ==> c.generations[id] <= c.nextGeneration)
  }

  /** A generation seen at instant `at`: either it is over for good, or it has lasted since. */
  ghost predicate Seen(past: seq<Moment>, id: Id, gen: nat, book: Book, at: nat)
    requires past != []
  {
    var c := past[|past| - 1].cache;
    && at < |past| && gen <= c.nextGeneration && Current(past[at].cache, id, gen)
    && (Current(c, id, gen) ==> Throughout(past, at, id, gen) && c.byID[id] == book)
  }

  /** What an ended flight's result says about the instant it was settled, and about now. */
  ghost predicate Settled(past: seq<Moment>, id: Id, gen: nat, result: LoadResult, at: nat)
    requires past != []
  {
    && at < |past|
    && match result
       case Found(spine) =>
         && id in past[at].cache.spines && past[at].cache.spines[id] == spine
         && (Current(past[|past| - 1].cache, id, gen) ==> id in past[|past| - 1].cache.spines)
       case Missing => id !in past[at].cache.byID && !Current(past[|past| - 1].cache, id, gen)
       case Retry => !Current(past[|past| - 1].cache, id, gen)
       case Failed => Current(past[at].cache, id, gen)
  }

  ghost predicate FlightOk(s: System, f: nat)
    requires s.past != [] && f < |s.flights|
  {
    var flight := s.flights[f];
    && Seen(s.past, flight.id, flight.gen, flight.book, flight.since)
    && flight.book.id == flight.id
    && (!flight.stage.Ended? ==> (flight.id, flight.gen) in s.active && s.active[(flight.id, flight.gen)] == f)
    && match flight.stage
       case Holding(Some(spine)) =>
         Current(Now(s).cache, flight.id, flight.gen) ==> Fresh(s.past, flight.id, flight.book, flight.gen, spine)
       case Ended(r, at) => Settled(s.past, flight.id, flight.gen, r, at)
       case _ => true
  }

  ghost predicate CallerOk(s: System, t: nat)
    requires s.past != [] && t < |s.callers|
  {
    match s.callers[t]
    case Idle => true
    case Calling(_, start) => start < |s.past|
    case Snapped(id, gen, book, start, at) => start <= at && book.id == id && Seen(s.past, id, gen, book, at)
    case Waiting(id, gen, start, at, f) =>
      && start <= at < |s.past| && Current(s.past[at].cache, id, gen)
      && f < |s.flights| && s.flights[f].id == id && s.flights[f].gen == gen && NotBefore(s.flights[f], at)
    case Returned(id, r, start, at) =>
      && start <= at < |s.past|
      && Answers(s.past[at].cache, id, r)
  }

  /** The result is true of the cache at one instant. */
  predicate Answers(c: Cache, id: Id, r: LoadResult) {
    match r
    case Found(spine) => id in c.spines && c.spines[id] == spine
    case Missing => id !in c.byID
    case Retry => false
    case Failed => true
  }

  /** The flight has not settled an answer before instant `at`. */
  predicate NotBefore(f: Flight, at: nat) {
    f.stage.Ended? && (f.stage.result.Found? || f.stage.result.Missing?) ==> at <= f.stage.at
  }

  /** A caller about to join gets no answer from before its own look at the cache. */
  predicate MayJoin(p: Caller, f: Flight) {
    p.Snapped? && p.id == f.id && p.gen == f.gen ==> NotBefore(f, p.at)
  }

  ghost predicate JoinOk(s: System, t: nat, f: nat)
    requires t < |s.callers| && f < |s.flights|
  {
    MayJoin(s.callers[t], s.flights[f])
  }

  predicate ActiveOk(s: System) {
    forall key :: key in s.active ==>
      s.active[key] < |s.flights| && s.flights[s.active[key]].id == key.0 && s.flights[s.active[key]].gen == key.1
  }

  ghost predicate Inv(s: System) {
    && s.past != [] && CacheOk(Now(s).cache) && ActiveOk(s)
    && (forall id :: id in Now(s).cache.spines ==> SpineOk(s.past, id))
    && (forall f: nat :: f < |s.flights| ==> FlightOk(s, f))
    && (forall t: nat :: t < |s.callers| ==> CallerOk(s, t))
    && (forall t: nat, f: nat :: t < |s.callers| && f < |s.flights| ==> JoinOk(s, t, f))
  }

  // ---------------------------------------------------------------- generations never come back

  /** A generation known before the step is current after it only if it was current before, and then
      neither its record nor its memo was touched. */
  ghost predicate Evolves(c: Cache, c': Cache) {
    && c.nextGeneration <= c'.nextGeneration
    && forall id, gen: nat :: gen <= c.nextGeneration && Current(c', id, gen) ==> Lasts(c, c', id, gen)
  }

  ghost predicate Lasts(c: Cache, c': Cache, id: Id, gen: nat)
    requires id in c'.byID
  {
    && Current(c, id, gen) && c'.byID[id] == c.byID[id]
    && (id in c.spines ==> id in c'.spines && c'.spines[id] == c.spines[id])
  }

  /** Every memo after the step was there before, for the same generation. */
  ghost predicate MemosLast(c: Cache, c': Cache) {
    forall id :: id in c'.spines ==> id in c.spines && id in c.byID && Current(c', id, Gen(c, id))
  }

  lemma AddBumpsGeneration(c: Cache, b: Book, c': Cache)
    requires c'.byID == c.byID[b.id := b] && c'.generations == c.generations[b.id := c.nextGeneration + 1]
    requires c'.nextGeneration == c.nextGeneration + 1 && c'.spines == c.spines - {b.id}
    requires forall id :: id in c.spines ==> id in c.byID
    ensures Evolves(c, c') && MemosLast(c, c')
  {
  }

  lemma AddEvolves(c: Cache, b: Book)
    requires CacheOk(c) && (forall id :: id in c.spines ==> id in c.byID)
    ensures CacheOk(AfterAdd(c, b)) && Evolves(c, AfterAdd(c, b)) && MemosLast(c, AfterAdd(c, b))
  {
    hide CacheOk, Evolves, MemosLast, Placed;
    AddIsOk(c, b);
    AddBumpsGeneration(c, b, AfterAdd(c, b));
  }

  lemma AddIsOk(c: Cache, b: Book)
    requires CacheOk(c)
    ensures CacheOk(AfterAdd(c, b))
  {
    AddKeepsListing(c, b);
    hide Listing, Placed;
  }

  lemma RemoveDropsGeneration(c: Cache, id: Id, c': Cache)
    requires c'.byID == c.byID - {id} && c'.generations == c.generations - {id}
    requires c'.nextGeneration == c.nextGeneration + 1 && c'.spines == c.spines - {id}
    requires forall id :: id in c.spines ==> id in c.byID
    ensures Evolves(c, c') && MemosLast(c, c')
  {
  }

  lemma RemoveEvolves(c: Cache, id: Id)
    requires CacheOk(c) && (forall id :: id in c.spines ==> id in c.byID)
    ensures CacheOk(AfterRemove(c, id)) && Evolves(c, AfterRemove(c, id)) && MemosLast(c, AfterRemove(c, id))
  {
    RemoveKeepsListing(c, id);
    if id in c.byID {
      hide Listing;
      RemoveDropsGeneration(c, id, AfterRemove(c, id));
    }
  }

  lemma PublishEvolves(c: Cache, id: Id, book: Book, gen: nat, content: Option<Spine>)
    requires CacheOk(c)
    ensures var c' := Publish(c, id, book, gen, content).0; CacheOk(c') && Evolves(c, c')
  {
  }

  // ---------------------------------------------------------------- one more instant

  ghost predicate Grows(past: seq<Moment>, past': seq<Moment>) {
    && past != [] && |past'| == |past| + 1 && past'[..|past|] == past
    && CacheOk(past[|past| - 1].cache) && CacheOk(past'[|past|].cache)
    && Evolves(past[|past| - 1].cache, past'[|past|].cache)
  }

  lemma ThroughoutGrows(past: seq<Moment>, past': seq<Moment>, from: nat, id: Id, gen: nat)
    requires Grows(past, past') && Throughout(past, from, id, gen) && Current(past'[|past|].cache, id, gen)
    ensures Throughout(past', from, id, gen)
  {
    forall k | from <= k < |past'| ensures Current(past'[k].cache, id, gen) {
      if k < |past| { assert past'[k] == past[k]; }
    }
  }

  lemma FreshGrows(past: seq<Moment>, past': seq<Moment>, id: Id, book: Book, gen: nat, spine: Spine)
    requires Grows(past, past') && Fresh(past, id, book, gen, spine) && Current(past'[|past|].cache, id, gen)
    ensures Fresh(past', id, book, gen, spine)
  {
    if spine.FromStore? {
      assert past'[spine.readAt] == past[spine.readAt];
      ThroughoutGrows(past, past', spine.readAt, id, gen);
    }
  }

  lemma SeenGrows(past: seq<Moment>, past': seq<Moment>, id: Id, gen: nat, book: Book, at: nat)
    requires Grows(past, past') && Seen(past, id, gen, book, at)
    ensures Seen(past', id, gen, book, at)
  {
    assert past'[at] == past[at];
    if Current(past'[|past|].cache, id, gen) {
      assert Lasts(past[|past| - 1].cache, past'[|past|].cache, id, gen);
      ThroughoutGrows(past, past', at, id, gen);
    }
  }

  lemma SettledGrows(past: seq<Moment>, past': seq<Moment>, id: Id, gen: nat, r: LoadResult, at: nat)
    requires Grows(past, past') && Settled(past, id, gen, r, at) && gen <= past[|past| - 1].cache.nextGeneration
    ensures Settled(past', id, gen, r, at)
  {
    assert past'[at] == past[at];
    if Current(past'[|past|].cache, id, gen) {
      assert Lasts(past[|past| - 1].cache, past'[|past|].cache, id, gen);
    }
  }

  lemma MemoGrows(past: seq<Moment>, past': seq<Moment>, id: Id)
    requires Grows(past, past') && id in past[|past| - 1].cache.spines && SpineOk(past, id)
    requires Current(past'[|past|].cache, id, Gen(past[|past| - 1].cache, id))
    ensures SpineOk(past', id)
  {
    var c, c' := past[|past| - 1].cache, past'[|past|].cache;
    assert Lasts(c, c', id, Gen(c, id));
    FreshGrows(past, past', id, c.byID[id], Gen(c, id), c.spines[id]);
  }

  lemma FlightGrows(s: System, s': System, f: nat)
    requires Inv(s) && Grows(s.past, s'.past) && f < |s.flights| && f < |s'.flights| && s'.flights[f] == s.flights[f]
    requires !s.flights[f].stage.Ended? ==>
               var key := (s.flights[f].id, s.flights[f].gen); key in s'.active && s'.active[key] == f
    ensures FlightOk(s', f)
  {
    var flight := s.flights[f];
    assert FlightOk(s, f);
    SeenGrows(s.past, s'.past, flight.id, flight.gen, flight.book, flight.since);
    match flight.stage
    case Holding(Some(spine)) =>
      if Current(Now(s').cache, flight.id, flight.gen) {
        assert Lasts(Now(s).cache, Now(s').cache, flight.id, flight.gen);
        FreshGrows(s.past, s'.past, flight.id, flight.book, flight.gen, spine);
      }
    case Ended(r, at) => SettledGrows(s.past, s'.past, flight.id, flight.gen, r, at);
    case _ =>
  }

  /** Flights keep their identity, and an answer settled by this step is settled now. */
  ghost predicate FlightsGrow(s: System, s': System) {
    && |s.flights| <= |s'.flights|
    && forall f :: 0 <= f < |s.flights| ==> FlightGrowsAt(s.flights[f], s'.flights[f], |s.past|)
  }

  predicate FlightGrowsAt(f: Flight, f': Flight, now: nat) {
    && f'.id == f.id && f'.gen == f.gen
    && (f'.stage == f.stage || !f'.stage.Ended? || f'.stage.at == now)
  }

  lemma CallerGrows(s: System, s': System, t: nat)
    requires Inv(s) && Grows(s.past, s'.past) && FlightsGrow(s, s')
    requires t < |s.callers| && t < |s'.callers| && s'.callers[t] == s.callers[t]
    ensures CallerOk(s', t)
  {
    assert CallerOk(s, t);
    match s.callers[t]
    case Snapped(id, gen, book, start, at) => SeenGrows(s.past, s'.past, id, gen, book, at);
    case Waiting(id, gen, start, at, f) =>
      assert s'.past[at] == s.past[at];
      assert FlightGrowsAt(s.flights[f], s'.flights[f], |s.past|);
    case Returned(id, r, start, at) => assert s'.past[at] == s.past[at];
    case _ =>
  }

  lemma JoinGrows(s: System, s': System, t: nat, f: nat)
    requires Inv(s) && FlightsGrow(s, s') && t < |s.callers| && f < |s.flights|
    ensures MayJoin(s.callers[t], s'.flights[f])
  {
    assert JoinOk(s, t, f) && CallerOk(s, t);
    assert FlightGrowsAt(s.flights[f], s'.flights[f], |s.past|);
  }

  // ---------------------------------------------------------------- every step keeps the invariant

  /** Steps that change the cache or the database only. */
  lemma CacheStep(s: System, s': System)
    requires Inv(s) && Grows(s.past, s'.past)
    requires s'.flights == s.flights && s'.callers == s.callers && s'.active == s.active
    requires MemosLast(Now(s).cache, Now(s').cache)
    ensures Inv(s')
  {
    MemosStay(s, s');
    forall f: nat | f < |s'.flights| ensures FlightOk(s', f) {
      assert FlightOk(s, f);
      FlightGrows(s, s', f);
    }
    forall t: nat | t < |s'.callers| ensures CallerOk(s', t) { CallerGrows(s, s', t); }
    forall t: nat, f: nat | t < |s'.callers| && f < |s'.flights| ensures JoinOk(s', t, f) { JoinGrows(s, s', t, f); }
  }

  lemma SameCacheGrows(s: System, s': System)
    requires Inv(s) && s'.past != [] && s'.past == s.past + [Now(s')] && Now(s').cache == Now(s).cache
    ensures Grows(s.past, s'.past) && MemosLast(Now(s).cache, Now(s').cache)
  {
    var c := Now(s).cache;
    forall id | id in c.spines ensures id in c.byID { assert SpineOk(s.past, id); }
  }

  /** Steps of one caller that leaves the flights alone. */
  lemma CallerStep(s: System, t: nat, p: Caller, s': System)
    requires Inv(s) && t < |s.callers| && s' == SetCaller(s, t, p)
    requires CallerOk(s', t)
    requires forall f: nat :: f < |s.flights| ==> MayJoin(p, s.flights[f])
    ensures Inv(s')
  {
    SameCacheGrows(s, s');
    CacheStep(s, s'.(callers := s.callers));
    forall u: nat | u < |s'.callers| ensures CallerOk(s', u) {
      if u != t { CallerGrows(s, s', u); }
    }
    forall f: nat | f < |s'.flights| ensures FlightOk(s', f) { assert FlightOk(s, f); FlightGrows(s, s', f); }
    forall u: nat, f: nat | u < |s'.callers| && f < |s'.flights| ensures JoinOk(s', u, f) {
      assert JoinOk(s, u, f);
    }
  }

  /** A flight that settled an answer for a generation which is still current left a memo. */
  lemma FirstLook(s: System, t: nat, at: nat)
    requires Inv(s) && t < |s.callers| && s.callers[t].Calling? && at == |s.past|
    ensures forall f: nat :: f < |s.flights| ==> MayJoin(LookResult(Now(s).cache, s.callers[t], at), s.flights[f])
  {
    forall f: nat | f < |s.flights| ensures MayJoin(LookResult(Now(s).cache, s.callers[t], at), s.flights[f]) {
      assert FlightOk(s, f);
    }
  }

  lemma LookStep(s: System, t: nat, s': System)
    requires Inv(s) && Step(s, Look(t), s')
    ensures Inv(s')
  {
    assert CallerOk(s, t);
    FirstLook(s, t, |s.past|);
    CallerStep(s, t, LookResult(Now(s).cache, s.callers[t], |s.past|), s');
  }

  lemma ReceiveStep(s: System, t: nat, s': System)
    requires Inv(s) && Step(s, Receive(t), s')
    ensures Inv(s')
  {
    var p := s.callers[t];
    assert CallerOk(s, t) && FlightOk(s, p.flight);
    var e := s.flights[p.flight].stage;
    assert s'.past[Max(p.at, e.at)] == s.past[Max(p.at, e.at)];
    CallerStep(s, t, ReceiveResult(p, e), s');
  }

  lemma JoinStep(s: System, t: nat, s': System)
    requires Inv(s) && Step(s, Join(t), s')
    ensures Inv(s')
  {
    var p := s.callers[t];
    var key := (p.id, p.gen);
    assert CallerOk(s, t);
    if key in s.active {
      assert JoinOk(s, t, s.active[key]);
      assert s'.past[p.at] == s.past[p.at];
      CallerStep(s, t, s'.callers[t], s');
    } else {
      NewFlight(s, t, s');
    }
  }

  lemma NewFlight(s: System, t: nat, s': System)
    requires Inv(s) && Step(s, Join(t), s') && (s.callers[t].id, s.callers[t].gen) !in s.active
    ensures Inv(s')
  {
    var p := s.callers[t];
    var n := |s.flights|;
    assert CallerOk(s, t);
    SameCacheGrows(s, s');
    MemosStay(s, s');
    SeenGrows(s.past, s'.past, p.id, p.gen, p.book, p.at);
    forall f: nat | f < |s'.flights| ensures FlightOk(s', f) {
      if f < n { assert FlightOk(s, f); FlightGrows(s, s', f); }
    }
    forall u: nat | u < |s'.callers| ensures CallerOk(s', u) {
      if u != t { CallerGrows(s, s', u); }
    }
    forall u: nat, f: nat | u < |s'.callers| && f < |s'.flights| ensures JoinOk(s', u, f) {
      if f < n { assert JoinOk(s, u, f); }
    }
  }

  /** Steps of one flight; the step may add a memo for the flight's book. */
  lemma FlightStep(s: System, f: nat, stage: Stage, s': System)
    requires Inv(s) && f < |s.flights| && !s.flights[f].stage.Ended? && Grows(s.past, s'.past)
    requires s' == SetStage(s, f, stage, Now(s').cache)
    requires stage.Ended? ==> stage.at == |s.past|
    requires FlightOk(s', f)
    requires forall id :: id in Now(s').cache.spines ==> SpineOk(s'.past, id)
    ensures Inv(s')
  {
    forall g: nat | g < |s'.flights| ensures FlightOk(s', g) {
      if g != f { assert FlightOk(s, g); FlightGrows(s, s', g); }
    }
    forall t: nat | t < |s'.callers| ensures CallerOk(s', t) { CallerGrows(s, s', t); }
    forall t: nat, g: nat | t < |s'.callers| && g < |s'.flights| ensures JoinOk(s', t, g) { JoinGrows(s, s', t, g); }
  }

  lemma MemosStay(s: System, s': System)
    requires Inv(s) && Grows(s.past, s'.past) && MemosLast(Now(s).cache, Now(s').cache)
    ensures forall id :: id in Now(s').cache.spines ==> SpineOk(s'.past, id)
  {
    forall id | id in Now(s').cache.spines ensures SpineOk(s'.past, id) { MemoGrows(s.past, s'.past, id); }
  }

  lemma CheckStep(s: System, f: nat, s': System)
    requires Inv(s) && Step(s, Check(f), s')
    ensures Inv(s')
  {
    var flight := s.flights[f];
    assert FlightOk(s, f);
    SameCacheGrows(s, s');
    MemosStay(s, s');
    SeenGrows(s.past, s'.past, flight.id, flight.gen, flight.book, flight.since);
    FlightStep(s, f, s'.flights[f].stage, s');
  }

  lemma ReadStep(s: System, f: nat, ok: bool, s': System)
    requires Inv(s) && Step(s, Read(f, ok), s')
    ensures Inv(s')
  {
    var flight := s.flights[f];
    assert FlightOk(s, f);
    SameCacheGrows(s, s');
    MemosStay(s, s');
    SeenGrows(s.past, s'.past, flight.id, flight.gen, flight.book, flight.since);
    FlightStep(s, f, s'.flights[f].stage, s');
  }

  lemma SettledCache(s: System, f: nat, s': System)
    requires Inv(s) && Step(s, Settle(f), s')
    ensures f < |s.flights| && s.flights[f].stage.Holding?
    ensures var flight := s.flights[f];
            Now(s').cache == Publish(Now(s).cache, flight.id, flight.book, flight.gen, flight.stage.content).0
  {
  }

  lemma PublishedMemo(c: Cache, flight: Flight, content: Option<Spine>, id: Id)
    requires CacheOk(c) && id in Publish(c, flight.id, flight.book, flight.gen, content).0.spines && id !in c.spines
    ensures id == flight.id && Current(c, id, flight.gen) && c.byID[id] == flight.book && content.Some?
    ensures Publish(c, id, flight.book, flight.gen, content).0 == c.(spines := c.spines[id := content.value])
  {
  }

  lemma OldMemo(c: Cache, flight: Flight, content: Option<Spine>, id: Id)
    requires id in c.spines
    ensures Publish(c, flight.id, flight.book, flight.gen, content).0.byID == c.byID
    ensures Publish(c, flight.id, flight.book, flight.gen, content).0.generations == c.generations
  {
  }

  /** What `loadSpine` publishes is the flight's own content, for a generation that is still current. */
  lemma SettleMemo(s: System, f: nat, s': System, id: Id)
    requires Inv(s) && Grows(s.past, s'.past) && f < |s.flights| && s.flights[f].stage.Holding?
    requires Now(s').cache == Publish(Now(s).cache, s.flights[f].id, s.flights[f].book, s.flights[f].gen,
                                      s.flights[f].stage.content).0
    requires id in Now(s').cache.spines
    ensures SpineOk(s'.past, id)
  {
    hide CacheOk, Evolves, Publish, Seen, Settled;
    var flight := s.flights[f];
    if id in Now(s).cache.spines {
      assert SpineOk(s.past, id);
      OldMemo(Now(s).cache, flight, flight.stage.content, id);
      MemoGrows(s.past, s'.past, id);
    } else {
      assert FlightOk(s, f);
      PublishedMemo(Now(s).cache, flight, flight.stage.content, id);
      FreshGrows(s.past, s'.past, id, flight.book, flight.gen, flight.stage.content.value);
    }
  }

  lemma SettleFlight(s: System, f: nat, s': System)
    requires Inv(s) && Step(s, Settle(f), s') && Grows(s.past, s'.past)
    ensures FlightOk(s', f)
  {
    var flight := s.flights[f];
    assert FlightOk(s, f);
    SeenGrows(s.past, s'.past, flight.id, flight.gen, flight.book, flight.since);
  }

  lemma SettleStep(s: System, f: nat, s': System)
    requires Inv(s) && Step(s, Settle(f), s')
    ensures Inv(s')
  {
    var flight := s.flights[f];
    SettledCache(s, f, s');
    PublishEvolves(Now(s).cache, flight.id, flight.book, flight.gen, flight.stage.content);
    forall id | id in Now(s').cache.spines ensures SpineOk(s'.past, id) { SettleMemo(s, f, s', id); }
    SettleFlight(s, f, s');
    FlightStep(s, f, s'.flights[f].stage, s');
  }

  lemma ForgetStep(s: System, f: nat, s': System)
    requires Inv(s) && Step(s, Forget(f), s')
    ensures Inv(s')
  {
    SameCacheGrows(s, s');
    MemosStay(s, s');
    forall g: nat | g < |s'.flights| ensures FlightOk(s', g) { assert FlightOk(s, g); FlightGrows(s, s', g); }
    forall t: nat | t < |s'.callers| ensures CallerOk(s', t) { CallerGrows(s, s', t); }
    forall t: nat, g: nat | t < |s'.callers| && g < |s'.flights| ensures JoinOk(s', t, g) { JoinGrows(s, s', t, g); }
  }

  lemma StepKeepsInv(s: System, ev: Event, s': System)
    requires Inv(s) && Step(s, ev, s')
    ensures Inv(s')
  {
    match ev
    case Add(book) => MemosAreCached(s); AddEvolves(Now(s).cache, book); CacheStep(s, s');
    case Remove(id) => MemosAreCached(s); RemoveEvolves(Now(s).cache, id); CacheStep(s, s');
    case Write(db) => SameCacheGrows(s, s'); CacheStep(s, s');
    case Call(t, id) => CallerStep(s, t, Calling(id, |s.past|), s');
    case Look(t) => LookStep(s, t, s');
    case Join(t) => JoinStep(s, t, s');
    case Receive(t) => ReceiveStep(s, t, s');
    case Leave(t) => CallerStep(s, t, Idle, s');
    case Check(f) => CheckStep(s, f, s');
    case Read(f, ok) => ReadStep(s, f, ok, s');
    case Settle(f) => SettleStep(s, f, s');
    case Forget(f) => ForgetStep(s, f, s');
  }

  lemma MemosAreCached(s: System)
    requires Inv(s)
    ensures forall id :: id in Now(s).cache.spines ==> id in Now(s).cache.byID
  {
    forall id | id in Now(s).cache.spines ensures id in Now(s).cache.byID { assert SpineOk(s.past, id); }
  }

  // ---------------------------------------------------------------- every run

  ghost predicate StepAt(states: seq<System>, events: seq<Event>, i: nat)
    requires i < |events| < |states|
  {
    Step(states[i], events[i], states[i + 1])
  }

  ghost predicate IsRun(states: seq<System>, events: seq<Event>) {
    && |states| == |events| + 1
    && Initial(states[0])
    && forall i :: 0 <= i < |events| ==> StepAt(states, events, i)
  }

  lemma {:induction false} RunKeepsInv(states: seq<System>, events: seq<Event>, n: nat)
    requires IsRun(states, events) && n < |states|
    ensures Inv(states[n])
  {
    if n > 0 {
      RunKeepsInv(states, events, n - 1);
      assert StepAt(states, events, n - 1);
      StepKeepsInv(states[n - 1], events[n - 1], states[n]);
    }
  }

  /** The history variable is the run itself. */
  lemma {:induction false} PastIsTheRun(states: seq<System>, events: seq<Event>, n: nat, k: nat)
    requires IsRun(states, events) && k <= n < |states|
    ensures |states[n].past| == n + 1 && |states[k].past| == k + 1 && states[n].past[k] == Now(states[k])
  {
    if k < n {
      PastIsTheRun(states, events, n - 1, k);
      PastIsTheRun(states, events, n - 1, n - 1);
      assert StepAt(states, events, n - 1);
    } else if n > 0 {
      PastIsTheRun(states, events, n - 1, n - 1);
      assert StepAt(states, events, n - 1);
    }
  }

  /** After any sequence of operations the order is what a rebuild from scratch yields. */
  lemma OrderEqualsRebuild(states: seq<System>, events: seq<Event>, n: nat, rebuilt: seq<Id>)
    requires IsRun(states, events) && n < |states|
    requires states[n].past != [] && Listing(Now(states[n]).cache.byID, rebuilt)
    ensures Now(states[n]).cache.order == rebuilt
  {
    RunKeepsInv(states, events, n);
    ListingIsUnique(Now(states[n]).cache.byID, Now(states[n]).cache.order, rebuilt);
  }

  /** A memoized spine belongs to a cached book and carries the record's own JSON, or what the database
      held at an instant since which the book was neither added again nor removed. */
  lemma MemoIsFresh(states: seq<System>, events: seq<Event>, n: nat, id: Id)
    requires IsRun(states, events) && n < |states|
    requires states[n].past != [] && id in Now(states[n]).cache.spines
    ensures id in Now(states[n]).cache.byID
    ensures var c := Now(states[n]).cache;
            match c.spines[id]
            case FromRecord(json) => json == c.byID[id].spineJson
            case FromStore(json, at) =>
              && at <= n && states[at].past != [] && id in Now(states[at]).db && Now(states[at]).db[id] == json
              && forall k :: at <= k <= n ==> states[k].past != [] && Current(Now(states[k]).cache, id, Gen(c, id))
  {
    RunKeepsInv(states, events, n);
    var s := states[n];
    assert SpineOk(s.past, id);
    PastIsTheRun(states, events, n, 0);
    var spine := Now(s).cache.spines[id];
    if spine.FromStore? {
      forall k | spine.readAt <= k <= n
        ensures states[k].past != [] && Now(states[k]) == s.past[k]
      {
        PastIsTheRun(states, events, n, k);
      }
    }
  }

  /** What `GetSpine` returns was true of the cache at an instant between its call and its return: the
      memo at that instant, or a book that was not there. */
  lemma ReturnIsLinearizable(states: seq<System>, events: seq<Event>, n: nat, t: nat)
    requires IsRun(states, events) && n < |states| && t < |states[n].callers| && states[n].callers[t].Returned?
    ensures var p := states[n].callers[t];
            p.start <= p.at <= n && states[p.at].past != [] && Answers(Now(states[p.at]).cache, p.id, p.result)
  {
    RunKeepsInv(states, events, n);
    PastIsTheRun(states, events, n, 0);
    assert CallerOk(states[n], t);
    PastIsTheRun(states, events, n, states[n].callers[t].at);
  }

  /** A failed load is reported only to callers whose book still had, at the later of their look and the
      failure, the generation whose load failed. */
  lemma FailuresAreCurrent(states: seq<System>, events: seq<Event>, n: nat, t: nat)
    requires IsRun(states, events) && n < |states| && t < |states[n].callers| && states[n].callers[t].Waiting?
    requires states[n].callers[t].flight < |states[n].flights|
    requires states[n].flights[states[n].callers[t].flight].stage.Ended?
    requires states[n].flights[states[n].callers[t].flight].stage.result.Failed?
    ensures var p := states[n].callers[t];
            var at := Max(p.at, states[n].flights[p.flight].stage.at);
            at <= n && states[at].past != [] && Current(Now(states[at]).cache, p.id, p.gen)
  {
    RunKeepsInv(states, events, n);
    var p := states[n].callers[t];
    PastIsTheRun(states, events, n, 0);
    assert CallerOk(states[n], t) && FlightOk(states[n], p.flight);
    PastIsTheRun(states, events, n, Max(p.at, states[n].flights[p.flight].stage.at));
  }

  /** At most one load per book generation is under way. */
  lemma OneLoadPerGeneration(states: seq<System>, events: seq<Event>, n: nat, f: nat, g: nat)
    requires IsRun(states, events) && n < |states| && f < |states[n].flights| && g < |states[n].flights|
    requires states[n].flights[f].id == states[n].flights[g].id && states[n].flights[f].gen == states[n].flights[g].gen
    requires !states[n].flights[f].stage.Ended? && !states[n].flights[g].stage.Ended?
    ensures f == g
  {
    RunKeepsInv(states, events, n);
    assert FlightOk(states[n], f) && FlightOk(states[n], g);
  }

  /** The record comparison of `spineLoadStateLocked` never decides: the generation already tells. */
  lemma RecordCheckIsRedundant(states: seq<System>, events: seq<Event>, n: nat, f: nat)
    requires IsRun(states, events) && n < |states| && f < |states[n].flights| && states[n].past != []
    requires Current(Now(states[n]).cache, states[n].flights[f].id, states[n].flights[f].gen)
    ensures Now(states[n]).cache.byID[states[n].flights[f].id] == states[n].flights[f].book
  {
    RunKeepsInv(states, events, n);
    assert FlightOk(states[n], f);
  }

  // ---------------------------------------------------------------- what the operations achieve

  ghost predicate Touches(ev: Event, id: Id) {
    (ev.Add? && ev.book.id == id) || (ev.Remove? && ev.id == id)
  }

  /** The record that the last `Add` since the start put in place, if no `Remove` followed. */
  ghost function LastRecord(byID: map<Id, Book>, events: seq<Event>, id: Id): Option<Book> {
    if events == [] then if id in byID then Some(byID[id]) else None
    else
      var last := events[|events| - 1];
      if !Touches(last, id) then LastRecord(byID, events[..|events| - 1], id)
      else if last.Add? then Some(last.book) else None
  }

  lemma CacheHolds(states: seq<System>, events: seq<Event>, n: nat, id: Id)
    requires IsRun(states, events) && n < |events|
    ensures states[n].past != [] && states[n + 1].past != []
    ensures var byID, byID' := Now(states[n]).cache.byID, Now(states[n + 1]).cache.byID;
            if !Touches(events[n], id) then (id in byID' <==> id in byID) && (id in byID ==> byID'[id] == byID[id])
            else if events[n].Add? then id in byID' && byID'[id] == events[n].book
            else id !in byID'
  {
    hide Listing, Placed, WithoutId;
    PastIsTheRun(states, events, n, n);
    assert StepAt(states, events, n);
  }

  /** Exactly the books whose last change was an `Add` are cached, each with the record of that `Add`. */
  lemma {:induction false} CacheHoldsTheLastAdd(states: seq<System>, events: seq<Event>, n: nat, id: Id)
    requires IsRun(states, events) && n < |states|
    ensures states[0].past != [] && states[n].past != []
    ensures var byID := Now(states[n]).cache.byID;
            (if id in byID then Some(byID[id]) else None) == LastRecord(Now(states[0]).cache.byID, events[..n], id)
  {
    PastIsTheRun(states, events, n, 0);
    if n > 0 {
      CacheHoldsTheLastAdd(states, events, n - 1, id);
      CacheHolds(states, events, n - 1, id);
      assert events[..n][..n - 1] == events[..n - 1];
    }
  }

  lemma MemoStays(states: seq<System>, events: seq<Event>, n: nat, id: Id)
    requires IsRun(states, events) && n < |events| && !Touches(events[n], id)
    requires states[n].past != [] && id in Now(states[n]).cache.spines
    ensures states[n + 1].past != [] && id in Now(states[n + 1]).cache.spines
    ensures Now(states[n + 1]).cache.spines[id] == Now(states[n]).cache.spines[id]
  {
    hide Listing, Placed, WithoutId;
    PastIsTheRun(states, events, n, n);
    assert StepAt(states, events, n);
  }

  lemma {:induction false} MemoServes(states: seq<System>, events: seq<Event>, m: nat, n: nat, id: Id)
    requires IsRun(states, events) && m <= n < |states|
    requires states[m].past != [] && id in Now(states[m]).cache.spines
    requires forall k :: m <= k < n ==> !Touches(events[k], id)
    ensures states[n].past != [] && id in Now(states[n]).cache.spines
    ensures Now(states[n]).cache.spines[id] == Now(states[m]).cache.spines[id]
  {
    if m < n {
      MemoServes(states, events, m, n - 1, id);
      MemoStays(states, events, n - 1, id);
    }
  }

  /** A load that read its book while nobody added or removed it delivers what it read, unless another
      load of the book was faster, and then it delivers that one's content. */
  lemma LoadTakesEffect(states: seq<System>, events: seq<Event>, m: nat, f: nat)
    requires IsRun(states, events) && m < |events| && events[m] == Settle(f) && states[m].past != []
    requires f < |states[m].flights| && states[m].flights[f].stage.Holding?
    requires Current(Now(states[m]).cache, states[m].flights[f].id, states[m].flights[f].gen)
    ensures states[m + 1].past != [] && f < |states[m + 1].flights|
    ensures var flight, before, after := states[m].flights[f], Now(states[m]).cache.spines, Now(states[m + 1]).cache.spines;
            var id, content := flight.id, flight.stage.content;
            if id in before || content.Some? then
              && id in after && after[id] == (if id in before then before[id] else content.value)
              && states[m + 1].flights[f].stage == Ended(Found(after[id]), m + 1)
            else id !in after && states[m + 1].flights[f].stage == Ended(Failed, m + 1)
  {
    RunKeepsInv(states, events, m);
    assert FlightOk(states[m], f);
    hide Listing, Placed, WithoutId;
    PastIsTheRun(states, events, m, m);
    assert StepAt(states, events, m);
  }

  /** One successful load answers every look at the book until the book is added again or removed. */
  lemma OneLoadServesUntilTheBookChanges(states: seq<System>, events: seq<Event>, m: nat, f: nat, n: nat, t: nat)
    requires IsRun(states, events) && m < n < |events| && events[m] == Settle(f) && events[n] == Look(t)
    requires states[m].past != [] && f < |states[m].flights| && states[m].flights[f].stage.Holding?
    requires states[m].flights[f].stage.content.Some?
    requires Current(Now(states[m]).cache, states[m].flights[f].id, states[m].flights[f].gen)
    requires forall k :: m < k < n ==> !Touches(events[k], states[m].flights[f].id)
    requires t < |states[n].callers| && states[n].callers[t].Calling? && states[n].callers[t].id == states[m].flights[f].id
    ensures f < |states[m + 1].flights| && states[m + 1].flights[f].stage.Ended? && t < |states[n + 1].callers|
    ensures states[n + 1].callers[t].Returned?
    ensures states[n + 1].callers[t].result == states[m + 1].flights[f].stage.result
    ensures states[n + 1].callers[t].result.Found?
  {
    LoadTakesEffect(states, events, m, f);
    MemoServes(states, events, m + 1, n, states[m].flights[f].id);
    PastIsTheRun(states, events, n, n);
    assert StepAt(states, events, n);
  }

  /** A load of the book failed to read or parse it. */
  ghost predicate ReadFailed(states: seq<System>, events: seq<Event>, n: nat, id: Id)
    requires n <= |events| < |states|
  {
    exists i :: 0 <= i < n && FailsAt(states[i], events[i], id)
  }

  ghost predicate FailsAt(s: System, ev: Event, id: Id) {
    ev.Read? && !ev.ok && ev.f < |s.flights| && s.flights[ev.f].id == id
  }

  ghost predicate LoadsExplained(states: seq<System>, events: seq<Event>, n: nat)
    requires n <= |events| < |states|
  {
    forall f: nat :: f < |states[n].flights| && Failing(states[n].flights[f].stage) ==>
      ReadFailed(states, events, n, states[n].flights[f].id)
  }

  ghost predicate ReportsExplained(states: seq<System>, events: seq<Event>, n: nat)
    requires n <= |events| < |states|
  {
    forall t: nat :: t < |states[n].callers| && states[n].callers[t].Returned? && states[n].callers[t].result.Failed? ==>
      ReadFailed(states, events, n, states[n].callers[t].id)
  }

  predicate Failing(e: Stage) {
    e == Holding(None) || (e.Ended? && e.result.Failed?)
  }

  /** Nobody is told of a failure unless a read of that book failed. */
  lemma {:induction false} OnlyFailedReadsAreReported(states: seq<System>, events: seq<Event>, n: nat)
    requires IsRun(states, events) && n < |states|
    ensures LoadsExplained(states, events, n) && ReportsExplained(states, events, n)
  {
    if n > 0 {
      OnlyFailedReadsAreReported(states, events, n - 1);
      RunKeepsInv(states, events, n - 1);
      assert StepAt(states, events, n - 1);
      LoadsStep(states, events, n);
      ReportsStep(states, events, n);
    }
  }

  lemma LoadsStep(states: seq<System>, events: seq<Event>, n: nat)
    requires 0 < n <= |events| < |states| && LoadsExplained(states, events, n - 1)
    requires Step(states[n - 1], events[n - 1], states[n])
    ensures LoadsExplained(states, events, n)
  {
    hide Listing, AfterAdd, AfterRemove;
    var s, ev, s' := states[n - 1], events[n - 1], states[n];
    forall f: nat | f < |s'.flights| && Failing(s'.flights[f].stage)
      ensures ReadFailed(states, events, n, s'.flights[f].id)
    {
      assert ev == Read(f, false) ==> FailsAt(s, ev, s'.flights[f].id);
    }
  }

  lemma ReportsStep(states: seq<System>, events: seq<Event>, n: nat)
    requires 0 < n <= |events| < |states|
    requires LoadsExplained(states, events, n - 1) && ReportsExplained(states, events, n - 1)
    requires Inv(states[n - 1]) && Step(states[n - 1], events[n - 1], states[n])
    ensures ReportsExplained(states, events, n)
  {
    hide Listing, AfterAdd, AfterRemove, CacheOk, Seen, Settled, Publish, LoadState, FlightOk, SpineOk, JoinOk, ActiveOk;
    var s, ev, s' := states[n - 1], events[n - 1], states[n];
    forall t: nat | t < |s'.callers| && s'.callers[t].Returned? && s'.callers[t].result.Failed?
      ensures ReadFailed(states, events, n, s'.callers[t].id)
    {
      assert CallerOk(s, t);
    }
  }

  // ---------------------------------------------------------------- the cache object

  function Indexed(summaries: seq<Book>): map<Id, Book> {
    if summaries == [] then map[]
    else
      var last := summaries[|summaries| - 1];
      Indexed(summaries[..|summaries| - 1])[last.id := last]
  }

  function IdsOf(summaries: seq<Book>): (ids: seq<Id>)
    ensures |ids| == |summaries| && forall i :: 0 <= i < |ids| ==> ids[i] == summaries[i].id
  {
    if summaries == [] then []
    else IdsOf(summaries[..|summaries| - 1]) + [summaries[|summaries| - 1].id]
  }

  predicate Precedes(a: Book, b: Book) {
    a.id != b.id && Rank(a.title, a.id, b.title, b.id) < 0
  }

  lemma {:induction false} IndexedByPosition(summaries: seq<Book>, i: nat)
    requires forall i, j :: 0 <= i < j < |summaries| ==> Precedes(summaries[i], summaries[j])
    requires i < |summaries|
    ensures summaries[i].id in Indexed(summaries) && Indexed(summaries)[summaries[i].id] == summaries[i]
  {
    var n := |summaries| - 1;
    if i < n {
      IndexedByPosition(summaries[..n], i);
      assert Precedes(summaries[i], summaries[n]);
    }
  }

  lemma {:induction false} IndexedIsListed(summaries: seq<Book>)
    ensures Complete(Indexed(summaries), IdsOf(summaries))
  {
    if summaries != [] {
      IndexedIsListed(summaries[..|summaries| - 1]);
    }
  }

  /** Rows with distinct IDs in the order of the list query make a valid cache. */
  lemma StartupLists(summaries: seq<Book>)
    requires forall i, j :: 0 <= i < j < |summaries| ==> Precedes(summaries[i], summaries[j])
    ensures Listing(Indexed(summaries), IdsOf(summaries))
  {
    var byID, order := Indexed(summaries), IdsOf(summaries);
    IndexedIsListed(summaries);
    forall i | 0 <= i < |order| ensures order[i] in byID && byID[order[i]] == summaries[i] {
      IndexedByPosition(summaries, i);
    }
    forall i, j | 0 <= i < j < |order| ensures InOrder(byID, order[i], order[j]) {
      assert Precedes(summaries[i], summaries[j]);
    }
  }

  class BookCache {
    var byID: map<Id, Book>
    var order: seq<Id>
    var generations: map<Id, nat>
    var nextGeneration: nat
    var spines: map<Id, Spine>

    function State(): Cache
      reads this
    {
      Cache(byID, order, generations, nextGeneration, spines)
    }

    /** The cache built at startup from the rows of the list query. */
    constructor (summaries: seq<Book>)
      ensures byID == Indexed(summaries) && order == IdsOf(summaries)
      ensures generations == map[] && spines == map[] && nextGeneration == 0
    {
      byID, order, generations, nextGeneration, spines := map[], [], map[], 0, map[];
      new;
      for k := 0 to |summaries|
        invariant byID == Indexed(summaries[..k]) && order == IdsOf(summaries[..k])
        invariant generations == map[] && spines == map[] && nextGeneration == 0
      {
        assert summaries[..k + 1][..k] == summaries[..k];
        byID := byID[summaries[k].id := summaries[k]];
        order := order + [summaries[k].id];
      }
      assert summaries[..|summaries|] == summaries;
    }

    /** `slices.BinarySearchFunc` over the order; valid bounds even for a cache with orphaned IDs. */
    method InsertPosition(title: Bytes, id: Id) returns (pos: nat)
      ensures pos == Slot(byID, order, title, id)
    {
      hide Probe;
      var i, j := 0, |order|;
      while i < j
        invariant 0 <= i <= j <= |order|
        invariant i > 0 ==> Probe(byID, order[i - 1], title, id) < 0
        invariant j < |order| ==> Probe(byID, order[j], title, id) >= 0
        invariant Slot(byID, order, title, id) == Search(byID, order, title, id, i, j)
      {
        var h := (i + j) / 2;
        if Probe(byID, order[h], title, id) < 0 {
          i := h + 1;
        } else {
          j := h;
        }
      }
      return i;
    }

    method RemoveFromOrder(title: Bytes, id: Id)
      modifies this`order
      ensures order == WithoutId(byID, old(order), title, id)
    {
      var pos := InsertPosition(title, id);
      if pos < |order| && order[pos] == id {
        order := order[..pos] + order[pos + 1..];
      }
    }

    method Place(b: Book)
      modifies this`order
      ensures order == Placed(byID, old(order), b)
    {
      if b.id in byID {
        RemoveFromOrder(byID[b.id].title, b.id);
      }
      var pos := InsertPosition(b.title, b.id);
      order := order[..pos] + [b.id] + order[pos..];
    }

    method Add(b: Book)
      modifies this
      ensures State() == AfterAdd(old(State()), b)
    {
      hide Placed;
      nextGeneration := nextGeneration + 1;
      generations := generations[b.id := nextGeneration];
      if b.id in byID && byID[b.id].title == b.title {
        byID := byID[b.id := b];
        spines := spines - {b.id};
        return;
      }
      Place(b);
      byID := byID[b.id := b];
      spines := spines - {b.id};
    }

    method Remove(id: Id)
      modifies this
      ensures State() == AfterRemove(old(State()), id)
    {
      if id !in byID {
        return;
      }
      RemoveFromOrder(byID[id].title, id);
      nextGeneration := nextGeneration + 1;
      generations := generations - {id};
      byID := byID - {id};
      spines := spines - {id};
    }

    /** `ListSummaries`: every cached book once, in order. */
    method ListSummaries() returns (out: seq<Book>)
      requires Listing(byID, order)
      ensures |out| == |order| && forall i :: 0 <= i < |out| ==> order[i] in byID && out[i] == byID[order[i]]
    {
      out := [];
      for k := 0 to |order|
        invariant |out| == k && forall i :: 0 <= i < k ==> order[i] in byID && out[i] == byID[order[i]]
      {
        if order[k] in byID {
          out := out + [byID[order[k]]];
        }
      }
    }

    method SpineLoadState(id: Id, book: Book, gen: nat) returns (r: Option<LoadResult>)
      ensures r == LoadState(State(), id, book, gen)
    {
      if id in spines {
        return Some(Found(spines[id]));
      }
      if id !in byID {
        return Some(Missing);
      }
      if (if id in generations then generations[id] else 0) != gen || byID[id] != book {
        return Some(Retry);
      }
      return None;
    }

    /** The publishing section of `loadSpine`. */
    method PublishSpine(id: Id, book: Book, gen: nat, content: Option<Spine>) returns (r: LoadResult)
      modifies this
      ensures (State(), r) == Publish(old(State()), id, book, gen, content)
    {
      var state := SpineLoadState(id, book, gen);
      if state.Some? {
        return state.value;
      }
      if content.None? {
        return Failed;
      }
      spines := spines[id := content.value];
      return Found(content.value);
    }
  }
}
