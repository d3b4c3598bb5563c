/** The commit protocol of internal/api/bookedit.go and internal/api/bookreplace.go. */
module BookEdits {

  // Metadata edits, cover edits, file replacement and deletion.  A book is its EPUB file, its cover
  // sidecar, its database row, its entry in the book cache and the entries derived from the file.
  // Readers hold the read side of a gate, publication and deletion the write side, and a mutex admits
  // one edit at a time.  Every file or database operation may fail, and then has no effect.

  import opened Wrappers

  type Content = seq<int>
  type Hash = int
  type Hasher = Content -> Hash
  type Key = nat

  /** What the row and the cached summary say; every update bumps the version.  A book may have no
      source file. */
  datatype Row = Row(hasFile: bool, hash: Hash, version: nat)

  /** `derived` maps each cached chapter, text or style sheet to the file content it came from. */
  datatype Book = Book(
    file: Option<Content>,
    cover: Option<Content>,
    row: Option<Row>,
    cached: Option<Row>,
    derived: map<Key, Content>
  )

  /** `embed` writes a new EPUB file; `cover` writes a new sidecar.  Metadata edits and replacements
      embed without a cover; cover edits have one, and embed if the book has a file. */
  datatype Plan = Plan(embed: bool, cover: Option<Content>)

  /** An edit under way: the cached summary it started from, the prepared file, the copies to restore.
      `before` and `log` are history: the book as the commit found it, and the operations it has done. */
  datatype Commit = Commit(
    snapshot: Row,
    plan: Plan,
    rewritten: Content,
    backup: Content,
    coverBackup: Option<Content>,
    bad: bool,
    before: Book,
    log: seq<Event>
  )

  datatype Stage = Entered | Saved | Installed | Covered | Recorded | UndoCover | UndoFile | UndoCache | Leaving

  datatype Swap = Refused | RenameFailed | Renamed

  predicate DerivedFromFile(b: Book) {
    forall k :: k in b.derived ==> b.file == Some(b.derived[k])
  }

  /** A book in the cache has one generation: the cached hash is the row's and the file's, and
      everything derived comes from that file. */
  predicate Consistent(b: Book, hash: Hasher) {
    b.cached.Some? ==>
      && b.row == b.cached && (b.cached.value.hasFile <==> b.file.Some?)
      && (b.file.Some? ==> hash(b.file.value) == b.cached.value.hash)
      && DerivedFromFile(b)
  }

  // ---------------------------------------------------------------- the steps of a commit

  /** `checkBookEditSnapshot` under the write gate, then the backup of the cover. */
  function CheckAndSave(b: Book, c: Commit, ok: bool): (Commit, Stage) {
    if b.cached != Some(c.snapshot) || !ok then (c, Leaving) else (c.(coverBackup := b.cover), Saved)
  }

  /** `replaceBookFile`: refused while a reader pins the file; otherwise derived entries are dropped
      before the rename. */
  function Install(b: Book, c: Commit, r: Swap): (Book, Stage) {
    if !c.plan.embed then (b, Installed)
    else
      match r
      case Refused => (b, Leaving)
      case RenameFailed => (b.(derived := map[]), Leaving)
      case Renamed => (b.(derived := map[], file := Some(c.rewritten)), Installed)
  }

  /** A failed cover write may still have replaced the file. */
  function WriteCover(b: Book, c: Commit, ok: bool, torn: bool): (Book, Stage) {
    if c.plan.cover.None? then (b, Covered)
    else if ok then (b.(cover := c.plan.cover), Covered)
    else (if torn then b.(cover := c.plan.cover) else b, UndoCover)
  }

  function NewRow(c: Commit, row: Row, hash: Hasher): Row {
    Row(row.hasFile, if c.plan.embed then hash(c.rewritten) else row.hash, row.version + 1)
  }

  function UpdateRow(b: Book, c: Commit, ok: bool, hash: Hasher): (Book, Stage) {
    if !ok || b.row.None? then (b, UndoCover) else (b.(row := Some(NewRow(c, b.row.value, hash))), Recorded)
  }

  /** `refreshBookCache`. */
  function Refresh(b: Book, ok: bool): Book {
    if ok then b.(cached := b.row) else b.(cached := None)
  }

  /** `rollbackBookEdit`, first the cover, then the file, then the cache. */
  function RestoreCover(b: Book, c: Commit, ok: bool): (Book, Commit) {
    if c.plan.cover.None? then (b, c)
    else if ok then (b.(cover := c.coverBackup), c)
    else (b, c.(bad := true))
  }

  function RestoreFile(b: Book, c: Commit, ok: bool): (Book, Commit) {
    if !c.plan.embed then (b, c)
    else if ok then (b.(file := Some(c.backup)), c)
    else (b, c.(bad := true))
  }

  function DropIfBad(b: Book, c: Commit): Book {
    if c.bad then b.(cached := None) else b
  }

  // ---------------------------------------------------------------- the protocol

  datatype Phase =
    | Idle
    | Reading(row: Row, seen: seq<Content>)
    | Chosen(snapshot: Row, plan: Plan)
    | Prepared(commit: Commit)
    | Committing(commit: Commit, stage: Stage)
    | Deleting(step: nat, rowGone: bool, filesGone: bool, before: Book)

  datatype System = System(book: Book, threads: seq<Phase>)

  datatype Event =
    | StartRead
    | ReadDerived(k: Key)
    | Fill(k: Key)
    | StartEdit(plan: Plan)
    | Prepare(rewritten: Content)
    | StartCommit
    | DoCheck(ok: bool)
    | DoInstall(swap: Swap)
    | DoCover(ok: bool, torn: bool)
    | DoRow(ok: bool)
    | DoRefresh(ok: bool)
    | DoRestoreCover(ok: bool)
    | DoRestoreFile(ok: bool)
    | DoDrop
    | StartDelete
    | DeleteStep(ok: bool)
    | Leave

  predicate IsWriter(p: Phase) {
    p.Committing? || p.Deleting?
  }

  predicate IsEditor(p: Phase) {
    p.Chosen? || p.Prepared? || p.Committing?
  }

  ghost predicate NoWriter(threads: seq<Phase>) {
    forall u :: 0 <= u < |threads| ==> !IsWriter(threads[u])
  }

  ghost predicate NoReader(threads: seq<Phase>) {
    forall u :: 0 <= u < |threads| ==> !threads[u].Reading?
  }

  ghost predicate NoEditor(threads: seq<Phase>) {
    forall u :: 0 <= u < |threads| ==> !IsEditor(threads[u])
  }

  /** Deletion: the row, the cache entry, then the derived entries and the files. */
  function DeleteNext(b: Book, step: nat, ok: bool): (Book, nat) {
    if step == 0 then (if ok then (b.(row := None), 1) else (b, 3))
    else if step == 1 then (b.(cached := None), 2)
    else if step == 2 then (b.(derived := map[], file := if ok then None else b.file, cover := if ok then None else b.cover), 3)
    else (b, 3)
  }

  function Logged(c: Commit, ev: Event): Commit {
    c.(log := c.log + [ev])
  }

  /** One step of the thread in phase `p`, given what the others hold. */
  ghost predicate Next(s: System, p: Phase, ev: Event, hash: Hasher, b': Book, p': Phase) {
    var b := s.book;
    match ev
    case StartRead => p == Idle && NoWriter(s.threads) && b.cached.Some? && b' == b && p' == Reading(b.cached.value, [])
    case ReadDerived(k) => p.Reading? && k in b.derived && b' == b && p' == p.(seen := p.seen + [b.derived[k]])
    case Fill(k) =>
      && p.Reading? && b.file.Some?
      && b' == b.(derived := b.derived[k := b.file.value]) && p' == p.(seen := p.seen + [b.file.value])
    case StartEdit(plan) =>
      && p == Idle && NoEditor(s.threads) && b.cached.Some? && (plan.embed ==> b.cached.value.hasFile)
      && b' == b && p' == Chosen(b.cached.value, plan)
    case Prepare(rewritten) =>
      && p.Chosen? && NoWriter(s.threads) && b.cached == Some(p.snapshot) && (p.plan.embed ==> b.file.Some?) && b' == b
      && p' == Prepared(Commit(p.snapshot, p.plan, rewritten, if p.plan.embed then b.file.value else [], None, false, b, []))
    case StartCommit =>
      && p.Prepared? && NoWriter(s.threads) && NoReader(s.threads)
      && b' == b && p' == Committing(p.commit.(before := b, log := []), Entered)
    case DoCheck(ok) =>
      && p.Committing? && p.stage == Entered && b' == b
      && var (c, stage) := CheckAndSave(b, p.commit, ok); p' == Committing(Logged(c, ev), stage)
    case DoInstall(swap) =>
      && p.Committing? && p.stage == Saved
      && var (b1, stage) := Install(b, p.commit, swap); b' == b1 && p' == Committing(Logged(p.commit, ev), stage)
    case DoCover(ok, torn) =>
      && p.Committing? && p.stage == Installed
      && var (b1, stage) := WriteCover(b, p.commit, ok, torn); b' == b1 && p' == Committing(Logged(p.commit, ev), stage)
    case DoRow(ok) =>
      && p.Committing? && p.stage == Covered
      && var (b1, stage) := UpdateRow(b, p.commit, ok, hash); b' == b1 && p' == Committing(Logged(p.commit, ev), stage)
    case DoRefresh(ok) =>
      p.Committing? && p.stage == Recorded && b' == Refresh(b, ok) && p' == Committing(Logged(p.commit, ev), Leaving)
    case DoRestoreCover(ok) =>
      && p.Committing? && p.stage == UndoCover
      && var (b1, c) := RestoreCover(b, p.commit, ok); b' == b1 && p' == Committing(Logged(c, ev), UndoFile)
    case DoRestoreFile(ok) =>
      && p.Committing? && p.stage == UndoFile
      && var (b1, c) := RestoreFile(b, p.commit, ok); b' == b1 && p' == Committing(Logged(c, ev), UndoCache)
    case DoDrop =>
      p.Committing? && p.stage == UndoCache && b' == DropIfBad(b, p.commit) && p' == Committing(Logged(p.commit, ev), Leaving)
    case StartDelete => p == Idle && NoWriter(s.threads) && NoReader(s.threads) && b' == b && p' == Deleting(0, false, false, b)
    case DeleteStep(ok) =>
      && p.Deleting? && var (b1, step) := DeleteNext(b, p.step, ok);
         b' == b1 && p' == Deleting(step, p.rowGone || (p.step == 0 && ok), p.filesGone || (p.step == 2 && ok), p.before)
    case Leave =>
      && (p.Reading? || p.Chosen? || p.Prepared? || (p.Committing? && p.stage == Leaving) || (p.Deleting? && p.step == 3))
      && b' == b && p' == Idle
  }

  ghost predicate Step(s: System, t: nat, ev: Event, hash: Hasher, s': System) {
    && t < |s.threads| == |s'.threads| && s'.threads == s.threads[t := s'.threads[t]]
    && Next(s, s.threads[t], ev, hash, s'.book, s'.threads[t])
  }

  ghost predicate Initial(s: System, hash: Hasher) {
    Consistent(s.book, hash) && forall t :: 0 <= t < |s.threads| ==> s.threads[t] == Idle
  }

  // ---------------------------------------------------------------- the invariant

  /** The file the plan leaves, once installed. */
  function NewFile(c: Commit): Option<Content> {
    if c.plan.embed then Some(c.rewritten) else c.before.file
  }

  function NewCover(c: Commit): Option<Content> {
    if c.plan.cover.Some? then c.plan.cover else c.before.cover
  }

  predicate Untouched(c: Commit, b: Book) {
    b.file == c.before.file && b.cover == c.before.cover && b.row == c.before.row
  }

  predicate Applied(c: Commit, b: Book, hash: Hasher) {
    && b.file == NewFile(c) && b.cover == NewCover(c)
    && c.before.row.Some? && b.row == Some(NewRow(c, c.before.row.value, hash))
  }

  /** The operation worked, as far as the plan needs it.  Restoring says nothing about that. */
  predicate Worked(plan: Plan, ev: Event) {
    match ev
    case DoCheck(ok) => ok
    case DoInstall(swap) => plan.embed ==> swap == Renamed
    case DoCover(ok, _) => plan.cover.Some? ==> ok
    case DoRow(ok) => ok
    case DoRefresh(ok) => ok
    case _ => true
  }

  /** The copy was put back, as far as there was one to put back. */
  predicate PutBack(plan: Plan, ev: Event) {
    match ev
    case DoRestoreCover(ok) => plan.cover.Some? ==> ok
    case DoRestoreFile(ok) => plan.embed ==> ok
    case _ => true
  }

  ghost predicate AllWorked(plan: Plan, log: seq<Event>) {
    forall i :: 0 <= i < |log| ==> Worked(plan, log[i])
  }

  /** All worked, but perhaps the reload of the row. */
  ghost predicate AllCommitted(plan: Plan, log: seq<Event>) {
    forall i :: 0 <= i < |log| ==> Worked(plan, log[i]) || log[i].DoRefresh?
  }

  ghost predicate AllPutBack(plan: Plan, log: seq<Event>) {
    forall i :: 0 <= i < |log| ==> PutBack(plan, log[i])
  }

  lemma LogGrows(plan: Plan, log: seq<Event>, ev: Event)
    ensures AllWorked(plan, log + [ev]) <==> AllWorked(plan, log) && Worked(plan, ev)
    ensures AllCommitted(plan, log + [ev]) <==> AllCommitted(plan, log) && (Worked(plan, ev) || ev.DoRefresh?)
    ensures AllPutBack(plan, log + [ev]) <==> AllPutBack(plan, log) && PutBack(plan, ev)
    ensures AllWorked(plan, log) ==> AllCommitted(plan, log)
  {
    hide Worked, PutBack;
    assert (log + [ev])[|log|] == ev;
    assert forall i :: 0 <= i < |log| ==> (log + [ev])[i] == log[i];
  }

  /** How a commit that has the write gate no more to do ends. */
  ghost predicate Settled(c: Commit, b: Book, hash: Hasher) {
    if c.before.cached != Some(c.snapshot) then b == c.before
    else if AllWorked(c.plan, c.log) then Applied(c, b, hash) && b.cached == b.row
    else if AllCommitted(c.plan, c.log) then Applied(c, b, hash) && b.cached.None?
    else if AllPutBack(c.plan, c.log) then Untouched(c, b) && b.cached == c.before.cached
    else b.cached.None?
  }

  /** The commit started on a consistent, cached book whose file it backed up. */
  predicate Started(c: Commit, b: Book, hash: Hasher) {
    && Consistent(c.before, hash) && c.before.cached == Some(c.snapshot)
    && (c.plan.embed ==> c.before.file == Some(c.backup))
    && c.coverBackup == c.before.cover && b.cached == Some(c.snapshot)
  }

  /** Derived entries match the file that is there, or there are none. */
  predicate Swapped(c: Commit, b: Book) {
    if c.plan.embed then b.derived == map[] else b.derived == c.before.derived
  }

  ghost predicate CommitOk(b: Book, c: Commit, stage: Stage, hash: Hasher) {
    match stage
    case Entered => !c.bad && c.log == [] && b == c.before && Consistent(b, hash)
                    && (c.plan.embed && b.cached == Some(c.snapshot) ==> b.file == Some(c.backup))
    case Saved => !c.bad && AllWorked(c.plan, c.log) && AllPutBack(c.plan, c.log) && Started(c, b, hash) && b == c.before
    case Installed =>
      !c.bad && AllWorked(c.plan, c.log) && AllPutBack(c.plan, c.log) && Started(c, b, hash) && Swapped(c, b)
      && b.file == NewFile(c) && b.cover == c.before.cover && b.row == c.before.row
    case Covered =>
      !c.bad && AllWorked(c.plan, c.log) && AllPutBack(c.plan, c.log) && Started(c, b, hash) && Swapped(c, b)
      && b.file == NewFile(c) && b.cover == NewCover(c) && b.row == c.before.row
    case Recorded => AllWorked(c.plan, c.log) && AllPutBack(c.plan, c.log) && Started(c, b, hash) && Swapped(c, b) && Applied(c, b, hash)
    case UndoCover =>
      !c.bad && !AllCommitted(c.plan, c.log) && AllPutBack(c.plan, c.log) && Started(c, b, hash) && Swapped(c, b) && b.file == NewFile(c) && b.row == c.before.row
      && (c.plan.cover.None? ==> b.cover == c.before.cover)
    case UndoFile =>
      !AllCommitted(c.plan, c.log) && (c.bad <==> !AllPutBack(c.plan, c.log)) && Started(c, b, hash) && Swapped(c, b) && b.file == NewFile(c)
      && b.row == c.before.row && (!c.bad ==> b.cover == c.before.cover)
    case UndoCache =>
      !AllCommitted(c.plan, c.log) && (c.bad <==> !AllPutBack(c.plan, c.log)) && Started(c, b, hash) && Swapped(c, b) && b.row == c.before.row
      && (!c.bad ==> Untouched(c, b))
    case Leaving => Consistent(b, hash) && Settled(c, b, hash)
  }

  predicate DeleteOk(b: Book, p: Phase, hash: Hasher)
    requires p.Deleting?
  {
    if p.step == 0 then !p.rowGone && !p.filesGone && b == p.before && Consistent(b, hash)
    else if p.step == 1 then p.rowGone && !p.filesGone && b == p.before.(row := None)
    else if p.step == 2 then p.rowGone && !p.filesGone && b == p.before.(row := None, cached := None)
    else p.step == 3 && Consistent(b, hash) && Deleted(b, p)
  }

  /** How a deletion ends: nothing happened, or the book is gone, with its files if they could be removed. */
  predicate Deleted(b: Book, p: Phase)
    requires p.Deleting?
  {
    if !p.rowGone then b == p.before
    else
      && b.row.None? && b.cached.None? && b.derived == map[]
      && b.file == (if p.filesGone then None else p.before.file) && b.cover == (if p.filesGone then None else p.before.cover)
  }

  ghost predicate PhaseOk(b: Book, p: Phase, hash: Hasher) {
    match p
    case Idle => true
    case Reading(row, seen) =>
      && b.cached == Some(row)
      && forall i :: 0 <= i < |seen| ==> b.file == Some(seen[i])
    case Chosen(_, _) => true
    case Prepared(c) => !c.bad && (c.plan.embed && b.cached == Some(c.snapshot) ==> b.file == Some(c.backup))
    case Committing(c, stage) => CommitOk(b, c, stage, hash)
    case Deleting(_, _, _, _) => DeleteOk(b, p, hash)
  }

  predicate Compatible(p: Phase, q: Phase) {
    && !(IsWriter(p) && (IsWriter(q) || q.Reading?)) && !(IsWriter(q) && p.Reading?)
    && !(IsEditor(p) && IsEditor(q))
  }

  ghost predicate ThreadOk(s: System, t: nat, hash: Hasher)
    requires t < |s.threads|
  {
    PhaseOk(s.book, s.threads[t], hash)
  }

  predicate PairOk(s: System, t: nat, u: nat)
    requires t < |s.threads| && u < |s.threads|
  {
    t != u ==> Compatible(s.threads[t], s.threads[u])
  }

  ghost predicate Inv(s: System, hash: Hasher) {
    && (forall t: nat :: t < |s.threads| ==> ThreadOk(s, t, hash))
    && (forall t: nat, u: nat :: t < |s.threads| && u < |s.threads| ==> PairOk(s, t, u))
    && (NoWriter(s.threads) ==> Consistent(s.book, hash))
  }

  // ---------------------------------------------------------------- one step

  /** The commit's own steps keep what is known of its stage. */
  lemma CommitStep(b: Book, c: Commit, stage: Stage, ev: Event, hash: Hasher, s: System, b': Book, p': Phase)
    requires s.book == b && CommitOk(b, c, stage, hash) && Next(s, Committing(c, stage), ev, hash, b', p')
    ensures PhaseOk(b', p', hash)
    ensures b' != b ==> b'.cached == b.cached || b'.cached == b'.row || b'.cached.None?
    ensures p'.Idle? ==> Consistent(b', hash)
    ensures p'.Committing? || p'.Idle?
  {
    hide Worked, PutBack, AllWorked, AllCommitted, AllPutBack;
    LogGrows(c.plan, c.log, ev);
    EventWorked(c.plan, ev);
    NothingLogged(c.plan);
  }

  lemma NothingLogged(plan: Plan)
    ensures AllWorked(plan, []) && AllCommitted(plan, []) && AllPutBack(plan, [])
  {
  }

  lemma EventWorked(plan: Plan, ev: Event)
    ensures ev.DoCheck? ==> (Worked(plan, ev) <==> ev.ok) && PutBack(plan, ev)
    ensures ev.DoInstall? ==> (Worked(plan, ev) <==> !plan.embed || ev.swap == Renamed) && PutBack(plan, ev)
    ensures ev.DoCover? ==> (Worked(plan, ev) <==> plan.cover.None? || ev.ok) && PutBack(plan, ev)
    ensures ev.DoRow? || ev.DoRefresh? ==> (Worked(plan, ev) <==> ev.ok) && PutBack(plan, ev)
    ensures ev.DoRestoreCover? ==> Worked(plan, ev) && (PutBack(plan, ev) <==> plan.cover.None? || ev.ok)
    ensures ev.DoRestoreFile? ==> Worked(plan, ev) && (PutBack(plan, ev) <==> !plan.embed || ev.ok)
    ensures ev.DoDrop? ==> Worked(plan, ev) && PutBack(plan, ev)
  {
  }

  lemma DeletingStep(b: Book, p: Phase, ev: Event, hash: Hasher, s: System, b': Book, p': Phase)
    requires s.book == b && p.Deleting? && DeleteOk(b, p, hash) && Next(s, p, ev, hash, b', p')
    ensures PhaseOk(b', p', hash) && (p'.Idle? || p'.Deleting?)
    ensures p'.Idle? ==> Consistent(b', hash)
    ensures (b'.cached == b.cached && b'.file == b.file) || b'.cached.None?
  {
  }

  /** Steps of a thread that holds no write gate before it. */
  lemma OpenStep(s: System, p: Phase, ev: Event, hash: Hasher, b': Book, p': Phase)
    requires PhaseOk(s.book, p, hash) && !IsWriter(p) && Next(s, p, ev, hash, b', p')
    requires NoWriter(s.threads) ==> Consistent(s.book, hash)
    requires p.Reading? ==> NoWriter(s.threads)
    ensures PhaseOk(b', p', hash)
    ensures b'.cached == s.book.cached && b'.file == s.book.file && b'.row == s.book.row
    ensures b' != s.book ==> p.Reading?
    ensures NoWriter(s.threads) ==> Consistent(b', hash)
    ensures IsWriter(p') ==> NoWriter(s.threads) && NoReader(s.threads)
    ensures p'.Reading? ==> p.Reading? || NoWriter(s.threads)
    ensures IsEditor(p') ==> IsEditor(p) || NoEditor(s.threads)
  {
  }

  lemma NewPhase(s: System, t: nat, ev: Event, hash: Hasher, s': System)
    requires Inv(s, hash) && Step(s, t, ev, hash, s')
    ensures PhaseOk(s'.book, s'.threads[t], hash)
    ensures IsWriter(s.threads[t]) && !IsWriter(s'.threads[t]) ==> Consistent(s'.book, hash)
    ensures !IsWriter(s.threads[t]) && NoWriter(s.threads) ==> Consistent(s'.book, hash)
  {
    assert ThreadOk(s, t, hash);
    match s.threads[t]
    case Committing(c, stage) => CommitStep(s.book, c, stage, ev, hash, s, s'.book, s'.threads[t]);
    case Deleting(_, _, _, _) => DeletingStep(s.book, s.threads[t], ev, hash, s, s'.book, s'.threads[t]);
    case _ => ReaderExcludesWriters(s, t, hash); OpenStep(s, s.threads[t], ev, hash, s'.book, s'.threads[t]);
  }

  lemma ReaderExcludesWriters(s: System, t: nat, hash: Hasher)
    requires Inv(s, hash) && t < |s.threads|
    ensures s.threads[t].Reading? ==> NoWriter(s.threads)
  {
    forall u: nat | u < |s.threads| ensures s.threads[t].Reading? ==> !IsWriter(s.threads[u]) {
      assert PairOk(s, t, u);
    }
  }

  /** A step leaves what is known of every other thread. */
  lemma OtherPhase(s: System, t: nat, ev: Event, hash: Hasher, s': System, u: nat)
    requires Inv(s, hash) && Step(s, t, ev, hash, s') && u < |s.threads| && u != t
    ensures PhaseOk(s'.book, s.threads[u], hash)
  {
    assert ThreadOk(s, t, hash) && ThreadOk(s, u, hash) && PairOk(s, t, u);
    match s.threads[t]
    case Committing(c, stage) =>
    case Deleting(_, _, _, _) => DeletingStep(s.book, s.threads[t], ev, hash, s, s'.book, s'.threads[t]);
    case _ => ReaderExcludesWriters(s, t, hash); OpenStep(s, s.threads[t], ev, hash, s'.book, s'.threads[t]);
  }

  lemma NewPair(s: System, t: nat, ev: Event, hash: Hasher, s': System, u: nat)
    requires Inv(s, hash) && Step(s, t, ev, hash, s') && u < |s.threads| && u != t
    ensures Compatible(s'.threads[t], s.threads[u]) && Compatible(s.threads[u], s'.threads[t])
  {
    assert ThreadOk(s, t, hash) && PairOk(s, t, u);
    match s.threads[t]
    case Committing(c, stage) => CommitStep(s.book, c, stage, ev, hash, s, s'.book, s'.threads[t]);
    case Deleting(_, _, _, _) => DeletingStep(s.book, s.threads[t], ev, hash, s, s'.book, s'.threads[t]);
    case _ => ReaderExcludesWriters(s, t, hash); OpenStep(s, s.threads[t], ev, hash, s'.book, s'.threads[t]);
  }

  lemma StepKeepsInv(s: System, t: nat, ev: Event, hash: Hasher, s': System)
    requires Inv(s, hash) && Step(s, t, ev, hash, s')
    ensures Inv(s', hash)
  {
    hide Next, PhaseOk, Consistent, Compatible;
    forall u: nat | u < |s'.threads| ensures ThreadOk(s', u, hash) {
      if u == t { NewPhase(s, t, ev, hash, s'); } else { OtherPhase(s, t, ev, hash, s', u); }
    }
    forall u: nat, v: nat | u < |s'.threads| && v < |s'.threads| ensures PairOk(s', u, v) {
      assert PairOk(s, u, v);
      if u == t != v { NewPair(s, t, ev, hash, s', v); } else if v == t != u { NewPair(s, t, ev, hash, s', u); }
    }
    if NoWriter(s'.threads) {
      NewPhase(s, t, ev, hash, s');
      OnlyWriter(s, t, hash, s');
    }
  }

  /** Once no writer is left, the one that stepped was the only one there could be. */
  lemma OnlyWriter(s: System, t: nat, hash: Hasher, s': System)
    requires Inv(s, hash) && t < |s.threads| == |s'.threads| && s'.threads == s.threads[t := s'.threads[t]]
    requires NoWriter(s'.threads)
    ensures IsWriter(s.threads[t]) || NoWriter(s.threads)
    ensures !IsWriter(s'.threads[t])
  {
    if !IsWriter(s.threads[t]) {
      forall u | 0 <= u < |s.threads| ensures !IsWriter(s.threads[u]) {
        if u != t { assert s'.threads[u] == s.threads[u]; }
      }
    }
  }

  // ---------------------------------------------------------------- every run

  ghost predicate StepAt(states: seq<System>, steps: seq<(nat, Event)>, hash: Hasher, i: nat)
    requires i < |steps| < |states|
  {
    Step(states[i], steps[i].0, steps[i].1, hash, states[i + 1])
  }

  ghost predicate IsRun(states: seq<System>, steps: seq<(nat, Event)>, hash: Hasher) {
    && |states| == |steps| + 1
    && Initial(states[0], hash)
    && forall i :: 0 <= i < |steps| ==> StepAt(states, steps, hash, i)
  }

  lemma {:induction false} RunKeepsInv(states: seq<System>, steps: seq<(nat, Event)>, hash: Hasher, n: nat)
    requires IsRun(states, steps, hash) && n < |states|
    ensures Inv(states[n], hash)
  {
    if n > 0 {
      RunKeepsInv(states, steps, hash, n - 1);
      assert StepAt(states, steps, hash, n - 1);
      StepKeepsInv(states[n - 1], steps[n - 1].0, steps[n - 1].1, hash, states[n]);
    }
  }

  /** Whenever nobody holds the write gate, a cached book has one generation, however the edits before
      ended: reader conflict, failed rename, failed update, failed rollback or failed reload. */
  lemma CachedBooksAreConsistent(states: seq<System>, steps: seq<(nat, Event)>, hash: Hasher, n: nat)
    requires IsRun(states, steps, hash) && n < |states| && NoWriter(states[n].threads)
    ensures Consistent(states[n].book, hash)
  {
    RunKeepsInv(states, steps, hash, n);
  }

  /** A reader never sees a mixture: everything it has read is the one content its row's hash names. */
  lemma ReadersSeeOneGeneration(states: seq<System>, steps: seq<(nat, Event)>, hash: Hasher, n: nat, t: nat, i: nat)
    requires IsRun(states, steps, hash) && n < |states| && t < |states[n].threads| && states[n].threads[t].Reading?
    requires i < |states[n].threads[t].seen|
    ensures states[n].book.cached == Some(states[n].threads[t].row)
    ensures states[n].book.file == Some(states[n].threads[t].seen[i])
    ensures hash(states[n].threads[t].seen[i]) == states[n].threads[t].row.hash
  {
    RunKeepsInv(states, steps, hash, n);
    assert ThreadOk(states[n], t, hash);
    ReaderExcludesWriters(states[n], t, hash);
  }

  /** When an edit is over and the book is still cached, the file, the cover and the row are all as the
      edit found them, or all as it meant them to be. */
  lemma EditsAreAllOrNothing(states: seq<System>, steps: seq<(nat, Event)>, hash: Hasher, n: nat, t: nat)
    requires IsRun(states, steps, hash) && n < |states| && t < |states[n].threads|
    requires states[n].threads[t].Committing? && states[n].threads[t].stage == Leaving && states[n].book.cached.Some?
    ensures var c := states[n].threads[t].commit; Untouched(c, states[n].book) || Applied(c, states[n].book, hash)
    ensures Consistent(states[n].book, hash)
  {
    RunKeepsInv(states, steps, hash, n);
    assert ThreadOk(states[n], t, hash);
  }

  /** How every edit ends.  If its snapshot was current and all its operations worked, the file, the cover
      and the row are what the edit meant and the cache holds the row; if only the reload failed, the book
      is published but out of the cache; if anything else failed and could be put back, the book is as it
      was, in the cache, too. */
  lemma EditsTakeEffect(states: seq<System>, steps: seq<(nat, Event)>, hash: Hasher, n: nat, t: nat)
    requires IsRun(states, steps, hash) && n < |states| && t < |states[n].threads|
    requires states[n].threads[t].Committing? && states[n].threads[t].stage == Leaving
    ensures var c, b := states[n].threads[t].commit, states[n].book;
            && (c.before.cached != Some(c.snapshot) ==> b == c.before)
            && (c.before.cached == Some(c.snapshot) && AllWorked(c.plan, c.log) ==> b.row.Some? && b.cached == b.row)
            && (c.before.cached == Some(c.snapshot) && AllCommitted(c.plan, c.log) ==>
                  && b.file == (if c.plan.embed then Some(c.rewritten) else c.before.file)
                  && b.cover == (if c.plan.cover.Some? then c.plan.cover else c.before.cover)
                  && c.before.row.Some? && b.row.Some? && b.row.value.version == c.before.row.value.version + 1
                  && b.row.value.hash == (if c.plan.embed then hash(c.rewritten) else c.before.row.value.hash))
            && (!AllCommitted(c.plan, c.log) && AllPutBack(c.plan, c.log) ==> Untouched(c, b) && b.cached == c.before.cached)
            && (!AllPutBack(c.plan, c.log) && c.before.cached == Some(c.snapshot) && !AllCommitted(c.plan, c.log) ==> b.cached.None?)
  {
    RunKeepsInv(states, steps, hash, n);
    assert ThreadOk(states[n], t, hash);
    hide AllWorked, AllCommitted, AllPutBack;
    LogGrows(states[n].threads[t].commit.plan, states[n].threads[t].commit.log, DoDrop);
  }

  /** How every deletion ends: nothing happened, or row, cache entry and derived entries are gone, and the
      files, if they could be removed. */
  lemma DeletionsTakeEffect(states: seq<System>, steps: seq<(nat, Event)>, hash: Hasher, n: nat, t: nat)
    requires IsRun(states, steps, hash) && n < |states| && t < |states[n].threads|
    requires states[n].threads[t].Deleting? && states[n].threads[t].step == 3
    ensures var p, b := states[n].threads[t], states[n].book;
            if !p.rowGone then b == p.before
            else
              && b.row.None? && b.cached.None? && b.derived == map[]
              && b.file == (if p.filesGone then None else p.before.file)
              && b.cover == (if p.filesGone then None else p.before.cover)
  {
    RunKeepsInv(states, steps, hash, n);
    assert ThreadOk(states[n], t, hash);
  }

  /** At most one edit, and at most one holder of the write gate, with no reader beside it. */
  lemma GateExcludes(states: seq<System>, steps: seq<(nat, Event)>, hash: Hasher, n: nat, t: nat, u: nat)
    requires IsRun(states, steps, hash) && n < |states| && t < |states[n].threads| && u < |states[n].threads| && t != u
    ensures IsWriter(states[n].threads[t]) ==> !IsWriter(states[n].threads[u]) && !states[n].threads[u].Reading?
    ensures IsEditor(states[n].threads[t]) ==> !IsEditor(states[n].threads[u])
  {
    RunKeepsInv(states, steps, hash, n);
    assert PairOk(states[n], t, u);
  }

  // ---------------------------------------------------------------- the commit section, step by step

  /** How each operation of one commit turns out. */
  datatype Outcomes = Outcomes(saved: bool, swap: Swap, coverOk: bool, torn: bool, rowOk: bool, reloadOk: bool,
                               restoreCoverOk: bool, restoreFileOk: bool)

  /** What a commit answers: the errors of its steps, a rollback that did or did not work, or the book. */
  datatype EditResult = Stale | NoBackup | InUse | NotReplaced | RolledBack | NotRestored | Published | NotReloaded

  /** The profile's view of one book; each method is an operation of the handlers, called with the write
      gate held. */
  class BookStore {
    var file: Option<Content>
    var cover: Option<Content>
    var row: Option<Row>
    var cached: Option<Row>
    var derived: map<Key, Content>

    function State(): Book
      reads this
    {
      Book(file, cover, row, cached, derived)
    }

    constructor (b: Book)
      ensures State() == b
    {
      file, cover, row, cached, derived := b.file, b.cover, b.row, b.cached, b.derived;
    }

    /** `replaceBookFile`. */
    method ReplaceBookFile(rewritten: Content, swap: Swap) returns (ok: bool)
      modifies `file, `derived
      ensures ok <==> swap == Renamed
      ensures file == if swap == Renamed then Some(rewritten) else old(file)
      ensures derived == if swap == Refused then old(derived) else map[]
    {
      if swap == Refused {
        return false;
      }
      derived := map[];
      if swap == RenameFailed {
        return false;
      }
      file := Some(rewritten);
      return true;
    }

    /** `rollbackBookEdit`: every copy is put back, and a failure takes the book out of the cache. */
    method RollbackBookEdit(plan: Plan, backup: Content, coverBackup: Option<Content>, coverOk: bool, fileOk: bool)
      returns (ok: bool)
      modifies `file, `cover, `cached
      ensures ok <==> (plan.cover.Some? ==> coverOk) && (plan.embed ==> fileOk)
      ensures cover == if plan.cover.Some? && coverOk then coverBackup else old(cover)
      ensures file == if plan.embed && fileOk then Some(backup) else old(file)
      ensures cached == if ok then old(cached) else None
    {
      ok := true;
      if plan.cover.Some? {
        if coverOk {
          cover := coverBackup;
        } else {
          ok := false;
        }
      }
      if plan.embed {
        if fileOk {
          file := Some(backup);
        } else {
          ok := false;
        }
      }
      if !ok {
        cached := None;
      }
    }

    /** `refreshBookCache`. */
    method RefreshBookCache(reloadOk: bool)
      modifies `cached
      ensures cached == if reloadOk then row else None
    {
      if !reloadOk || row.None? {
        cached := None;
        return;
      }
      cached := row;
    }

    /** The commit section of the three handlers under the write gate, and what it answers. */
    method CommitEdit(c: Commit, o: Outcomes, hash: Hasher) returns (r: EditResult)
      requires Consistent(State(), hash)
      requires c.plan.embed && cached == Some(c.snapshot) ==> file == Some(c.backup)
      modifies this
      ensures Consistent(State(), hash)
      ensures r == Stale <==> old(cached) != Some(c.snapshot)
      ensures r == NoBackup <==> old(cached) == Some(c.snapshot) && !o.saved
      ensures r == InUse <==> old(cached) == Some(c.snapshot) && o.saved && c.plan.embed && o.swap == Refused
      ensures r == NotReplaced <==> old(cached) == Some(c.snapshot) && o.saved && c.plan.embed && o.swap == RenameFailed
      ensures r in {Stale, NoBackup, InUse} ==> State() == old(State())
      ensures r == NotReplaced ==> State() == old(State()).(derived := map[])
      ensures r == Published || r == NotReloaded
              <==> && old(cached) == Some(c.snapshot) && o.saved && (c.plan.embed ==> o.swap == Renamed)
                   && (c.plan.cover.Some? ==> o.coverOk) && o.rowOk
      ensures r == Published || r == NotReloaded ==> Applied(c.(before := old(State())), State(), hash)
      ensures r == Published ==> o.reloadOk && cached == row
      ensures r == NotReloaded ==> !o.reloadOk && cached.None?
      ensures r == RolledBack ==> Untouched(c.(before := old(State())), State()) && cached == old(cached)
                                  && (c.plan.cover.Some? ==> o.restoreCoverOk) && (c.plan.embed ==> o.restoreFileOk)
      ensures r == NotRestored ==> cached.None?
                                   && !((c.plan.cover.Some? ==> o.restoreCoverOk) && (c.plan.embed ==> o.restoreFileOk))
    {
      if cached != Some(c.snapshot) {
        return Stale;
      }
      if !o.saved {
        return NoBackup;
      }
      var coverBackup := cover;
      if c.plan.embed {
        var installed := ReplaceBookFile(c.rewritten, o.swap);
        if !installed {
          return if o.swap == Refused then InUse else NotReplaced;
        }
      }
      var written := true;
      if c.plan.cover.Some? {
        if o.coverOk || o.torn {
          cover := c.plan.cover;
        }
        written := o.coverOk;
      }
      if !written || !o.rowOk {
        var restored := RollbackBookEdit(c.plan, c.backup, coverBackup, o.restoreCoverOk, o.restoreFileOk);
        return if restored then RolledBack else NotRestored;
      }
      row := Some(NewRow(c, row.value, hash));
      RefreshBookCache(o.reloadOk);
      return if o.reloadOk then Published else NotReloaded;
    }
  }
}
