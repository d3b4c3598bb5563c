# Sayumi, modelled in Dafny

Sayumi is a local EPUB server: a Go back end that keeps profiles, opened ZIP readers, a book
cache, reading progress and the EPUB files themselves consistent under concurrent requests, and a
reader frame in TypeScript that mirrors the back end's text extraction. This project models the
parts where that consistency is decided and proves what they are for. `dafny verify dfyconfig.toml`
checks all of it.

**How the concurrent parts are modelled.** One function on a state value per critical section; a
machine in which any number of goroutines interleave those sections, with loading, waiting,
draining, saving and closing between them; an invariant that every step keeps; and theorems about
every reachable state or every run. Beside it a class has the source's fields, and each of its
methods, loops included, is proved to do what the function of its critical section says.

**How the algorithms are modelled.** A loop of the source is a method with its loop, proved
against a specification that does not mention the loop: sequences of code points, a flattened
tree, an attribute list, splices applied from the right.

## Modules

- `EpubStore` (store.dfy) – the shared ZIP readers: placeholders, reference counts, eviction, closing
  during a load, failed loads with waiters, and release by path; `Retention` (retention.dfy) – what stays
  in it, for how long, and in which order.
- `LruCache` (lrucache.dfy) – the cache bounded by entries and bytes.
- `Profiles` (profilemgr.dfy) – opening, borrowing, locking a set of names, draining and sealing.
- `Coalescer` (coalescer.dfy) – write coalescing of reading progress, the table behind it, and the
  replacement that renumbers both; `ChapterRemaps` (chapterremap.dfy) – the renumbering itself.
- `BookEdits` (bookedit.dfy) – the commit and rollback protocol over file, cover, row and caches, with
  readers behind a gate.
- `BookCaches` (bookcache.dfy) – the sorted list and the generation-guarded spine memo; `AsciiFold`
  (asciifold.dfy) – the comparator that ends at a NUL byte.
- `Throttle` (throttle.dfy) – the login limiter and its bound over whole runs.
- `Utf8`, `Collapsing`, `Searching` (utf8.dfy, collapse.dfy, search.dfy) – paged search on bytes with
  code-point offsets.
- `Extraction`, `Segments`, `Marks` (extract.dfy, segments.dfy, marks.dfy) – the two text extractors,
  where the code points of the index sit in their text nodes, and the highlighting of a match.
- `Sanitizing`, `ChapterTexts` (sanitize.dfy, chaptertext.dfy) – the chapter sanitizer, and the text of
  what it serves.
- `TagAttributes`, `Splicing`, `PackageScans`, `Rewrites`, `Markup` (opfattr.dfy, opfsplice.dfy,
  packagescan.dfy, rewrite.dfy, markup.dfy) – scanning the package document, editing it by byte ranges,
  and what the result says, read as XML 1.0, sections 2.4, 3.1 and 4.6.
- `ByteStrings`, `Wrappers`, `Basics` – shared small types and facts.

## Results about the code worth knowing

- A replacement moves a reader's position exactly when the key is still pending when `remapBook` runs,
  or nothing was saved for it since the rows were remapped, or the move would not change it
  (`Coalescer.ReplacementMovesThePosition`). The flusher takes no lock that spans both steps, and
  `Coalescer.ReplacementCanMissAPosition` is a run in which the position stays in the old numbering.
  A position that was pending then is safe: the next flush that stores it makes its image durable
  (`Coalescer.RemappedIsDurable`).
- Fifteen minutes without a success hold at most 19 failures of a key when they are one counting
  window, and at most 23 wherever the fifteen minutes start (`Throttle.FailuresPerWindow`,
  `Throttle.FailuresInAnyQuarterHour`).
- Replacing a book by a file with the same spine leaves a position alone exactly when its chapter is
  the first one of its document (`ChapterRemaps.SameSpineMovesNothing`): `buildChapterRemap` maps a
  document that is listed twice to its first place.
- The sanitizer keeps the cut-off node as a leaf, so a sanitized tree may be one level deeper than
  `maxSanitizeDepth` (`Sanitizing.DepthIsBounded`).
- The two defensive breaks of `LRUCache.Put`, the overlap skip of `applySplices`, the branch of `Get`
  for a closing profile, and the record comparison of the spine memo under a current generation are
  never taken (`LruCache.NeverReachesTheNewEntry`, `Splicing.RewriteIsRightToLeft`,
  `Profiles.OpenProfilesAreNotClosing`, `BookCaches.RecordCheckIsRedundant`).

## Hypotheses

- Store: each successful `OpenIndexed` is followed by exactly one `Release`, and the store is closed only
  after its borrowers are gone, as internal/epub/store.go:438-440 and 709-710 ask.
- Progress: one flusher; positions are compared by chapter, percent and anchor, because a save stamps
  its own time (internal/storage/progress.go:86-87).
- Throttle: the sections run in the order of the times they use.  The source reads the clock before it
  takes the mutex (internal/api/throttle.go:56, 107), so this rules out a backward clock and also a
  goroutine that is overtaken between the two by one with a later time.  Each admitted attempt records
  at most one result and releases once.
- Search and extraction: case folding is one function from code points to code points, shared by both
  sides, that leaves a space a space; a template has no child nodes in the frame's DOM.
- Book cache: the start-up rows come in the order the query asks for.
- Edits: a rename or a row update that fails has had no effect.
- Package documents: the tokenizer's offsets partition the bytes, and a start tag has at least its
  `<` and `>`.
- Pages: the parser leaves only doctypes, comments and white space around `html`, `head` and `body`.

## Model

| member | source | states |
|---|---|---|
| LruCache.PutKeepsLongestPrefix | internal/epub/store.go:104-131 | After an admitted `Put` the cache holds the longest prefix, most recently used first, of the new entry followed by the old ones that fits both budgets; the new entry always stays. |
| LruCache.RunInvariant | internal/epub/store.go:74-175 | After any sequence of operations keys are distinct, both budgets hold, and every entry carries the last value put for its key. |
| LruCache.OperationsAreExact | internal/epub/store.go:74-146 | A hit moves its entry to the front, a refused `Put` or a delete takes away the entry of its key, an admitted `Put` puts the new one before the others; no other entry changes or moves. |
| LruCache.KeptIsFilter | internal/epub/store.go:150-163 | `DeleteFunc` decides entry by entry and keeps the order. |
| LruCache.ListIsByUse | internal/epub/store.go:74-131 | After any sequence of operations the list runs from the most to the least recently used key, so that eviction takes the least recently used ones. |
| LruCache.NeverReachesTheNewEntry | internal/epub/store.go:116-130 | While the cache is over budget the back of the list exists and is not the entry just put, so neither defensive `break` fires. |
| LruCache.LRUCache.Get | internal/epub/store.go:74-84 | Moves a hit to the front and returns its value; a miss changes nothing; index, list and `bytes` stay in agreement. |
| LruCache.LRUCache.Put | internal/epub/store.go:86-131 | The new recency list is `AfterPut` of the old one, including the refusal of an oversized value; `bytes` is the sum of the stored sizes. |
| LruCache.LRUCache.EvictExcess | internal/epub/store.go:116-130 | The eviction loop shrinks the list to its longest prefix within both budgets. |
| LruCache.LRUCache.Delete | internal/epub/store.go:133-146 | Removes exactly the key and returns its value. |
| LruCache.LRUCache.DeleteFunc | internal/epub/store.go:150-163 | Keeps exactly the entries whose key the callback retains, in their order. |
| EpubStore.StepKeepsInv | internal/epub/store.go:345-538 | Every step of every borrower (acquire, load, publish or fail, wake, release), close, replace and shutdown keeps the store invariant. |
| EpubStore.RunKeepsInv | internal/epub/store.go:345-538 | The invariant holds in every state of every run. |
| EpubStore.BorrowersAreSafe | internal/epub/store.go:419-473 | In every reachable state a borrower holds a loaded, open reader; each opened reader was closed never or once, and once exactly when its entry left the store. |
| EpubStore.ReleaseHitsItsEntry | internal/epub/store.go:453-473 | `Release(path)` lowers the count of the very entry its borrower acquired and touches no other, also after failed loads with waiters queued. |
| EpubStore.OpenFilesAreConsistent | internal/epub/store.go:349-436 | An entry of `openFiles` is on the LRU list exactly when it is not evicted, its count is the number of its borrowers, and an unreferenced one is loaded and listed. |
| EpubStore.OpenReadersAreBounded | internal/epub/store.go:419-436 | Open readers never exceed the cap plus the borrowed readers. |
| EpubStore.CloseIsHonoured | internal/epub/store.go:486-506 | A `CloseBook` during a load or a borrow is honoured at the last release unless the path is acquired again. |
| EpubStore.EvictExcessSound | internal/epub/store.go:419-436 | The eviction loop keeps the list duplicate-free and closes only unreferenced entries. |
| Retention.EvictionIsExact | internal/epub/store.go:419-436 | The eviction loop keeps the front of the list up to the cap and drops, of the rest, exactly the unreferenced entries; references and pending closes stay. |
| Retention.OrderIsExact | internal/epub/store.go:211-238 | How each event moves the list: the entry just used comes to the front, and eviction takes from the back. |
| Retention.ListIsByUse | internal/epub/store.go:211-228 | In every reachable state the list runs from the most to the least recently acquired, published or released entry. |
| Retention.LeavesIsExact | internal/epub/store.go:390-538 | An entry stays in the store with its reader open until exactly one of these: its load fails, it is evicted without references, its last borrower leaves it unlisted or with a close pending, or a close, a replacement or the shutdown takes it while nobody holds it. |
| Retention.PendingIsExact | internal/epub/store.go:362-366 | A close is pending from a `CloseBook` of a referenced entry until its path is acquired again, and at no other time. |
| Retention.AcquireShares | internal/epub/store.go:349-373 | An acquire of a path in the store shares its entry, loaded or loading; any other starts a load of its own and touches no other entry. |
| Retention.WaitersWaitForALoader | internal/epub/store.go:366-417 | In every reachable state a waiter's entry is ready or some borrower is still loading it: no failure, close, replacement or eviction leaves a waiter behind. |
| Retention.ReplaceLetsGo | internal/epub/store.go:517-538 | After an accepted replacement the path is free, nothing of it is listed, and every reader ever opened for it was closed once; a refused one changes nothing. |
| Retention.FreeUntilAcquired | internal/epub/store.go:345-373 | A path that is free stays free until it is acquired. |
| Retention.ReplacedFileIsOpenedAnew | internal/epub/store.go:517-538 | In every run the next acquire of a path after an accepted replacement loads the file anew, in an entry that was not there before. |
| Retention.ShutdownClosesAll | internal/epub/store.go:711-732 | A shutdown leaves no path and no list, and every reader ever opened was closed once. |
| EpubStore.EPUBStore.AcquireSection | internal/epub/store.go:349-373 | The locked part of an acquire: a hit takes a reference, clears `evicted` and `closePending` and touches; a miss installs a loading placeholder. |
| EpubStore.EPUBStore.FinishLoad | internal/epub/store.go:390-414 | Publication or failure of a load, with the `closePending` case and the guarded removal of a failed placeholder. |
| EpubStore.EPUBStore.Evict | internal/epub/store.go:419-436 | The eviction loop over the object fields. |
| EpubStore.EPUBStore.Release | internal/epub/store.go:453-473 | The new state is `ReleasePath` of the old one, including the two refused cases. |
| EpubStore.EPUBStore.CloseBook | internal/epub/store.go:486-506 | The new state is `ClosePath` of the old one. |
| EpubStore.EPUBStore.TryCloseForReplace | internal/epub/store.go:517-538 | Refuses exactly when the path is referenced, touching nothing; otherwise the new state is `TryClose` of the old one, which `Retention.ReplaceLetsGo` is about, and the derived caches lose exactly what came from the book. |
| EpubStore.EPUBStore.EvictBook | internal/epub/store.go:544-548 | Each of the three derived caches keeps exactly the entries of other books, in their order. |
| EpubStore.EPUBStore.Close | internal/epub/store.go:711-732 | The loop closes the reader of every path, and both structures and the derived caches are emptied: the new state is `Shutdown` of the old one. |
| Profiles.StepKeepsInv | internal/api/profilemgr.go:243-441 | Every step of opening, publishing, borrowing, locking, draining, closing and sealing keeps the manager invariant. |
| Profiles.RunKeepsInv | internal/api/profilemgr.go:243-441 | The invariant holds in every state of every interleaving. |
| Profiles.AtMostOneLive | internal/api/profilemgr.go:323-391 | A name has at most one loaded, not yet closed profile. |
| Profiles.LockersAreDisjoint | internal/api/profilemgr.go:243-317 | Two concurrent lockers never hold a common name. |
| Profiles.LockIsExclusive | internal/api/profilemgr.go:243-317 | From a successful `lockProfiles` to its unlock every profile of a locked name is closed once, nobody references one, and nobody opens one. |
| Profiles.BorrowersAreSafe | internal/api/profilemgr.go:90-124 | The reference count is the number of borrowers, a borrowed profile is open, and no profile is closed twice. |
| Profiles.CloseAllClosesEverything | internal/api/profilemgr.go:425-441 | Once `CloseAll` returned, every profile ever loaded is closed and has no borrower. |
| Profiles.OpenProfilesAreNotClosing | internal/api/profilemgr.go:349-355 | A published profile is never closing, so the branch of `Get` that drops one is not taken. |
| Profiles.WaitersWaitForSomebody | internal/api/profilemgr.go:256-311 | A name is not free exactly while some caller opens it, closes what it opened, or drains or holds it under a lock: an unlock, a failed load and a cancelled lock leave nothing behind. |
| Profiles.OpenProfilesAreFindable | internal/api/profilemgr.go:399-419 | A profile can be found by its book exactly while it is published. |
| Profiles.OpenUntilTaken | internal/api/profilemgr.go:333-391 | A published profile stays until a locker of its name or `CloseAll` takes it, so that every `Get` in between shares it. |
| Profiles.ProfileManager.GetSection | internal/api/profilemgr.go:333-358 | Admission in `Get`: refused, waiting, lent, or claimed for loading, with the exact new state of each. |
| Profiles.ProfileManager.AdmitSection | internal/api/profilemgr.go:361-391 | Publication: lends the loaded profile unless the manager closed or the caller gave up meanwhile. |
| Profiles.ProfileManager.LockSection | internal/api/profilemgr.go:256-295 | Claims all names or none; granted exactly when every name is free, and returns the detached profiles. |
| Profiles.ProfileManager.BlockAll | internal/api/profilemgr.go:288-295 | The marking loop blocks all names and detaches their profiles in order. |
| Profiles.ProfileManager.UnlockSection | internal/api/profilemgr.go:304-311 | Unblocks exactly the names. |
| Profiles.ProfileManager.ReleaseSection | internal/api/profilemgr.go:101-114 | Lowers a positive count by one, and nothing else. |
| Profiles.ProfileManager.FindBook | internal/api/profilemgr.go:399-419 | Borrows some open, unblocked profile that has the book, and fails only when there is none. |
| Coalescer.RunKeepsVersions | internal/api/progress_coalescer.go:91-195 | Versions are unique: every pending or batched entry carries a version issued once. |
| Coalescer.ReadThroughIsFresh | internal/api/progress_coalescer.go:91-210 | Pending entry, else row, is the last staged position at every step of every run in which the book is kept, from the start or from the end of any replacement until the next one commits its rows: mid-save, after failed saves, and with stages racing the acknowledgement. |
| Coalescer.TwoLooksAreOne | internal/api/progress.go:92-104 | A handler that looks into the buffer at one step and, not finding the key, reads its row at a later one is given what a read at one instant in between gives, as long as the book is kept and no replacement commits its rows in between. |
| Coalescer.ListIsRead | internal/api/books.go:157-169 | The same for the book list: a snapshot of the buffer laid over rows read later gives every book a position that a read at one instant in between gives. |
| Coalescer.TableFirstCanMissAPosition | internal/api/books.go:157-163 | A concrete run in which reading the table before the buffer finds nothing although every read in between gives the position. |
| Coalescer.FinalDrainIsComplete | internal/api/progress_coalescer.go:140-195 | After a flush without stagers in which every save is stored, of an empty buffer too, the buffer is empty and the table alone answers every read; replacements before it included. |
| Coalescer.DroppedStaysOut | internal/api/progress_coalescer.go:216-224 | A dropped entry is not put back by a save in flight. |
| Coalescer.DeletedRowsStayGone | internal/storage/progress.go:82-92 | The rows of a deleted book never come back: a save still in flight finds no book to refer to. |
| Coalescer.OnlyItsOwnSaveAcknowledges | internal/api/progress_coalescer.go:203-255 | A staged, re-staged or remapped entry stays pending as it is until a save of that very version, begun later, is acknowledged. |
| Coalescer.VersionedIsRead | internal/api/progress_coalescer.go:203-255 | From a stage or a remap of a pending entry on, readers get that position until the key is staged, moved or dropped again: older saves in flight neither acknowledge the entry nor overwrite its row afterwards. |
| Coalescer.VersionedIsDurable | internal/api/progress_coalescer.go:163-210 | The next flush in which no save of the key fails leaves the key out of the buffer and the position in its row, whatever happens to other keys and books meanwhile, and it stays there. |
| Coalescer.RemappedIsDurable | internal/api/progress_coalescer.go:226-255 | A position pending when `remapBook` runs is read, and after the next flush that does not fail to save it stored, as its image in the new numbering, whatever an older save wrote. |
| Coalescer.ReplacementMovesThePosition | internal/api/bookreplace.go:282-310 | After a replacement, the first or a later one, a reader gets the moved position if and only if the key is pending when `remapBook` runs, or no save of it was stored since the rows moved, or the move leaves it in place. |
| Coalescer.ReplacementCanMissAPosition | internal/api/bookreplace.go:282-310 | A concrete run in which a save in between loses the move. |
| Coalescer.ProgressTable.Save | internal/storage/progress.go:82-92 | An upsert that the foreign key rejects when the book row is gone. |
| Coalescer.ProgressCoalescer.Stage | internal/api/progress_coalescer.go:91-110 | Puts the position under the next version. |
| Coalescer.ProgressCoalescer.GetAll | internal/api/progress_coalescer.go:124-135 | Exactly the pending positions of the user, by book. |
| Coalescer.ProgressCoalescer.Flush | internal/api/progress_coalescer.go:163-210 | Undisturbed, stores every position whose save works, keeps the others pending, and drops those of deleted books. |
| Coalescer.ProgressCoalescer.DiscardSaved | internal/api/progress_coalescer.go:203-210 | Removes the entry only if its version is the saved one. |
| Coalescer.ProgressCoalescer.DropBook | internal/api/progress_coalescer.go:216-224 | Removes exactly the entries of the book. |
| Coalescer.ProgressCoalescer.RemapBook | internal/api/progress_coalescer.go:233-255 | Every pending entry of the book becomes its image under a new version; the others keep theirs. |
| ChapterRemaps.ApplyIsValid | internal/storage/bookreplace.go:44-65 | A moved position passes the new file's validation and keeps its percent unless its chapter lies outside the file. |
| ChapterRemaps.BuildChapterRemap | internal/api/bookreplace.go:54-80 | The loops build the remap that sends each chapter to the first new entry with its document. |
| ChapterRemaps.EveryPositionMoves | internal/api/bookreplace.go:54-80 | Where every position goes: with its document to the first place that lists it; without one to its chapter number with the anchor dropped, to the end of a shorter file, or to the start. |
| ChapterRemaps.AnchorKeepsItsDocument | internal/api/bookreplace.go:54-80 | An anchor survives only into the document it was taken from. |
| ChapterRemaps.SameSpineMovesNothing | internal/api/bookreplace.go:54-80 | An unchanged spine leaves a position alone exactly when its chapter is the first one of its document. |
| ChapterRemaps.ReplaceRoundTrip | internal/api/bookreplace.go:54-80 | Replacing and replacing back returns every position whose document both files list, anchor included. |
| ChapterRemaps.AppendedChaptersMoveNothing | internal/api/bookreplace.go:54-80 | A file that only gained chapters at its end moves no position. |
| ChapterRemaps.PositionTable.RemapPositions | internal/storage/bookreplace.go:180-195 | Every row of the book holds the image of its old position, and no other row changes. |
| AsciiFold.CompareASCIIFold | internal/storage/bookcache.go:198-227 | The loop computes `Compare`, with the early end at an equal NUL byte. |
| AsciiFold.CompareIsKeyOrder | internal/storage/bookcache.go:195-227 | `Compare` is the lexicographic order of folded titles up to their first NUL, then of the lengths. |
| AsciiFold.CompareAntisymmetric | internal/storage/bookcache.go:198-227 | Swapping the arguments flips the sign; titles tie exactly when length and folded key agree. |
| AsciiFold.CompareTransitive | internal/storage/bookcache.go:198-227 | The comparison is transitive, strictly so if either step is strict. |
| AsciiFold.RankTransitive | internal/storage/bookcache.go:229-246 | With ties broken by ID the order is transitive and total. |
| AsciiFold.FirstDifferenceDecides | internal/storage/bookcache.go:198-227 | The first place where two titles differ by more than ASCII case decides, by the lower-case bytes; if there is none before an end or a common NUL byte, the lengths do. |
| AsciiFold.LexFirstDifference | internal/storage/bookcache.go:229-246 | The first differing byte of two IDs decides, else the shorter one comes first. |
| AsciiFold.TitleThenId | internal/storage/bookcache.go:229-246 | The ID decides only between titles that tie. |
| BookCaches.FindsItself | internal/storage/bookcache.go:250-257 | A listed book is found at the slot its own title and ID search for. |
| BookCaches.BoundaryIsSlot | internal/storage/bookcache.go:234-248 | Any place where the comparison changes sign is the one the binary search finds. |
| BookCaches.AddKeepsListing | internal/storage/bookcache.go:262-289 | After an `Add`, in all three branches, the order lists every cached ID once, strictly ascending. |
| BookCaches.RemoveKeepsListing | internal/storage/bookcache.go:291-304 | After a `Remove` the order lists exactly the remaining books. |
| BookCaches.StartupLists | internal/storage/bookcache.go:38-63 | Rows with distinct IDs in query order make a valid listing. |
| BookCaches.OrderEqualsRebuild | internal/storage/bookcache.go:198-304 | After any sequence of operations the order equals any rebuild from scratch. |
| BookCaches.MemoIsFresh | internal/storage/bookcache.go:80-180 | A memoized spine belongs to a cached book and comes from its record, or from what the database held at an instant since which the book was neither added again nor removed. |
| BookCaches.ReturnIsLinearizable | internal/storage/bookcache.go:80-122 | What `GetSpine` returns was true of the cache at an instant between call and return. |
| BookCaches.FailuresAreCurrent | internal/storage/bookcache.go:154-164 | A load error reaches a waiter only if the book had the failing generation at the later of its look and the failure. |
| BookCaches.OneLoadPerGeneration | internal/storage/bookcache.go:99-106 | At most one load per book generation is under way. |
| BookCaches.RecordCheckIsRedundant | internal/storage/bookcache.go:166-180 | While the generation is current the record comparison always agrees. |
| BookCaches.RunKeepsInv | internal/storage/bookcache.go:80-304 | The memo, flight and caller invariant holds in every interleaving of adds, removes, loads, waiters and database writes. |
| BookCaches.CacheHoldsTheLastAdd | internal/storage/bookcache.go:262-304 | In every run exactly the books whose last change was an `Add` are cached, each with the record of that `Add`. |
| BookCaches.LoadTakesEffect | internal/storage/bookcache.go:124-164 | A load whose book still has its generation delivers what it read and memoizes it, unless another load was faster, and fails only if it read nothing. |
| BookCaches.OneLoadServesUntilTheBookChanges | internal/storage/bookcache.go:80-122 | After one successful load every look at the book is answered with that content until the book is added again or removed. |
| BookCaches.OnlyFailedReadsAreReported | internal/storage/bookcache.go:124-166 | A caller is told of a failure only if a read of that very book failed. |
| BookCaches.BookCache.constructor | internal/storage/bookcache.go:38-63 | Builds map and order from the summaries, with no generation and no memo. |
| BookCaches.BookCache.InsertPosition | internal/storage/bookcache.go:234-248 | The binary search, also for a cache with orphaned IDs. |
| BookCaches.BookCache.Add | internal/storage/bookcache.go:262-289 | The new cache is `AfterAdd` of the old one: record, order, generation, dropped memo. |
| BookCaches.BookCache.Remove | internal/storage/bookcache.go:291-304 | The new cache is `AfterRemove` of the old one. |
| BookCaches.BookCache.ListSummaries | internal/storage/bookcache.go:182-193 | Every cached book once, in order. |
| BookCaches.BookCache.SpineLoadState | internal/storage/bookcache.go:168-180 | Memo, missing, retry, or not settled. |
| BookCaches.BookCache.PublishSpine | internal/storage/bookcache.go:152-164 | Rechecks, then publishes the content or reports the failure. |
| Throttle.CapsHold | internal/api/throttle.go:55-85 | At most 4096 entries in all and 64 per client, in every run. |
| Throttle.OneAttemptPerKey | internal/api/throttle.go:50-102 | At most one attempt per key is in flight, and an entry is reserved exactly while one is. |
| Throttle.FailuresPerWindow | internal/api/throttle.go:106-124 | A success-free counting window records at most 5 + 14 failures of a key. |
| Throttle.FailuresInAnyQuarterHour | internal/api/throttle.go:55-156 | Any 15 minutes without a success hold at most 23 failures of a key, across window ends, sweeps and new entries. |
| Throttle.SlidingBound | internal/api/throttle.go:106-124 | The bound of 23 for any failure history the lockout allows. |
| Throttle.CountTakesTime | internal/api/throttle.go:114-123 | Failure number n of a window comes at least n - 5 lockouts after the window started. |
| Throttle.FailureFollows | internal/api/throttle.go:106-124 | The failure an unlocked entry records follows its history and keeps the entry in step with it. |
| Throttle.LockedExactlyAfterFiveFailures | internal/api/throttle.go:114-123 | In every reachable state a key is locked exactly while its last failure, with no success since, was at least the fifth of its counting window and less than a minute ago. |
| Throttle.FailuresAreCounted | internal/api/throttle.go:113-119 | A failure within 15 minutes of the start of its window is counted on; any other starts a window. |
| Throttle.AdmissionIsExact | internal/api/throttle.go:55-85 | In every reachable state a locked key waits for the rest of its minute, a key with an attempt under way for a second, a new key that finds no room for a window, and everyone else is admitted. |
| Throttle.NothingIsKeptForNothing | internal/api/throttle.go:90-102 | Every entry has an attempt under way or a failure since the last success of its key. |
| Throttle.RunKeepsInv | internal/api/throttle.go:55-156 | Entries, attempts and histories agree in every run. |
| Throttle.LoginThrottle.BeginAttempt | internal/api/throttle.go:55-85 | Locked, busy, full or admitted, with the pruning of a full table; `clientEntries` stays the count of entries per client. |
| Throttle.LoginThrottle.ReleaseAttempt | internal/api/throttle.go:90-102 | Gives up the reservation and removes an entry without failures. |
| Throttle.LoginThrottle.RecordFailure | internal/api/throttle.go:106-124 | The new table is `Fail` of the old one: counts in the window or restarts it, and locks from the fifth failure on, as `LockedExactlyAfterFiveFailures` says of every run. |
| Throttle.LoginThrottle.RecordSuccess | internal/api/throttle.go:129-136 | Clears the failures and the lock, keeping the reservation. |
| Throttle.LoginThrottle.PruneLocked | internal/api/throttle.go:147-156 | Removes exactly the stale entries. |
| Throttle.LoginThrottle.DeleteEntryLocked | internal/api/throttle.go:158-168 | Removes the entry and keeps the per-client counts exact. |
| Utf8.MatchOnBoundary | internal/epub/search.go:126-136 | Every byte match of an encoded query in an encoded text starts between code points and is a code-point match. |
| Utf8.FirstByteIsFirstRune | internal/epub/search.go:126-136 | The first byte match is the first code-point match, at its byte offset. |
| Utf8.DecodeEncode | internal/epub/search.go:149-155 | Decoding an encoded text gives it back. |
| Searching.FoldRunes | internal/epub/search.go:354-361 | The loop encodes the fold of every decoded code point. |
| Searching.RuneOffsetToByteIndex | internal/epub/search.go:363-375 | The byte index of a code-point offset, the length past the end. |
| Searching.ByteIndexIsOffset | internal/epub/search.go:363-375 | On valid UTF-8 that index is where the code point starts. |
| Searching.MatchesAreApart | internal/epub/search.go:126-172 | Reported matches are occurrences in ascending order and do not overlap. |
| Searching.NoOccurrenceMissed | internal/epub/search.go:126-172 | Every occurrence overlaps a reported match. |
| Searching.NextMatch | internal/epub/search.go:127-137 | One probe finds the next code-point match and counts the code points skipped. |
| Searching.ScanChapter | internal/epub/search.go:117-172 | The byte loop of one chapter does what the code-point scan does, and is cancelled exactly when the context is done after one of its probes: one for each match the page has room for, and one more if a match does not fit or bytes remain behind the last. |
| Searching.Search | internal/epub/search.go:45-179 | A page is the first matches from the cursor on, over all chapters that could be extracted, with their snippets and the cursor of the first match left out; the search fails if the book cannot be opened, and is cancelled exactly when its context is done at one of its looks: one before the book is opened, two per visited chapter, one per probe, and one at the end unless the page was full before. |
| Searching.EveryOccurrenceIsFound | internal/epub/search.go:63-172 | Every place of the original text, from the cursor on, that folds to the same as the trimmed and collapsed query is covered by a reported match. |
| Searching.EveryReportIsAnOccurrence | internal/epub/search.go:63-172 | Every reported range of the original text folds to the same as the trimmed and collapsed query, lies behind the cursor, and does not overlap the one before. |
| Searching.AnswerShowsThePage | internal/epub/search.go:54-178 | An answer holds the first 20 matches, or as many as asked for, with their chapters and offsets, and a cursor to the first one left out exactly if there is one. |
| Searching.PagingIsLossless | internal/epub/search.go:71-178 | Following the cursor with any limits concatenates to exactly the one-shot list of matches. |
| Searching.SnippetHoldsMatch | internal/epub/search.go:153-169 | A result names its chapter and offset; the snippet holds the match at the stated place, with up to 80 code points of context on either side, and what is there folds to the query. |
| Collapsing.CollapseSpaceRuns | internal/epub/search.go:235-251 | Words joined by one space. |
| Collapsing.WriterCollapses | internal/epub/search.go:253-276 | The extractor's writer produces the same collapsed text. |
| Collapsing.CollapseIsCollapsed | internal/epub/search.go:231-276 | No white space at the ends, never two in a row, only plain spaces. |
| Collapsing.CollapsedIsFixed | internal/epub/search.go:231-251 | Collapsed text passes unchanged. |
| Collapsing.TrimIsRedundant | internal/epub/search.go:63-63 | Trimming before or after collapsing changes nothing. |
| Collapsing.CollapseKeepsInk | internal/epub/search.go:235-251 | Every code point that is no white space stays, in order, and no other is added. |
| Collapsing.GapsBecomeOneSpace | internal/epub/search.go:235-251 | White space between two other code points becomes one space, whatever its length and kind; without any they stay neighbours. |
| Extraction.PlainTextExtractor.ExtractDepth | internal/epub/search.go:282-325 | The walk over the sanitized tree, with its depth cut. |
| Extraction.PlainTextExtractor.Extract | internal/epub/search.go:253-280 | A whole tree, whose text is then `GoText` of it. |
| Extraction.PlainTextExtractor.WriteText | internal/epub/search.go:264-276 | Writes a text node through the collapsing writer. |
| Extraction.GoTextCollapses | internal/epub/search.go:253-325 | The back end's text is the flattened tree with white space collapsed. |
| Extraction.ExtractsWhatIsVisible | internal/epub/search.go:282-325 | The extracted text holds every code point, other than white space, of the text nodes outside the skipped elements, in document order, and none besides. |
| Extraction.ElementsReadAs | internal/epub/search.go:290-352 | Wherever it stands, a skipped element reads as nothing, a block-like one as its content set off by white space, a line break as white space, and any other as its content alone. |
| Extraction.SearchTextIndex.Walk | frontend/src/iframe/searchHighlight.ts:206-239 | The frame's walk, with its limit. |
| Extraction.SearchTextIndex.EmitTextNode | frontend/src/iframe/searchHighlight.ts:184-204 | Each indexed code point gets a segment that locates it in its text node in UTF-16 units; each segment follows the one before, with only white space between in the same node. |
| Extraction.BoundaryListsAgree | frontend/src/iframe/searchHighlight.ts:65-101 | Both lists of boundary elements are the same set; only `template` is skipped on one side. |
| Extraction.ExtractorsAgree | frontend/src/iframe/searchHighlight.ts:158-243 | Both extractors emit the same collapsed code points for every chapter within the sanitizer's depth. |
| Extraction.LimitIsPrefix | frontend/src/iframe/searchHighlight.ts:158-243 | The walk with a limit returns exactly the prefix of the unlimited walk. |
| Extraction.MatchesFoldedAt | frontend/src/iframe/searchHighlight.ts:327-337 | True exactly when the needle occurs at the offset. |
| Extraction.FindFoldedMatch | frontend/src/iframe/searchHighlight.ts:339-362 | The first match from the clamped offset on, else the first one, else -1. |
| Extraction.ReportedMatchIsIndexed | frontend/src/iframe/searchHighlight.ts:415-443 | A match the back end reports is found at its offset in an index built only up to its end. |
| ChapterTexts.SanitizedTextsAgree | internal/epub/search.go:206-224 | For every parsed page, with doctypes, comments and white space around its elements, sanitizing first, both extractors agree. |
| ChapterTexts.PageStaysPage | internal/epub/search.go:211-214 | Sanitizing keeps the html, head and body elements and what lies between them, and works inside head and body. |
| Marks.MergeRuns | frontend/src/iframe/searchHighlight.ts:272-295 | The merging loop over the index range of a match. |
| Marks.EverySegmentIsMarked | frontend/src/iframe/searchHighlight.ts:274-295 | Every indexed segment of the match lies in a run. |
| Marks.RunsHoldNothingElse | frontend/src/iframe/searchHighlight.ts:278-292 | A run covers only segments of the match and white space of the node between neighbours. |
| Marks.RunsAreDisjoint | frontend/src/iframe/searchHighlight.ts:267-295 | Runs of one text node are disjoint and ascend. |
| Marks.RecordedInOrder | frontend/src/iframe/searchHighlight.ts:184-204 | In any index range the walk recorded, no segment is empty and those of one node ascend, as the three theorems above ask. |
| Marks.OneRunPerNode | frontend/src/iframe/searchHighlight.ts:267-295 | In an index the walk recorded, a match has one run in each text node it touches, in document order: collapsed white space never splits a mark. |
| Segments.IsAllSpaceLike | frontend/src/iframe/searchHighlight.ts:128-133 | The loop over a slice in UTF-16 units decides whether every code point that reaches into it is white space. |
| Sanitizing.SanitizeNode | internal/epub/sanitize.go:68-104 | The HTML loop, with promoted children re-entering it; it terminates. |
| Sanitizing.SanitizeDocument | internal/epub/sanitize.go:60-66 | The whole document, from depth 0. |
| Sanitizing.SanitizeSvgKids | internal/epub/sanitize.go:248-287 | The SVG loop. |
| Sanitizing.SanitizeSVG | internal/epub/sanitize.go:235-288 | Cleans its own attributes before the depth cut, then its children. |
| Sanitizing.SanitizeAttributes | internal/epub/sanitize.go:168-194 | Keeps exactly the attributes that are no event handler and no dangerous URI, in order. |
| Sanitizing.NormalizeURIForSafetyCheck | internal/epub/sanitize.go:196-233 | The fast path returns what the slow path would. |
| Sanitizing.SanitizeIsPolicyAndIdempotent | internal/epub/sanitize.go:64-288 | The result meets the policy of the walker that owns each node, and a second pass changes nothing. |
| Sanitizing.FixedIffPolicy | internal/epub/sanitize.go:64-288 | A document is left alone exactly when it meets the policy. |
| Sanitizing.NothingActiveRemains | internal/epub/sanitize.go:64-288 | Nowhere in the result is a stripped element, an event handler or a dangerous URI, promoted children included. |
| Sanitizing.CleaningKeepsVerdict | internal/epub/sanitize.go:116-194 | Attribute cleaning never removes what the element policy looks at. |
| Sanitizing.UnwrapPromotes | internal/epub/sanitize.go:127-145 | An unwrapped element is replaced in place by its sanitized children. |
| Sanitizing.ElementFate | internal/epub/sanitize.go:10-49 | By its name and markers a child is removed with all it holds, replaced in place by what it holds, or kept with its harmless attributes and the children its walker makes of it. |
| Sanitizing.SvgElementFate | internal/epub/sanitize.go:248-315 | The same inside SVG, where scripts and foreign objects in any letter case and animations of a URL attribute go too, and HTML children return to the HTML walker. |
| Sanitizing.AttributeFate | internal/epub/sanitize.go:168-194 | Event handlers and URI attributes that run script are removed; every other attribute stays in its place, unchanged. |
| Sanitizing.IgnoredHidesNothing | internal/epub/sanitize.go:208-221 | A control, space or non-ASCII character anywhere in a URI does not change what the check sees. |
| Sanitizing.CaseHidesNothing | internal/epub/sanitize.go:196-221 | Neither does the case of the letters. |
| Sanitizing.PlainIsNormal | internal/epub/sanitize.go:196-233 | Printable text without capitals is checked as it stands. |
| Sanitizing.SanitizeKeepsText | internal/epub/sanitize.go:64-288 | Exactly the text outside dropped elements survives, in document order. |
| Sanitizing.DepthIsBounded | internal/epub/sanitize.go:58-79 | No node of the result lies deeper than the limit plus one. |
| Splicing.ApplySplices | internal/epub/edit.go:336-358 | The sorted splices woven into the source, an overlapping one skipped. |
| Splicing.ScanOPF | internal/epub/edit.go:411-511 | The scan over the token stream, with its four errors. |
| PackageScans.ScanAccepts | internal/epub/edit.go:411-511 | A document is accepted if and only if every token fits the elements open before it and none is left open. |
| PackageScans.ScanRecords | internal/epub/edit.go:398-511 | The scan records the first title and every creator among the children of the metadata, every item of the manifest, and where the two sections end. |
| Splicing.RecordedSpansAreApart | internal/epub/edit.go:398-511 | For every accepted token stream the recorded spans are pairwise disjoint, and the insertion points lie outside all of them. |
| Splicing.RewriteIsRightToLeft | internal/epub/edit.go:237-358 | Every rewrite produces disjoint splices, the overlap skip never fires, and the result equals applying them one at a time from right to left; what they write is said in `Rewrites`. |
| Splicing.RewriteKeepsTheRest | internal/epub/edit.go:237-358 | Cutting what a rewrite wrote out of the result leaves exactly the document without the ranges it replaced, and putting those back gives the document. |
| Rewrites.RewriteOPF | internal/epub/edit.go:237-334 | Scans and rewrites: the errors of the scan, or the edited document. |
| Rewrites.TitleIsSet | internal/epub/edit.go:256-260 | With only a new title, the result is the document with the text between the title's tags replaced by the escaped value, also for a self-closing title; nothing else changes. |
| Rewrites.TitleIsAdded | internal/epub/edit.go:261-270 | A missing title is inserted at the end of the metadata; without metadata the edit fails. |
| Rewrites.NewElementReads | internal/epub/edit.go:262-266 | The inserted element binds its own prefix and holds the escaped value. |
| Rewrites.AuthorIsSet | internal/epub/edit.go:273-279 | With only a new author, the text of the first creator and the value of its sort key are replaced, and nothing else. |
| Rewrites.AuthorIsCleared | internal/epub/edit.go:275-282 | A blank author clears the text and the sort key of every creator, and of nothing else. |
| Rewrites.AuthorIsAdded | internal/epub/edit.go:283-293 | A missing author is inserted unless it is blank; without metadata the edit fails. |
| Rewrites.CoverIsDeclared | internal/epub/edit.go:296-316 | Exactly the items that name the cover and do not say JPEG get the media type. |
| Rewrites.MediaTypeIsSet | internal/epub/edit.go:304-314 | The edited item reads as before, except that its last media type is JPEG, or that it has one where it had none. |
| Rewrites.JpegIsRecognized | internal/epub/edit.go:594-597 | A media type says JPEG by its letters alone, whatever white space stands around them and whatever their case. |
| Rewrites.CoverIsAdded | internal/epub/edit.go:317-330 | A new cover is an item at the end of the manifest and a `meta` at the end of the metadata; without either section the edit fails. |
| Rewrites.NewItemReads | internal/epub/edit.go:326-327 | The new item reads back with its id, its href, the JPEG media type and the cover property. |
| Rewrites.NewMetaReads | internal/epub/edit.go:328-329 | The `meta` reads back naming the cover by that id. |
| Rewrites.EditsAreIndependent | internal/epub/edit.go:254-331 | Title, author and cover together splice what each splices alone, and fail exactly if one of them fails. |
| Rewrites.NothingToEdit | internal/epub/edit.go:237-334 | An edit that sets nothing returns the document. |
| Markup.EscapeReadsBack | internal/epub/edit.go:628-636 | What an XML reader gets for an escaped text is the text, for every text XML can hold. |
| Markup.EscapeHasNoMarkup | internal/epub/edit.go:628-636 | Escaped text holds no markup. |
| Markup.ReadsAttribute | internal/epub/edit.go:517-578 | The attribute scan reads name and value of an attribute as XML writes it, with either quote and any white space. |
| Markup.ReadsTag | internal/epub/edit.go:517-578 | A start tag written here reads back with its attributes. |
| Markup.MatchesLocalPart | internal/epub/edit.go:580-588 | A name matches exactly itself and any single-prefixed form of it. |
| Splicing.RespliceIsSplice | internal/epub/edit.go:336-358 | Putting other texts where the result has the replacements is splicing those texts into the source. |
| Splicing.WeaveIsRightToLeft | internal/epub/edit.go:336-358 | Splices in a chain are woven as if applied from the right. |
| Splicing.SortKeeps | internal/epub/edit.go:340-342 | Sorting keeps splices disjoint and puts them in ascending order. |
| TagAttributes.ReplaceAttrValue | internal/epub/edit.go:517-578 | Ends on every byte string and returns `Edited` of the tag. |
| TagAttributes.EditChangesOneValue | internal/epub/edit.go:513-578 | Re-scanning the result yields the same attributes, except that the last one with the local name holds the escaped value; no match returns the tag unchanged. |
| TagAttributes.Rescan | internal/epub/edit.go:527-577 | The same for any one attribute and any value without quotes. |
| TagAttributes.EscapeHasNoQuotes | internal/epub/edit.go:628-640 | An escaped value holds neither kind of quote, whatever bytes the value has. |
| TagAttributes.EditKeepsSelfClose | internal/epub/edit.go:362-373 | A self-closing tag still ends with its `/>` after the edit, which is what the two bytes cut off are. |
| BookEdits.StepKeepsInv | internal/api/bookedit.go:206-417 | Every step of readers, edits and deletion under the gate and the edit mutex keeps the invariant. |
| BookEdits.CachedBooksAreConsistent | internal/api/bookedit.go:206-297 | When nobody holds the write gate, a cached book has cached hash = row hash = hash of the file, and derived entries only from that file, however the edits before ended. |
| BookEdits.ReadersSeeOneGeneration | internal/api/chapters.go:88-101 | Everything a reader under the gate has read is the one content its row's hash names. |
| BookEdits.EditsAreAllOrNothing | internal/api/bookedit.go:372-416 | When an edit is over and the book is still cached, file, cover and row are all as before or all as meant. |
| BookEdits.EditsTakeEffect | internal/api/bookedit.go:372-416 | How every edit ends: with a current snapshot and no failure, file, cover and row are what the edit meant and the cache holds the row; with only the reload failed, the same out of the cache; with anything else failed and put back, the book as it was. |
| BookEdits.DeletionsTakeEffect | internal/api/books.go:278-342 | How every deletion ends: nothing happened, or row, cache entry and derived entries are gone, and the files, if they could be removed. |
| BookEdits.GateExcludes | internal/api/bookedit.go:49-62 | One edit at a time, one holder of the write gate, no reader beside it. |
| BookEdits.BookStore.ReplaceBookFile | internal/api/bookedit.go:284-297 | Refused without effect, or derived entries dropped and then renamed or not. |
| BookEdits.BookStore.RollbackBookEdit | internal/api/bookedit.go:208-220 | Restores what it can; any failure takes the book out of the cache. |
| BookEdits.BookStore.RefreshBookCache | internal/api/bookedit.go:109-121 | Caches the row, or removes the book if it cannot be reloaded. |
| BookEdits.BookStore.CommitEdit | internal/api/bookedit.go:532-603 | For every combination of outcomes which answer is given and what it means: stale, not backed up and refused exactly then, with nothing changed; published exactly if every operation worked, with the edit applied and the row cached; rolled back with the book as before; or out of the cache. |

## Left out

- Reader `Close` errors, a reader returned together with an error, and how the derived caches of the store are filled; the list index of `zipLRU` and `LRUCache` is a map from keys, not pointers into a linked list.
- Profiles: loading and closing the handles is one event each; waiting is a step that is enabled when the source's channel would be closed, so that a waiter is woken in time is not claimed, and a caller of `lockProfiles` that still holds a reference to a name it locks waits for itself forever, as internal/api/auth.go:779-782 warns. The names passed to `lockProfiles` come normalized.
- Coalescer.ProgressTable.Save: the `updated_at` stamp of the row is not modelled.
- Coalescer.ProgressCoalescer.RemapBook: the restamping of `UpdatedAt` is not modelled.
- ChapterRemaps.PositionTable.RemapPositions: one book's positions are one map, and `updated_at` is not modelled.
- Coalescer.ProgressCoalescer.Flush: the method's contract is for a flush nobody disturbs; what other sections do between its steps is covered by the protocol's lemmas, not by this method.
- Progress: `UpdatedAt`, `StampAfter` and their ordering; the flush timer and its back-off; SQLite's own errors beyond "stored", "book gone" and "failed".
- The generation check of `putProgressHandler` before `stage`, which runs without the gate (internal/api/progress.go:160-196).
- `ChapterRemap` percents are real numbers, not IEEE doubles.
- Spine memo: parsing `spineJson`; the library behind the shared loads is a table of flights, from which a waiter may take the result any time after the load ended.
- Throttle: a section that runs with a time read before an earlier section's; entries are values in a map instead of pointers, and time counts whole seconds.
- Search: a chapter whose extraction fails on one page and works on the next, the JSON and base64 form of a cursor; trimming the query works on decoded code points.
- Case folding of code points that fold to several, or the regular expressions of the frame's `foldQuery`.
- Extractors: HTML names are an enumeration, so how `tagName` and atoms spell them is not modelled; the content of a template lies outside the DOM tree; comments have no children; frameset pages, which have no body, are not part of `ChapterTexts.Page`.
- The frame's DOM is taken to be the sanitized tree: writing the body out, the URL and CSS rewriting in between (internal/epub/chapter.go) and the browser's parse of what was written are not modelled.
- Highlighting: wrapping a run in `mark` elements through DOM ranges, and clearing them.
- Sanitizer: a child list is a sequence, not sibling pointers, and an attribute list a sequence, so aliasing between nodes is not modelled; atoms are identified with names; lower-casing is modelled as far as it decides a comparison with ASCII names.
- Package documents: the XML tokenizer is a parameter, and so are the hrefs of the declared cover (`findCoverPath`, `resolvePath`) and the id and href of a new one (`uniqueItemID`, `uniqueCoverHref`); that text and attribute values of an edited document read back is proved of the escaped bytes and the tags, not of a second pass of the tokenizer.
- Edits: crash atomicity, which the source disclaims (internal/api/bookedit.go:127); a cover file half written by a failed write; reopening a profile after a failed rollback, and books added or rescanned beside an edit; the progress part of a replacement, which `Coalescer` covers.
- HTTP decoding, status codes, headers, cookies, routing, CORS, gzip, static files, command line and logging: plumbing.
- SQLite, migrations and data source names: the tables are maps with atomic updates and a foreign-key rejection.
- ZIP, brotli, zlib, bcrypt, SHA-256 and image codecs: a hash is a function of the bytes, the rest is absent.
- Symbolic links, file handles on Windows and permissions.
- CSS rewriting, fonts, settings, presets, flairs, bookmarks, list sorting, upload staging and library scanning: mostly field copies, range checks or I/O.
- User interface components, layout and animation.
