/** Paged search over chapter texts: `Search` of internal/epub/search.go. */
module Searching {

  // The source scans UTF-8 bytes and counts code points as it goes; the specification speaks of code
  // points only.  Simple case folding is a parameter: one code point to one code point.

  import opened Basics
  import opened ByteStrings
  import opened Utf8
  import opened Collapsing
  import opened Wrappers

  const SNIPPET_CONTEXT := 80
  const DEFAULT_LIMIT := 20

  type Folding = Rune -> Rune

  function Fold(t: seq<Rune>, lower: Folding): (r: seq<Rune>)
    ensures |r| == |t| && forall i :: 0 <= i < |t| ==> r[i] == lower(t[i])
  {
    if t == [] then [] else [lower(t[0])] + Fold(t[1..], lower)
  }

  /** `foldRunes`: the fold of whatever the bytes decode to. */
  method FoldRunes(s: Bytes, lower: Folding) returns (b: Bytes)
    ensures b == Encode(Fold(Decode(s), lower))
  {
    b := [];
    var rest := s;
    while rest != []
      invariant Encode(Fold(Decode(s), lower)) == b + Encode(Fold(Decode(rest), lower))
      decreases |rest|
    {
      FoldStep(b, rest, lower);
      b := b + EncodeRune(lower(HeadRune(rest)));
      rest := rest[StepWidth(rest)..];
    }
  }

  lemma FoldStep(b: Bytes, s: Bytes, lower: Folding)
    requires s != []
    ensures b + Encode(Fold(Decode(s), lower))
         == b + EncodeRune(lower(HeadRune(s))) + Encode(Fold(Decode(s[StepWidth(s)..]), lower))
  {
    hide EncodeRune, HeadRune, StepWidth, Fold;
    var head, rest := EncodeRune(lower(HeadRune(s))), Decode(s[StepWidth(s)..]);
    FoldCons(HeadRune(s), rest, lower);
    assert b + (head + Encode(Fold(rest, lower))) == b + head + Encode(Fold(rest, lower));
  }

  lemma FoldCons(r: Rune, rest: seq<Rune>, lower: Folding)
    ensures Encode(Fold([r] + rest, lower)) == EncodeRune(lower(r)) + Encode(Fold(rest, lower))
  {
    assert ([r] + rest)[1..] == rest;
    assert Fold([r] + rest, lower)[1..] == Fold(rest, lower);
  }

  /** The byte index where code point number `offset` starts, or the length past the end. */
  function ByteIndex(s: Bytes, offset: int): nat
    decreases |s|
  {
    if offset <= 0 || s == [] then 0 else StepWidth(s) + ByteIndex(s[StepWidth(s)..], offset - 1)
  }

  lemma ByteIndexStep(s: Bytes, i: nat, offset: int)
    requires i < |s| && offset > 0
    ensures var w := StepWidth(s[i..]); ByteIndex(s[i..], offset) == w + ByteIndex(s[i + w..], offset - 1)
  {
    assert s[i..][StepWidth(s[i..])..] == s[i + StepWidth(s[i..])..];
  }

  method RuneOffsetToByteIndex(s: Bytes, runeOffset: int) returns (index: nat)
    ensures index == ByteIndex(s, runeOffset)
  {
    hide WellFormed, StepWidth;
    if runeOffset <= 0 {
      return 0;
    }
    var runeCount := 0;
    var i := 0;
    while i < |s|
      invariant 0 <= i <= |s| && 0 <= runeCount <= runeOffset
      invariant ByteIndex(s, runeOffset) == i + ByteIndex(s[i..], runeOffset - runeCount)
    {
      if runeCount == runeOffset {
        return i;
      }
      ByteIndexStep(s, i, runeOffset - runeCount);
      i := i + StepWidth(s[i..]);
      runeCount := runeCount + 1;
    }
    return |s|;
  }

  /** One step over an encoded text is one code point. */
  lemma FirstStep(t: seq<Rune>)
    requires t != []
    ensures Encode(t) != [] && StepWidth(Encode(t)) == |EncodeRune(t[0])|
    ensures Encode(t)[StepWidth(Encode(t))..] == Encode(t[1..])
  {
    EncodeDecodes(t[0], Encode(t[1..]));
    assert Encode(t)[|EncodeRune(t[0])|..] == Encode(t[1..]);
  }

  lemma {:induction false} ByteIndexIsOffset(t: seq<Rune>, offset: nat)
    ensures ByteIndex(Encode(t), offset) == if offset <= |t| then Offset(t, offset) else |Encode(t)|
  {
    if offset > 0 && t != [] {
      hide StepWidth, EncodeRune;
      FirstStep(t);
      ByteIndexIsOffset(t[1..], offset - 1);
      if offset <= |t| {
        assert t[..offset][1..] == t[1..][..offset - 1];
      }
    }
  }

  // ---------------------------------------------------------------- greedy matches

  /** The greedy, non-overlapping matches from a position on. */
  function Matches(t: seq<Rune>, q: seq<Rune>, from: nat): seq<nat>
    requires q != []
    decreases |t| - from
  {
    match First(t, q, from)
    case None => []
    case Some(k) => [k] + Matches(t, q, k + |q|)
  }

  /** Greedy matches are occurrences and do not overlap. */
  lemma {:induction false} MatchesAreApart(t: seq<Rune>, q: seq<Rune>, from: nat, i: nat)
    requires q != [] && i < |Matches(t, q, from)|
    ensures from <= Matches(t, q, from)[i] && OccursAt(t, q, Matches(t, q, from)[i])
    ensures i > 0 ==> Matches(t, q, from)[i - 1] + |q| <= Matches(t, q, from)[i]
    decreases i
  {
    if i > 0 {
      MatchesAreApart(t, q, First(t, q, from).value + |q|, i - 1);
    }
  }

  /** Greedy matches leave no occurrence untouched. */
  lemma {:induction false} NoOccurrenceMissed(t: seq<Rune>, q: seq<Rune>, from: nat, pos: nat) returns (i: nat)
    requires q != [] && from <= pos && OccursAt(t, q, pos)
    ensures i < |Matches(t, q, from)| && Matches(t, q, from)[i] <= pos < Matches(t, q, from)[i] + |q|
    decreases |t| - from
  {
    hide First;
    var k := First(t, q, from).value;
    assert Matches(t, q, from) == [k] + Matches(t, q, k + |q|);
    if pos < k + |q| {
      i := 0;
    } else {
      var j := NoOccurrenceMissed(t, q, k + |q|, pos);
      i := j + 1;
    }
  }

  /** A match: chapter and code-point position. */
  datatype Hit = Hit(chapter: nat, pos: nat)

  function Tag(chapter: nat, ms: seq<nat>): (hits: seq<Hit>)
    ensures |hits| == |ms| && forall i :: 0 <= i < |ms| ==> hits[i] == Hit(chapter, ms[i])
  {
    seq(|ms|, i requires 0 <= i < |ms| => Hit(chapter, ms[i]))
  }

  /** The code points of a chapter: the original text and its fold. */
  datatype Chapter = Chapter(orig: seq<Rune>, lower: seq<Rune>)

  /** Chapters whose text could not be extracted are `None`, and skipped. */
  type Book = seq<Option<Chapter>>

  /** What `chapterPlainText` returns: the same two texts, encoded. */
  datatype Text = Text(orig: Bytes, lower: Bytes)

  predicate Renders(text: Option<Text>, chapter: Option<Chapter>, lower: Folding) {
    match (text, chapter)
    case (None, None) => true
    case (Some(x), Some(y)) => x.orig == Encode(y.orig) && x.lower == Encode(y.lower) && y.lower == Fold(y.orig, lower)
    case _ => false
  }

  /** The encoded texts are those of the book. */
  ghost predicate RendersBook(texts: seq<Option<Text>>, book: Book, lower: Folding) {
    |texts| == |book| && forall i :: 0 <= i < |texts| ==> Renders(texts[i], book[i], lower)
  }

  function ChapterHits(book: Book, q: seq<Rune>, c: nat, from: nat): seq<Hit>
    requires q != [] && c < |book|
  {
    if book[c].None? then [] else Tag(c, Matches(book[c].value.lower, q, from))
  }

  /** Every match from a position of chapter `c` to the end of the book. */
  function AllHits(book: Book, q: seq<Rune>, c: nat, from: nat): seq<Hit>
    requires q != []
    decreases |book| - c
  {
    if c >= |book| then [] else ChapterHits(book, q, c, from) + AllHits(book, q, c + 1, 0)
  }

  // ---------------------------------------------------------------- results and pages

  datatype SearchResult = SearchResult(
    chapterIndex: nat,
    charOffset: nat,
    matchLen: nat,
    snippet: Bytes,
    snippetStart: nat,
    snippetLen: nat
  )

  datatype Cursor = Cursor(chapterIndex: int, charOffset: int)

  datatype SearchResponse = SearchResponse(results: seq<SearchResult>, hasMore: bool, next: Option<Cursor>)

  predicate Fits(book: Book, h: Hit, len: nat) {
    h.chapter < |book| && book[h.chapter].Some? && h.pos + len <= |book[h.chapter].value.orig|
  }

  /** The result for one hit, with its snippet of context. */
  function ResultOf(book: Book, h: Hit, len: nat): SearchResult
    requires Fits(book, h, len)
  {
    var orig := book[h.chapter].value.orig;
    var from := Max(h.pos - SNIPPET_CONTEXT, 0);
    var to := Min(h.pos + len + SNIPPET_CONTEXT, |orig|);
    SearchResult(h.chapter, h.pos, len, Encode(orig[from..to]), h.pos - from, len)
  }

  predicate IsResult(book: Book, h: Hit, len: nat, r: SearchResult) {
    Fits(book, h, len) && r == ResultOf(book, h, len)
  }

  /** One result per hit, in order. */
  predicate ResultsFor(book: Book, hits: seq<Hit>, len: nat, results: seq<SearchResult>)
    decreases |hits|
  {
    && |results| == |hits|
    && (hits != [] ==>
          var n := |hits| - 1;
          ResultsFor(book, hits[..n], len, results[..n]) && IsResult(book, hits[n], len, results[n]))
  }

  lemma {:induction false} ResultAt(book: Book, hits: seq<Hit>, len: nat, results: seq<SearchResult>, i: nat)
    requires ResultsFor(book, hits, len, results) && i < |hits|
    ensures IsResult(book, hits[i], len, results[i])
    decreases |hits|
  {
    if i < |hits| - 1 {
      ResultAt(book, hits[..|hits| - 1], len, results[..|hits| - 1], i);
    }
  }

  function EffectiveLimit(limit: int): nat {
    if limit <= 0 then DEFAULT_LIMIT else limit
  }

  function StartChapter(cursor: Option<Cursor>): nat {
    if cursor.None? then 0 else Max(cursor.value.chapterIndex, 0)
  }

  function StartChar(cursor: Option<Cursor>): nat {
    if cursor.None? then 0 else Max(cursor.value.charOffset, 0)
  }

  /** The page of matches a cursor and a limit select, and the cursor of the next page. */
  function Page(all: seq<Hit>, limit: int): (seq<Hit>, Option<Cursor>) {
    var n := EffectiveLimit(limit);
    if |all| <= n then (all, None) else (all[..n], Some(Cursor(all[n].chapter, all[n].pos)))
  }

  /** The query as it is compared: decoded, trimmed, collapsed and folded. */
  function FoldedQuery(query: Bytes, lower: Folding): seq<Rune> {
    Fold(Collapse(TrimSpace(Decode(query))), lower)
  }

  // ---------------------------------------------------------------- the search loop

  lemma {:induction false} FirstShifts<T>(t: seq<T>, q: seq<T>, pos: nat)
    requires pos <= |t|
    ensures First(t, q, pos) == match First(t[pos..], q, 0) case None => None case Some(k) => Some(pos + k)
  {
    var here, there := First(t, q, pos), First(t[pos..], q, 0);
    if here.Some? {
      assert t[pos..][here.value - pos..here.value - pos + |q|] == t[here.value..here.value + |q|];
      assert OccursAt(t[pos..], q, here.value - pos);
    }
    if there.Some? {
      assert t[pos..][there.value..there.value + |q|] == t[pos + there.value..pos + there.value + |q|];
      assert OccursAt(t, q, pos + there.value);
    }
  }

  lemma ShortTail(t: seq<Rune>, q: seq<Rune>, pos: nat)
    requires q != [] && pos <= |t| && Offset(t, pos) + |Encode(q)| > |Encode(t)|
    ensures First(t, q, pos).None?
  {
    var first := First(t, q, pos);
    if first.Some? {
      MatchEncodes(t, q, first.value);
      OffsetRises(t, pos, first.value);
    }
  }

  /** The scan's place in the text: `bytePos` is where code point `runePos` starts, unless the cursor
      pointed past the end. */
  predicate InStep(t: seq<Rune>, runePos: nat, bytePos: nat) {
    if runePos <= |t| then bytePos == Offset(t, runePos) else bytePos == |Encode(t)|
  }

  lemma NothingLeft(t: seq<Rune>, q: seq<Rune>, runePos: nat, bytePos: nat)
    requires q != [] && InStep(t, runePos, bytePos) && bytePos + |Encode(q)| > |Encode(t)|
    ensures First(t, q, runePos).None?
  {
    if runePos <= |t| { ShortTail(t, q, runePos); }
  }

  lemma QueryIsLong(q: seq<Rune>)
    requires q != []
    ensures |Encode(q)| > 0
  {
    EncodeIsLong(q);
  }

  lemma NoHit(book: Book, q: seq<Rune>, c: nat, from: nat)
    requires q != [] && c < |book|
    requires book[c].Some? ==> Matches(book[c].value.lower, q, from) == []
    ensures AllHits(book, q, c, from) == AllHits(book, q, c + 1, 0)
  {
  }

  /** Takes hits in turn until the page is full; then the hit that did not fit. */
  function Collect(hits: seq<Hit>, done: seq<Hit>, count: nat): (seq<Hit>, Option<Hit>)
    decreases |hits|
  {
    if hits == [] then (done, None)
    else if |done| == count then (done, Some(hits[0]))
    else Collect(hits[1..], done + [hits[0]], count)
  }

  lemma TakeShifts(done: seq<Hit>, hits: seq<Hit>, n: nat)
    requires 1 <= n <= |hits|
    ensures done + [hits[0]] + hits[1..][..n - 1] == done + hits[..n]
  {
  }

  /** Collecting all hits yields the page of the first `count`. */
  lemma {:induction false} CollectIsPage(hits: seq<Hit>, done: seq<Hit>, count: nat)
    requires |done| <= count
    ensures Collect(hits, done, count).0 == done + hits[..Min(count - |done|, |hits|)]
    ensures Collect(hits, done, count).1 == if count - |done| < |hits| then Some(hits[count - |done|]) else None
    decreases |hits|
  {
    if hits == [] || |done| == count {
      assert done + hits[..0] == done;
    } else {
      CollectIsPage(hits[1..], done + [hits[0]], count);
      TakeShifts(done, hits, Min(count - |done|, |hits|));
    }
  }

  lemma OneMore(book: Book, hits: seq<Hit>, h: Hit, len: nat, results: seq<SearchResult>, r: SearchResult)
    requires ResultsFor(book, hits, len, results) && IsResult(book, h, len, r)
    ensures ResultsFor(book, hits + [h], len, results + [r])
  {
    assert (hits + [h])[..|hits|] == hits && (results + [r])[..|results|] == results;
  }

  /** One chapter's scan over code points: the hits it adds, and the first match that did not fit. */
  function Scan(t: seq<Rune>, c: nat, q: seq<Rune>, pos: nat, done: seq<Hit>, count: nat): (seq<Hit>, Option<nat>)
    requires q != []
    decreases |t| - pos
  {
    match First(t, q, pos)
    case None => (done, None)
    case Some(k) =>
      if |done| == count then (done, Some(k)) else Scan(t, c, q, k + |q|, done + [Hit(c, k)], count)
  }

  lemma HitsCons(c: nat, k: nat, ms: seq<nat>, rest: seq<Hit>)
    ensures Tag(c, [k] + ms) + rest == [Hit(c, k)] + (Tag(c, ms) + rest)
  {
  }

  lemma CollectHead(c: nat, k: nat, ms: seq<nat>, rest: seq<Hit>, done: seq<Hit>, count: nat)
    ensures Collect(Tag(c, [k] + ms) + rest, done, count)
         == if |done| == count then (done, Some(Hit(c, k))) else Collect(Tag(c, ms) + rest, done + [Hit(c, k)], count)
  {
    var tail := Tag(c, ms) + rest;
    HitsCons(c, k, ms, rest);
    assert ([Hit(c, k)] + tail)[1..] == tail;
  }

  /** How a collection goes on after a scan of part of it. */
  function Resume(c: nat, scanned: (seq<Hit>, Option<nat>), rest: seq<Hit>, count: nat): (seq<Hit>, Option<Hit>) {
    if scanned.1.Some? then (scanned.0, Some(Hit(c, scanned.1.value))) else Collect(rest, scanned.0, count)
  }

  /** Scanning a chapter collects its greedy matches, then goes on with the rest of the book. */
  lemma {:induction false} ScanCollects(t: seq<Rune>, c: nat, q: seq<Rune>, pos: nat, done: seq<Hit>, count: nat, rest: seq<Hit>)
    requires q != []
    ensures Collect(Tag(c, Matches(t, q, pos)) + rest, done, count)
         == Resume(c, Scan(t, c, q, pos, done, count), rest, count)
    decreases |t| - pos
  {
    hide First, Collect;
    var first := First(t, q, pos);
    if first.None? {
      assert Tag(c, []) + rest == rest;
    } else {
      var k := first.value;
      CollectHead(c, k, Matches(t, q, k + |q|), rest, done, count);
      if |done| != count {
        ScanCollects(t, c, q, k + |q|, done + [Hit(c, k)], count, rest);
      }
    }
  }

  /** What the whole search has to return. */
  ghost predicate IsPage(book: Book, all: seq<Hit>, len: nat, limit: int, r: SearchResponse) {
    var (hits, next) := Page(all, limit);
    ResultsFor(book, hits, len, r.results) && r.next == next && (r.hasMore <==> next.Some?)
  }

  datatype SearchOutcome = Answer(response: SearchResponse) | Cancelled | Unreadable

  /** The caller's context as the search sees it: done from look number `doneAt` on. */
  predicate Done(doneAt: Option<nat>, look: nat) {
    doneAt.Some? && doneAt.value <= look
  }

  /** Where the scan of a chapter stands behind its greedy matches. */
  function Behind(ms: seq<nat>, from: nat, len: nat): nat {
    if ms == [] then from else ms[|ms| - 1] + len
  }

  /** Enough bytes are left behind a code point for one more probe. */
  predicate Room(t: seq<Rune>, q: seq<Rune>, pos: nat) {
    pos <= |t| && Offset(t, pos) + |Encode(q)| <= |Encode(t)|
  }

  /** The probes of one chapter's scan: one for each match the page has room for, and one more if a match
      does not fit or bytes remain behind the last. */
  function Probes(t: seq<Rune>, q: seq<Rune>, from: nat, left: nat): nat
    requires q != []
  {
    var ms := Matches(t, q, from);
    if |ms| > left then left + 1 else if Room(t, q, Behind(ms, from, |q|)) then |ms| + 1 else |ms|
  }

  /** How often a search looks at its context from chapter `c` on: before and after the extraction of each
      chapter it visits, after each probe, and at the end unless the page was full before. */
  function Looks(book: Book, q: seq<Rune>, c: nat, from: nat, left: nat): (n: nat)
    requires q != []
    ensures n >= 1
    decreases |book| - c
  {
    if c >= |book| then 1
    else if book[c].None? then 2 + Looks(book, q, c + 1, 0, left)
    else
      var t := book[c].value.lower;
      var found := |Matches(t, q, from)|;
      2 + Probes(t, q, from, left) + if found > left then 0 else Looks(book, q, c + 1, 0, left - found)
  }

  /** A search answers exactly when it never finds its context done, be it at the first look, before the
      book is opened, or at any of the looks that follow. */
  method Search(texts: seq<Option<Text>>, query: Bytes, cursor: Option<Cursor>, limit: int, lower: Folding,
                readable: bool, doneAt: Option<nat>, ghost book: Book) returns (r: SearchOutcome)
    requires RendersBook(texts, book, lower)
    ensures var q := FoldedQuery(query, lower);
            if q == [] then r == Answer(SearchResponse([], false, None))
            else if Done(doneAt, 0) then r == Cancelled
            else if !readable then r == Unreadable
            else
              var c, from := StartChapter(cursor), StartChar(cursor);
              if Done(doneAt, Looks(book, q, c, from, EffectiveLimit(limit))) then r == Cancelled
              else r.Answer? && IsPage(book, AllHits(book, q, c, from), |q|, limit, r.response)
  {
    var count := if limit <= 0 then DEFAULT_LIMIT else limit;
    var collapsed := CollapseSpaceRuns(TrimSpace(Decode(query)));
    var q := Fold(collapsed, lower);
    if q == [] {
      return Answer(SearchResponse([], false, None));
    }
    if Done(doneAt, 0) {
      return Cancelled;
    }
    if !readable {
      return Unreadable;
    }
    var cancelled, results, next;
    ghost var done;
    cancelled, results, next, done :=
      SearchFrom(texts, q, StartChapter(cursor), StartChar(cursor), count, doneAt, lower, book);
    if cancelled {
      return Cancelled;
    }
    CollectedPage(AllHits(book, q, StartChapter(cursor), StartChar(cursor)), limit);
    if next.None? {
      return Answer(SearchResponse(results, false, None));
    }
    return Answer(SearchResponse(results, true, Some(Cursor(next.value.chapter, next.value.pos))));
  }

  lemma CollectedPage(all: seq<Hit>, limit: int)
    ensures var (done, next) := Collect(all, [], EffectiveLimit(limit));
            Page(all, limit) == (done, if next.None? then None else Some(Cursor(next.value.chapter, next.value.pos)))
  {
    CollectIsPage(all, [], EffectiveLimit(limit));
    var n := Min(EffectiveLimit(limit), |all|);
    assert [] + all[..n] == all[..n];
    assert n == |all| ==> all[..n] == all;
  }

  /** The loop over the chapters, and the look behind it; `look` numbers the last look taken. */
  method SearchFrom(texts: seq<Option<Text>>, q: seq<Rune>, startChapter: nat, startChar: nat, count: nat,
                    doneAt: Option<nat>, ghost lower: Folding, ghost book: Book)
    returns (cancelled: bool, results: seq<SearchResult>, next: Option<Hit>, ghost done: seq<Hit>)
    requires q != [] && RendersBook(texts, book, lower) && !Done(doneAt, 0)
    ensures cancelled <==> Done(doneAt, Looks(book, q, startChapter, startChar, count))
    ensures !cancelled ==>
              (done, next) == Collect(AllHits(book, q, startChapter, startChar), [], count) && ResultsFor(book, done, |q|, results)
  {
    hide IsResult, Renders, ChapterHits, AllHits, Probes, Matches;
    ghost var goal := Collect(AllHits(book, q, startChapter, startChar), [], count);
    ghost var total := Looks(book, q, startChapter, startChar, count);
    cancelled, results, next, done := false, [], None, [];
    var c := startChapter;
    var from := startChar;
    var look: nat := 0;
    while c < |texts|
      invariant goal == Collect(AllHits(book, q, c, from), done, count) && ResultsFor(book, done, |q|, results)
      invariant next.None? && !cancelled && |done| <= count
      invariant !Done(doneAt, look) && total == look + Looks(book, q, c, from, count - |done|)
    {
      if Done(doneAt, look + 1) {
        cancelled := true;
        return;
      }
      var text := texts[c];
      if Done(doneAt, look + 2) {
        cancelled := true;
        return;
      }
      assert Renders(texts[c], book[c], lower);
      cancelled, look, results, next, done :=
        VisitChapter(text, c, q, from, count, results, doneAt, look + 2, lower, book, done);
      if cancelled || next.Some? {
        return;
      }
      c, from := c + 1, 0;
    }
    NoMoreHits(book, q, c, from);
    cancelled := Done(doneAt, look + 1);
  }

  lemma NoMoreHits(book: Book, q: seq<Rune>, c: nat, from: nat)
    requires q != [] && c >= |book|
    ensures AllHits(book, q, c, from) == []
  {
  }

  /** One chapter whose text was or was not extracted; `look` numbers the look behind the extraction. */
  method VisitChapter(text: Option<Text>, c: nat, q: seq<Rune>, from: nat, count: nat, before: seq<SearchResult>,
                      doneAt: Option<nat>, look: nat, ghost lower: Folding, ghost book: Book, ghost sofar: seq<Hit>)
    returns (cancelled: bool, last: nat, results: seq<SearchResult>, next: Option<Hit>, ghost done: seq<Hit>)
    requires q != [] && c < |book| && Renders(text, book[c], lower)
    requires ResultsFor(book, sofar, |q|, before) && |sofar| <= count && !Done(doneAt, look)
    ensures cancelled ==> look + Looks(book, q, c, from, count - |sofar|) >= 2
                          && Done(doneAt, look + Looks(book, q, c, from, count - |sofar|) - 2)
    ensures !cancelled ==>
              && |done| <= count && !Done(doneAt, last)
              && look + Looks(book, q, c, from, count - |sofar|)
                 == last + 2 + if next.Some? then 0 else Looks(book, q, c + 1, 0, count - |done|)
    ensures !cancelled ==>
              && Collect(AllHits(book, q, c, from), sofar, count)
                 == (if next.Some? then (done, next) else Collect(AllHits(book, q, c + 1, 0), done, count))
              && ResultsFor(book, done, |q|, results)
  {
    hide Probes, Matches, IsResult, Looks, Scan, Collect, AllHits, ChapterHits, ResultsFor;
    LooksHere(book, q, c, from, count - |sofar|);
    cancelled, last, results, next, done := false, look, before, None, sofar;
    if text.None? {
      NoHit(book, q, c, from);
      return;
    }
    ghost var t := book[c].value.lower;
    ChapterThenRest(book, q, c, from);
    ScanCollects(t, c, q, from, sofar, count, AllHits(book, q, c + 1, 0));
    ScanCounts(t, c, q, from, sofar, count);
    var at;
    cancelled, last, results, at, done := ScanChapter(text.value, c, q, from, count, before, doneAt, look, book, sofar);
    if at.Some? {
      next := Some(Hit(c, at.value));
    }
  }

  lemma LooksHere(book: Book, q: seq<Rune>, c: nat, from: nat, left: nat)
    requires q != [] && c < |book|
    ensures book[c].None? ==> Looks(book, q, c, from, left) == 2 + Looks(book, q, c + 1, 0, left)
    ensures book[c].Some? ==>
              var found := |Matches(book[c].value.lower, q, from)|;
              Looks(book, q, c, from, left)
              == 2 + Probes(book[c].value.lower, q, from, left)
                 + if found > left then 0 else Looks(book, q, c + 1, 0, left - found)
  {
    hide Probes, Matches;
  }

  /** How far a scan gets: to the end, or to the match that does not fit. */
  lemma {:induction false} ScanCounts(t: seq<Rune>, c: nat, q: seq<Rune>, pos: nat, done: seq<Hit>, count: nat)
    requires q != [] && |done| <= count
    ensures var (hits, at) := Scan(t, c, q, pos, done, count);
            var found := |Matches(t, q, pos)|;
            if found > count - |done| then at.Some? && |hits| == count else at.None? && |hits| == |done| + found
    decreases |t| - pos
  {
    hide First;
    var first := First(t, q, pos);
    if first.Some? && |done| < count {
      ScanCounts(t, c, q, first.value + |q|, done + [Hit(c, first.value)], count);
    }
  }

  lemma ChapterThenRest(book: Book, q: seq<Rune>, c: nat, from: nat)
    requires q != [] && c < |book| && book[c].Some?
    ensures AllHits(book, q, c, from)
         == Tag(c, Matches(book[c].value.lower, q, from)) + AllHits(book, q, c + 1, 0)
  {
  }

  lemma OffsetInside(t: seq<Rune>, k: nat)
    requires k <= |t|
    ensures Offset(t, k) <= |Encode(t)|
  {
    SplitAt(t, k);
  }

  lemma GapCounts(t: seq<Rune>, j: nat, k: nat)
    requires j <= k <= |t|
    ensures Offset(t, j) <= Offset(t, k) <= |Encode(t)|
    ensures |Decode(Encode(t)[Offset(t, j)..Offset(t, k)])| == k - j
  {
    OffsetsAdd(t, j, k);
    DecodeEncode(t[j..k]);
  }

  lemma MatchEnds(t: seq<Rune>, q: seq<Rune>, k: nat)
    requires OccursAt(t, q, k)
    ensures Offset(t, k + |q|) == Offset(t, k) + |Encode(q)|
  {
    OffsetRises(t, k, k + |q|);
  }

  /** One probe: `strings.Index` on the rest of the bytes, and the code points skipped. */
  method NextMatch(text: Bytes, query: Bytes, bytePos: nat, runePos: nat, ghost t: seq<Rune>, ghost q: seq<Rune>)
    returns (found: bool, byteStart: nat, runeStart: nat)
    requires text == Encode(t) && query == Encode(q) && q != []
    requires runePos <= |t| && bytePos == Offset(t, runePos) && bytePos <= |text|
    ensures found <==> First(t, q, runePos).Some?
    ensures found ==> First(t, q, runePos) == Some(runeStart) && runeStart + |q| <= |t|
    ensures found ==> bytePos <= byteStart == Offset(t, runeStart) && byteStart + |query| == Offset(t, runeStart + |q|)
  {
    hide Encode, EncodeRune, Decode;
    var idx := First(text[bytePos..], query, 0);
    ProbeAt(t, q, runePos, text[bytePos..], idx) by { SplitAt(t, runePos); }
    if idx.None? {
      return false, 0, 0;
    }
    found, byteStart := true, bytePos + idx.value;
    ghost var k := First(t, q, runePos).value;
    GapCounts(t, runePos, k);
    MatchEnds(t, q, k);
    runeStart := runePos + |Decode(text[bytePos..byteStart])|;
  }

  lemma ProbeAt(t: seq<Rune>, q: seq<Rune>, pos: nat, tail: Bytes, idx: Option<nat>)
    requires q != [] && pos <= |t| && tail == Encode(t[pos..]) && idx == First(tail, Encode(q), 0)
    ensures idx.None? ==> First(t, q, pos).None?
    ensures idx.Some? ==> First(t, q, pos).Some? && First(t, q, pos).value + |q| <= |t|
                          && Offset(t, pos) + idx.value == Offset(t, First(t, q, pos).value)
  {
    FirstByteIsFirstRune(t[pos..], q);
    FirstShifts(t, q, pos);
    var first := First(t, q, pos);
    if first.Some? {
      OffsetsAdd(t, pos, first.value);
    }
  }

  lemma NoRoom(t: seq<Rune>, q: seq<Rune>, pos: nat, left: nat)
    requires q != [] && First(t, q, pos).None? && !Room(t, q, pos)
    ensures Probes(t, q, pos, left) == 0
  {
    hide First, Room;
  }

  /** The next probe finds nothing, a match too many, or one more match. */
  lemma ProbeCounts(t: seq<Rune>, q: seq<Rune>, pos: nat, left: nat)
    requires q != [] && Room(t, q, pos)
    ensures Probes(t, q, pos, left)
         == match First(t, q, pos)
            case None => 1
            case Some(k) => if left == 0 then 1 else 1 + Probes(t, q, k + |q|, left - 1)
  {
    hide First, Room;
    if First(t, q, pos).Some? {
      var k := First(t, q, pos).value;
      assert Matches(t, q, pos) == [k] + Matches(t, q, k + |q|);
    }
  }

  /** The inner loop over the bytes of one chapter, with a look after every probe. */
  method ScanChapter(text: Text, c: nat, q: seq<Rune>, from: nat, count: nat, before: seq<SearchResult>,
                     doneAt: Option<nat>, look: nat, ghost book: Book, ghost sofar: seq<Hit>)
    returns (cancelled: bool, last: nat, results: seq<SearchResult>, at: Option<nat>, ghost done: seq<Hit>)
    requires q != [] && c < |book| && book[c].Some? && |book[c].value.lower| == |book[c].value.orig|
    requires text.orig == Encode(book[c].value.orig) && text.lower == Encode(book[c].value.lower)
    requires ResultsFor(book, sofar, |q|, before) && |sofar| <= count && !Done(doneAt, look)
    ensures cancelled <==> Done(doneAt, look + Probes(book[c].value.lower, q, from, count - |sofar|))
    ensures !cancelled ==>
              && last == look + Probes(book[c].value.lower, q, from, count - |sofar|)
              && (done, at) == Scan(book[c].value.lower, c, q, from, sofar, count) && ResultsFor(book, done, |q|, results)
  {
    hide Encode, EncodeRune, Decode, IsResult, First, Matches, Probes;
    var query := Encode(q);
    ghost var t := book[c].value.lower;
    ghost var goal := Scan(t, c, q, from, sofar, count);
    ghost var total := look + Probes(t, q, from, count - |sofar|);
    ByteIndexIsOffset(t, from);
    QueryIsLong(q);
    cancelled, last, results, at, done := false, look, before, None, sofar;
    var bytePos := RuneOffsetToByteIndex(text.lower, from);
    var runePos: nat := from;
    while bytePos + |query| <= |text.lower|
      invariant InStep(t, runePos, bytePos) && |done| <= count && !cancelled && at.None?
      invariant goal == Scan(t, c, q, runePos, done, count) && ResultsFor(book, done, |q|, results)
      invariant !Done(doneAt, last) && total == last + Probes(t, q, runePos, count - |done|)
      decreases |text.lower| - bytePos
    {
      OffsetInside(t, runePos);
      ProbeCounts(t, q, runePos, count - |done|);
      var found, byteStart, runeStart := NextMatch(text.lower, query, bytePos, runePos, t, q);
      if Done(doneAt, last + 1) {
        cancelled := true;
        return;
      }
      last := last + 1;
      if !found {
        return;
      }
      if |results| == count {
        at := Some(runeStart);
        return;
      }
      results := AddResult(text.orig, c, runeStart, |q|, results, book, done);
      done := done + [Hit(c, runeStart)];
      bytePos, runePos := byteStart + |query|, runeStart + |q|;
    }
    NothingLeft(t, q, runePos, bytePos);
    NoRoom(t, q, runePos, count - |done|);
  }

  /** The match with its context; clipping the context never clips the match. */
  method AddResult(orig: Bytes, c: nat, matchStart: nat, qLen: nat, before: seq<SearchResult>, ghost book: Book,
                   ghost done: seq<Hit>) returns (results: seq<SearchResult>)
    requires Fits(book, Hit(c, matchStart), qLen) && orig == Encode(book[c].value.orig)
    requires ResultsFor(book, done, qLen, before)
    ensures ResultsFor(book, done + [Hit(c, matchStart)], qLen, results)
  {
    DecodeEncode(book[c].value.orig);
    var origRunes := Decode(orig);
    var snippetFrom := if matchStart - SNIPPET_CONTEXT < 0 then 0 else matchStart - SNIPPET_CONTEXT;
    var snippetTo := matchStart + qLen + SNIPPET_CONTEXT;
    if |origRunes| < snippetTo {
      snippetTo := |origRunes|;
    }
    var result :=
      SearchResult(c, matchStart, qLen, Encode(origRunes[snippetFrom..snippetTo]), matchStart - snippetFrom, qLen);
    OneMore(book, done, Hit(c, matchStart), qLen, before, result);
    results := before + [result];
  }

  // ---------------------------------------------------------------- paging

  /** A hit found from one position is found by a search that starts there, and so are all after it. */
  lemma FirstIsItself(t: seq<Rune>, q: seq<Rune>, from: nat)
    requires First(t, q, from).Some?
    ensures First(t, q, First(t, q, from).value) == First(t, q, from)
  {
  }

  lemma {:induction false} MatchesRestart(t: seq<Rune>, q: seq<Rune>, from: nat, n: nat)
    requires q != [] && n < |Matches(t, q, from)|
    ensures Matches(t, q, Matches(t, q, from)[n]) == Matches(t, q, from)[n..]
    decreases n
  {
    hide First, OccursAt;
    var k := First(t, q, from).value;
    var rest := Matches(t, q, k + |q|);
    assert Matches(t, q, from) == [k] + rest;
    if n == 0 {
      FirstIsItself(t, q, from);
    } else {
      MatchesRestart(t, q, k + |q|, n - 1);
      assert ([k] + rest)[n..] == rest[n - 1..];
    }
  }

  lemma {:induction false} HitsRestart(book: Book, q: seq<Rune>, c: nat, from: nat, n: nat)
    requires q != [] && n < |AllHits(book, q, c, from)|
    ensures var all := AllHits(book, q, c, from); AllHits(book, q, all[n].chapter, all[n].pos) == all[n..]
    decreases |book| - c
  {
    hide First, OccursAt, Matches;
    var here, rest := ChapterHits(book, q, c, from), AllHits(book, q, c + 1, 0);
    if n < |here| {
      var t := book[c].value.lower;
      var ms := Matches(t, q, from);
      MatchesRestart(t, q, from, n);
      assert Tag(c, ms[n..]) == here[n..];
      assert (here + rest)[n..] == here[n..] + rest;
    } else {
      HitsRestart(book, q, c + 1, 0, n - |here|);
      assert (here + rest)[n..] == rest[n - |here|..];
    }
  }

  /** The hits of all pages, following `next` from a starting place; page `i` asks for `limits(i)`. */
  ghost function Follow(book: Book, q: seq<Rune>, c: nat, from: nat, limits: nat -> int, i: nat): seq<Hit>
    requires q != []
    decreases |AllHits(book, q, c, from)|
  {
    var (hits, next) := Page(AllHits(book, q, c, from), limits(i));
    if next.None? then hits
    else
      PageShrinks(book, q, c, from, limits(i));
      hits + Follow(book, q, next.value.chapterIndex, next.value.charOffset, limits, i + 1)
  }

  lemma PageShrinks(book: Book, q: seq<Rune>, c: nat, from: nat, limit: int)
    requires q != [] && Page(AllHits(book, q, c, from), limit).1.Some?
    ensures var all := AllHits(book, q, c, from);
            var next := Page(all, limit).1.value;
            && next.chapterIndex >= 0 && next.charOffset >= 0
            && AllHits(book, q, next.chapterIndex, next.charOffset) == all[EffectiveLimit(limit)..]
  {
    HitsRestart(book, q, c, from, EffectiveLimit(limit));
  }

  /** Paging is lossless: with any limits, the pages concatenate to the one-shot list of greedy matches. */
  lemma {:induction false} PagingIsLossless(book: Book, q: seq<Rune>, c: nat, from: nat, limits: nat -> int, i: nat)
    requires q != []
    ensures Follow(book, q, c, from, limits, i) == AllHits(book, q, c, from)
    decreases |AllHits(book, q, c, from)|
  {
    hide AllHits;
    var all := AllHits(book, q, c, from);
    var limit := limits(i);
    var (hits, next) := Page(all, limit);
    if next.Some? {
      PageShrinks(book, q, c, from, limit);
      PagingIsLossless(book, q, next.value.chapterIndex, next.value.charOffset, limits, i + 1);
      assert all == all[..EffectiveLimit(limit)] + all[EffectiveLimit(limit)..];
    }
  }

  lemma FoldSlice(t: seq<Rune>, lower: Folding, i: nat, j: nat)
    requires i <= j <= |t|
    ensures Fold(t[i..j], lower) == Fold(t, lower)[i..j]
  {
    hide Fold;
    forall k | 0 <= k < j - i ensures Fold(t[i..j], lower)[k] == Fold(t, lower)[i..j][k] {
      assert t[i..j][k] == t[i + k];
    }
  }

  lemma SliceOfSlice(t: seq<Rune>, from: nat, to: nat, i: nat, j: nat)
    requires from <= i <= j <= to <= |t|
    ensures t[from..to][i - from..j - from] == t[i..j]
  {
    forall k | 0 <= k < j - i ensures t[from..to][i - from..j - from][k] == t[i..j][k] {
    }
  }

  /** What a match of the folded text covers in the original folds to the query. */
  lemma MatchFolds(orig: seq<Rune>, q: seq<Rune>, pos: nat, lower: Folding)
    requires OccursAt(Fold(orig, lower), q, pos)
    ensures Fold(orig[pos..pos + |q|], lower) == q
  {
    FoldSlice(orig, lower, pos, pos + |q|);
  }

  /** A result names its place in the chapter, and its snippet holds the match at the stated offset, with
      up to 80 code points of context on either side. */
  lemma SnippetHoldsMatch(book: Book, q: seq<Rune>, h: Hit, lower: Folding)
    requires h.chapter < |book| && book[h.chapter].Some?
    requires book[h.chapter].value.lower == Fold(book[h.chapter].value.orig, lower)
    requires OccursAt(book[h.chapter].value.lower, q, h.pos)
    ensures Fits(book, h, |q|)
    ensures var r := ResultOf(book, h, |q|);
            var runes, orig := Decode(r.snippet), book[h.chapter].value.orig;
            && r.chapterIndex == h.chapter && r.charOffset == h.pos && r.matchLen == r.snippetLen == |q|
            && r.snippetStart + r.snippetLen <= |runes| && h.pos + |q| <= |orig|
            && runes[r.snippetStart..r.snippetStart + r.snippetLen] == orig[h.pos..h.pos + |q|]
            && Fold(orig[h.pos..h.pos + |q|], lower) == q
            && r.snippetStart == (if h.pos < 80 then h.pos else 80)
            && |runes| - r.snippetStart - |q| == (if |orig| - h.pos - |q| < 80 then |orig| - h.pos - |q| else 80)
  {
    hide Encode, Decode, EncodeRune, Fold;
    var orig := book[h.chapter].value.orig;
    var from, to := Max(h.pos - SNIPPET_CONTEXT, 0), Min(h.pos + |q| + SNIPPET_CONTEXT, |orig|);
    MatchFolds(orig, q, h.pos, lower);
    DecodeEncode(orig[from..to]);
    SliceOfSlice(orig, from, to, h.pos, h.pos + |q|);
  }

  // ---------------------------------------------------------------- what a search finds

  ghost predicate Folds(book: Book, lower: Folding) {
    forall c :: 0 <= c < |book| && book[c].Some? ==> book[c].value.lower == Fold(book[c].value.orig, lower)
  }

  /** The query without white space at its ends, and with one space for every run inside. */
  function Wanted(query: Bytes): seq<Rune> {
    Collapse(TrimSpace(Decode(query)))
  }

  lemma WantedFolds(query: Bytes, lower: Folding)
    ensures FoldedQuery(query, lower) == Fold(Wanted(query), lower)
  {
    hide Fold, Collapse, TrimSpace, Decode;
  }

  lemma {:induction false} ChapterHitsIn(book: Book, q: seq<Rune>, c0: nat, from0: nat, c: nat, j: nat) returns (i: nat)
    requires q != [] && c0 <= c < |book|
    requires j < |ChapterHits(book, q, c, if c == c0 then from0 else 0)|
    ensures i < |AllHits(book, q, c0, from0)|
    ensures AllHits(book, q, c0, from0)[i] == ChapterHits(book, q, c, if c == c0 then from0 else 0)[j]
    decreases c - c0
  {
    hide ChapterHits;
    if c == c0 {
      i := j;
    } else {
      var k := ChapterHitsIn(book, q, c0 + 1, 0, c, j);
      i := |ChapterHits(book, q, c0, from0)| + k;
    }
  }

  /** Whatever the case of the letters, every place in the book, from the cursor on, that reads like the
      query is covered by a reported match. */
  lemma EveryOccurrenceIsFound(book: Book, query: Bytes, lower: Folding, c0: nat, from0: nat, c: nat, pos: nat)
    returns (i: nat)
    requires Folds(book, lower) && c < |book| && book[c].Some? && (c0 < c || (c0 == c && from0 <= pos))
    requires var w := Wanted(query);
             w != [] && pos + |w| <= |book[c].value.orig| && Fold(book[c].value.orig[pos..pos + |w|], lower) == Fold(w, lower)
    ensures var all := AllHits(book, FoldedQuery(query, lower), c0, from0);
            i < |all| && all[i].chapter == c && all[i].pos <= pos < all[i].pos + |Wanted(query)|
  {
    hide Wanted, FoldedQuery, AllHits, Matches, First;
    WantedFolds(query, lower);
    var q, orig := FoldedQuery(query, lower), book[c].value.orig;
    FoldSlice(orig, lower, pos, pos + |q|);
    var j := NoOccurrenceMissed(book[c].value.lower, q, if c == c0 then from0 else 0, pos);
    i := ChapterHitsIn(book, q, c0, from0, c, j);
  }

  lemma {:induction false} HitIsMatch(book: Book, q: seq<Rune>, c: nat, from: nat, i: nat)
    requires q != [] && i < |AllHits(book, q, c, from)|
    ensures var h := AllHits(book, q, c, from)[i];
            && c <= h.chapter < |book| && book[h.chapter].Some? && OccursAt(book[h.chapter].value.lower, q, h.pos)
            && (h.chapter == c ==> from <= h.pos)
    ensures i > 0 ==> var g, h := AllHits(book, q, c, from)[i - 1], AllHits(book, q, c, from)[i];
                      g.chapter < h.chapter || (g.chapter == h.chapter && g.pos + |q| <= h.pos)
    decreases |book| - c
  {
    hide Matches, OccursAt, First;
    var here := ChapterHits(book, q, c, from);
    if i < |here| {
      MatchesAreApart(book[c].value.lower, q, from, i);
    } else {
      HitIsMatch(book, q, c + 1, 0, i - |here|);
      if i == |here| && i > 0 { MatchesAreApart(book[c].value.lower, q, from, i - 1); }
    }
  }

  /** Every reported match reads like the query, lies behind the cursor, and behind the match before it. */
  lemma EveryReportIsAnOccurrence(book: Book, query: Bytes, lower: Folding, c0: nat, from0: nat, i: nat)
    requires Folds(book, lower) && Wanted(query) != [] && i < |AllHits(book, FoldedQuery(query, lower), c0, from0)|
    ensures var w, all := Wanted(query), AllHits(book, FoldedQuery(query, lower), c0, from0);
            var h := all[i];
            && h.chapter < |book| && book[h.chapter].Some? && h.pos + |w| <= |book[h.chapter].value.orig|
            && Fold(book[h.chapter].value.orig[h.pos..h.pos + |w|], lower) == Fold(w, lower)
            && (c0 < h.chapter || (c0 == h.chapter && from0 <= h.pos))
            && (i > 0 ==> all[i - 1].chapter < h.chapter
                          || (all[i - 1].chapter == h.chapter && all[i - 1].pos + |w| <= h.pos))
  {
    hide Wanted, FoldedQuery, AllHits;
    WantedFolds(query, lower);
    var q := FoldedQuery(query, lower);
    HitIsMatch(book, q, c0, from0, i);
    var h := AllHits(book, q, c0, from0)[i];
    MatchFolds(book[h.chapter].value.orig, q, h.pos, lower);
  }

  /** What an answer shows: the first hits, 20 of them unless the caller asks for another number, and the
      place of the first one left out. */
  lemma AnswerShowsThePage(book: Book, all: seq<Hit>, len: nat, limit: int, r: SearchResponse)
    requires IsPage(book, all, len, limit, r)
    ensures var n := if limit <= 0 then 20 else limit;
            && |r.results| == (if |all| <= n then |all| else n)
            && (r.hasMore <==> |all| > n) && (r.next.Some? <==> |all| > n)
            && (|all| > n ==> r.next == Some(Cursor(all[n].chapter, all[n].pos)))
            && forall k :: 0 <= k < |r.results| ==>
                 r.results[k].chapterIndex == all[k].chapter && r.results[k].charOffset == all[k].pos && r.results[k].matchLen == len
  {
    hide Encode;
    var hits := Page(all, limit).0;
    forall k | 0 <= k < |hits| ensures IsResult(book, hits[k], len, r.results[k]) {
      ResultAt(book, hits, len, r.results, k);
    }
  }
}
