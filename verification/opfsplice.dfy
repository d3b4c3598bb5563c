/** Rewriting a package document by byte ranges: `scanOPF`, `rewriteOPF`, `editOPFText` and
    `applySplices` of internal/epub/edit.go.  The XML tokenizer is a parameter: a token stream whose
    offsets partition the bytes, with zero-length end tags behind self-closing elements. */
module Splicing {

  import opened Basics
  import opened ByteStrings
  import opened TagAttributes
  import C = Collapsing
  import M = Markup
  import U = Utf8
  import opened Wrappers

  // ---------------------------------------------------------------- splices

  datatype Splice = Splice(start: nat, end: nat, repl: Bytes)

  predicate Leq(a: Splice, b: Splice) {
    a.start < b.start || (a.start == b.start && a.end <= b.end)
  }

  /** Behind every splice that is not greater, as a stable sort puts it. */
  function Insert(sorted: seq<Splice>, op: Splice): seq<Splice> {
    if sorted == [] || Leq(sorted[|sorted| - 1], op) then sorted + [op]
    else Insert(sorted[..|sorted| - 1], op) + [sorted[|sorted| - 1]]
  }

  /** `slices.SortStableFunc` by start, then end. */
  function StableSort(ops: seq<Splice>): seq<Splice> {
    if ops == [] then [] else Insert(StableSort(ops[..|ops| - 1]), ops[|ops| - 1])
  }

  ghost predicate InBounds(ops: seq<Splice>, n: nat) {
    forall i :: 0 <= i < |ops| ==> ops[i].start <= ops[i].end <= n
  }

  /** The source with the splices applied from `pos` on; one that starts too early is skipped. */
  function Weave(src: Bytes, ops: seq<Splice>, pos: nat): Bytes
    requires pos <= |src| && InBounds(ops, |src|)
    decreases |ops|
  {
    if ops == [] then src[pos..]
    else if ops[0].start < pos then Weave(src, ops[1..], pos)
    else src[pos..ops[0].start] + ops[0].repl + Weave(src, ops[1..], ops[0].end)
  }

  /** One splice by itself. */
  function Apply(src: Bytes, op: Splice): Bytes
    requires op.start <= op.end <= |src|
  {
    src[..op.start] + op.repl + src[op.end..]
  }

  /** Each splice starts where the one before ended, or later. */
  predicate Chain(ops: seq<Splice>, pos: nat)
    decreases |ops|
  {
    ops == [] || (pos <= ops[0].start <= ops[0].end && Chain(ops[1..], ops[0].end))
  }

  /** The splices one at a time, the last first. */
  function RightToLeft(src: Bytes, ops: seq<Splice>): Bytes
    requires Chain(ops, 0) && InBounds(ops, |src|)
    decreases |ops|
  {
    if ops == [] then src
    else
      ChainInit(ops, 0);
      ChainFits(src, ops, 0);
      RightToLeft(Apply(src, ops[|ops| - 1]), ops[..|ops| - 1])
  }

  lemma {:induction false} ChainInit(ops: seq<Splice>, pos: nat)
    requires Chain(ops, pos) && ops != []
    ensures Chain(ops[..|ops| - 1], pos) && pos <= ops[|ops| - 1].start
    decreases |ops|
  {
    if |ops| > 1 {
      ChainInit(ops[1..], ops[0].end);
      assert ops[..|ops| - 1][1..] == ops[1..][..|ops| - 2];
    }
  }

  lemma {:induction false} ChainEnds(ops: seq<Splice>, pos: nat, i: nat)
    requires Chain(ops, pos) && i < |ops|
    ensures pos <= ops[i].start <= ops[i].end && (i < |ops| - 1 ==> ops[i].end <= ops[|ops| - 1].start)
    decreases |ops|
  {
    if i > 0 {
      ChainEnds(ops[1..], ops[0].end, i - 1);
    } else if |ops| > 1 {
      ChainEnds(ops[1..], ops[0].end, |ops| - 2);
    }
  }

  /** The other splices still fit after the last one was applied. */
  lemma ChainFits(src: Bytes, ops: seq<Splice>, pos: nat)
    requires Chain(ops, pos) && InBounds(ops, |src|) && ops != []
    ensures InBounds(ops[..|ops| - 1], |Apply(src, ops[|ops| - 1])|)
  {
    forall i | 0 <= i < |ops| - 1 ensures ops[i].start <= ops[i].end <= |Apply(src, ops[|ops| - 1])| {
      ChainEnds(ops, pos, i);
    }
  }

  lemma ApplyKeepsFront(src: Bytes, op: Splice, i: nat, j: nat)
    requires i <= j <= op.start <= op.end <= |src|
    ensures op.start <= |Apply(src, op)| && Apply(src, op)[i..j] == src[i..j]
    ensures Apply(src, op)[i..] == src[i..op.start] + op.repl + src[op.end..]
  {
  }

  lemma WeaveOne(src: Bytes, op: Splice, pos: nat)
    requires pos <= op.start <= op.end <= |src|
    ensures Weave(src, [op], pos) == src[pos..op.start] + op.repl + src[op.end..]
  {
    assert [op][1..] == [];
  }

  /** Applying the last splice first does not change what the others weave. */
  lemma {:induction false} LastFirst(src: Bytes, ops: seq<Splice>, pos: nat)
    requires Chain(ops, pos) && InBounds(ops, |src|) && ops != [] && pos <= |src|
    ensures var last := ops[|ops| - 1];
            && pos <= |Apply(src, last)| && InBounds(ops[..|ops| - 1], |Apply(src, last)|)
            && Weave(src, ops, pos) == Weave(Apply(src, last), ops[..|ops| - 1], pos)
    decreases |ops|
  {
    hide Apply;
    var last := ops[|ops| - 1];
    ChainInit(ops, pos);
    ChainFits(src, ops, pos);
    if |ops| == 1 {
      ApplyKeepsFront(src, last, pos, pos);
      assert ops == [last];
      WeaveOne(src, last, pos);
    } else {
      ChainEnds(ops, pos, 0);
      LastFirst(src, ops[1..], ops[0].end);
      assert ops[1..][..|ops| - 2] == ops[..|ops| - 1][1..];
      ApplyKeepsFront(src, last, pos, ops[0].start);
    }
  }

  /** Splices that form a chain are woven as if applied one at a time from the right. */
  lemma {:induction false} WeaveIsRightToLeft(src: Bytes, ops: seq<Splice>)
    requires Chain(ops, 0) && InBounds(ops, |src|)
    ensures Weave(src, ops, 0) == RightToLeft(src, ops)
    decreases |ops|
  {
    if ops != [] {
      LastFirst(src, ops, 0);
      ChainInit(ops, 0);
      WeaveIsRightToLeft(Apply(src, ops[|ops| - 1]), ops[..|ops| - 1]);
    }
  }

  /** The same ranges with other replacements. */
  function WithTexts(ops: seq<Splice>, texts: seq<Bytes>): (r: seq<Splice>)
    requires |texts| == |ops|
    ensures |r| == |ops|
    ensures forall i :: 0 <= i < |r| ==> r[i] == ops[i].(repl := texts[i])
  {
    seq(|ops|, i requires 0 <= i < |ops| => ops[i].(repl := texts[i]))
  }

  /** Where the replacements sit in the result, each to be replaced by another text; source position
      `pos` is result position `at`. */
  function Placed(ops: seq<Splice>, texts: seq<Bytes>, pos: nat, at: nat): seq<Splice>
    requires Chain(ops, pos) && |texts| == |ops|
    decreases |ops|
  {
    if ops == [] then []
    else
      var start := at + (ops[0].start - pos);
      var end := start + |ops[0].repl|;
      [Splice(start, end, texts[0])] + Placed(ops[1..], texts[1..], ops[0].end, end)
  }

  lemma {:induction false} RespliceFrom(src: Bytes, ops: seq<Splice>, texts: seq<Bytes>, pos: nat, done: Bytes)
    requires Chain(ops, pos) && InBounds(ops, |src|) && pos <= |src| && |texts| == |ops|
    ensures var out := done + Weave(src, ops, pos);
            var placed := Placed(ops, texts, pos, |done|);
            && InBounds(placed, |out|) && Chain(placed, |done|)
            && Weave(out, placed, |done|) == Weave(src, WithTexts(ops, texts), pos)
    decreases |ops|
  {
    if ops == [] {
      assert (done + src[pos..])[|done|..] == src[pos..];
    } else {
      var op := ops[0];
      var gap, rest := src[pos..op.start], Weave(src, ops[1..], op.end);
      RespliceFrom(src, ops[1..], texts[1..], op.end, done + gap + op.repl);
      assert WithTexts(ops, texts)[1..] == WithTexts(ops[1..], texts[1..]);
      Grow(done, gap, op.repl, rest);
      PlacedFirst(done, gap, op.repl, rest, Placed(ops, texts, pos, |done|));
    }
  }

  /** The first of the placed ranges lies behind the gap, and the others start behind it. */
  lemma PlacedFirst(done: Bytes, gap: Bytes, repl: Bytes, rest: Bytes, placed: seq<Splice>)
    requires placed != [] && placed[0].start == |done| + |gap| && placed[0].end == placed[0].start + |repl|
    requires InBounds(placed[1..], |done + gap + repl + rest|)
    ensures InBounds(placed, |done + gap + repl + rest|)
    ensures Weave(done + gap + repl + rest, placed, |done|)
         == gap + placed[0].repl + Weave(done + gap + repl + rest, placed[1..], placed[0].end)
  {
    assert placed == [placed[0]] + placed[1..];
    assert (done + gap + repl + rest)[|done|..placed[0].start] == gap;
  }

  /** Putting other texts where the result has the replacements is splicing those texts into the source:
      whatever lies outside the splices was left as it is, where it is. */
  lemma RespliceIsSplice(src: Bytes, ops: seq<Splice>, texts: seq<Bytes>)
    requires Chain(ops, 0) && InBounds(ops, |src|) && |texts| == |ops|
    ensures var out := Weave(src, ops, 0);
            var placed := Placed(ops, texts, 0, 0);
            && InBounds(placed, |out|) && Chain(placed, 0)
            && Weave(out, placed, 0) == Weave(src, WithTexts(ops, texts), 0)
  {
    assert [] + Weave(src, ops, 0) == Weave(src, ops, 0);
    RespliceFrom(src, ops, texts, 0, []);
  }

  /** The bytes outside the splices, in order. */
  function Outside(src: Bytes, ops: seq<Splice>, pos: nat): Bytes
    requires pos <= |src| && InBounds(ops, |src|) && Chain(ops, pos)
    decreases |ops|
  {
    if ops == [] then src[pos..] else src[pos..ops[0].start] + Outside(src, ops[1..], ops[0].end)
  }

  function Nothings(n: nat): seq<Bytes> {
    seq(n, _ => [])
  }

  /** The replaced bytes. */
  function Originals(src: Bytes, ops: seq<Splice>): (r: seq<Bytes>)
    requires InBounds(ops, |src|)
    ensures |r| == |ops|
    ensures forall i :: 0 <= i < |r| ==> r[i] == src[ops[i].start..ops[i].end]
  {
    seq(|ops|, i requires 0 <= i < |ops| => src[ops[i].start..ops[i].end])
  }

  lemma {:induction false} DeletingLeavesOutside(src: Bytes, ops: seq<Splice>, pos: nat)
    requires Chain(ops, pos) && InBounds(ops, |src|) && pos <= |src|
    ensures Weave(src, WithTexts(ops, Nothings(|ops|)), pos) == Outside(src, ops, pos)
    decreases |ops|
  {
    var cut := WithTexts(ops, Nothings(|ops|));
    if ops != [] {
      DeletingLeavesOutside(src, ops[1..], ops[0].end);
      assert cut[1..] == WithTexts(ops[1..], Nothings(|ops| - 1));
    }
  }

  lemma {:induction false} OriginalsLeaveAll(src: Bytes, ops: seq<Splice>, pos: nat)
    requires Chain(ops, pos) && InBounds(ops, |src|) && pos <= |src|
    ensures Weave(src, WithTexts(ops, Originals(src, ops)), pos) == src[pos..]
    decreases |ops|
  {
    var same := WithTexts(ops, Originals(src, ops));
    if ops != [] {
      var op := ops[0];
      OriginalsLeaveAll(src, ops[1..], op.end);
      assert same[1..] == WithTexts(ops[1..], Originals(src, ops[1..]));
      assert src[pos..op.start] + src[op.start..op.end] + src[op.end..] == src[pos..];
    }
  }

  /** Cutting the replacements out of the result leaves exactly the source without the spliced ranges,
      and putting the replaced bytes back gives the source. */
  lemma WeaveKeepsTheRest(src: Bytes, ops: seq<Splice>)
    requires Chain(ops, 0) && InBounds(ops, |src|)
    ensures var out := Weave(src, ops, 0);
            var cut, back := Placed(ops, Nothings(|ops|), 0, 0), Placed(ops, Originals(src, ops), 0, 0);
            && InBounds(cut, |out|) && Chain(cut, 0) && Weave(out, cut, 0) == Outside(src, ops, 0)
            && InBounds(back, |out|) && Chain(back, 0) && Weave(out, back, 0) == src
  {
    RespliceIsSplice(src, ops, Nothings(|ops|));
    RespliceIsSplice(src, ops, Originals(src, ops));
    DeletingLeavesOutside(src, ops, 0);
    OriginalsLeaveAll(src, ops, 0);
  }

  /** How many splices the weave skips. */
  function Skipped(ops: seq<Splice>, pos: nat): nat
    decreases |ops|
  {
    if ops == [] then 0
    else if ops[0].start < pos then 1 + Skipped(ops[1..], pos)
    else Skipped(ops[1..], ops[0].end)
  }

  lemma {:induction false} ChainSkipsNothing(ops: seq<Splice>, pos: nat)
    requires Chain(ops, pos)
    ensures Skipped(ops, pos) == 0
    decreases |ops|
  {
    if ops != [] {
      ChainSkipsNothing(ops[1..], ops[0].end);
    }
  }

  /** Two ranges do not overlap. */
  predicate Apart(a: Splice, b: Splice) {
    a.end <= b.start || b.end <= a.start
  }

  /** A splice against a list of them. */
  predicate ApartFrom(a: Splice, ops: seq<Splice>) {
    ops == [] || (Apart(a, ops[|ops| - 1]) && ApartFrom(a, ops[..|ops| - 1]))
  }

  predicate AllApart(ops: seq<Splice>) {
    ops == [] || (ApartFrom(ops[|ops| - 1], ops[..|ops| - 1]) && AllApart(ops[..|ops| - 1]))
  }

  /** Ascending from the front: the first is not greater than any other. */
  predicate Ascends(ops: seq<Splice>) {
    |ops| <= 1 || (Leq(ops[|ops| - 2], ops[|ops| - 1]) && Ascends(ops[..|ops| - 1]))
  }

  predicate Proper(ops: seq<Splice>) {
    ops == [] || (ops[|ops| - 1].start <= ops[|ops| - 1].end && Proper(ops[..|ops| - 1]))
  }

  lemma {:induction false} InsertKeeps(sorted: seq<Splice>, op: Splice)
    requires Ascends(sorted)
    ensures Ascends(Insert(sorted, op))
    ensures Insert(sorted, op) != []
    ensures var r := Insert(sorted, op); r[|r| - 1] == op || (sorted != [] && r[|r| - 1] == sorted[|sorted| - 1])
  {
    var r := Insert(sorted, op);
    if sorted == [] || Leq(sorted[|sorted| - 1], op) {
      assert r[..|r| - 1] == sorted;
    } else {
      var init := sorted[..|sorted| - 1];
      InsertKeeps(init, op);
      hide Insert;
      assert r[..|r| - 1] == Insert(init, op);
    }
  }

  lemma {:induction false} InsertApart(sorted: seq<Splice>, op: Splice, a: Splice)
    requires ApartFrom(a, sorted) && Apart(a, op)
    ensures ApartFrom(a, Insert(sorted, op))
  {
    var r := Insert(sorted, op);
    if sorted == [] || Leq(sorted[|sorted| - 1], op) {
      assert r[..|r| - 1] == sorted;
    } else {
      InsertApart(sorted[..|sorted| - 1], op, a);
      assert r[..|r| - 1] == Insert(sorted[..|sorted| - 1], op);
    }
  }

  lemma {:induction false} InsertAllApart(sorted: seq<Splice>, op: Splice)
    requires AllApart(sorted) && ApartFrom(op, sorted) && Proper(sorted) && op.start <= op.end
    ensures AllApart(Insert(sorted, op)) && Proper(Insert(sorted, op))
  {
    var r := Insert(sorted, op);
    if sorted == [] || Leq(sorted[|sorted| - 1], op) {
      assert r[..|r| - 1] == sorted;
    } else {
      var init, last := sorted[..|sorted| - 1], sorted[|sorted| - 1];
      InsertAllApart(init, op);
      InsertApart(init, op, last);
      assert r[..|r| - 1] == Insert(init, op);
    }
  }

  lemma {:induction false} SortApartFrom(ops: seq<Splice>, a: Splice)
    requires ApartFrom(a, ops)
    ensures ApartFrom(a, StableSort(ops))
  {
    if ops != [] {
      SortApartFrom(ops[..|ops| - 1], a);
      InsertApart(StableSort(ops[..|ops| - 1]), ops[|ops| - 1], a);
    }
  }

  lemma {:induction false} SortKeeps(ops: seq<Splice>)
    requires AllApart(ops) && Proper(ops)
    ensures Ascends(StableSort(ops)) && AllApart(StableSort(ops)) && Proper(StableSort(ops))
  {
    if ops != [] {
      var init, last := ops[..|ops| - 1], ops[|ops| - 1];
      SortKeeps(init);
      SortApartFrom(init, last);
      InsertKeeps(StableSort(init), last);
      InsertAllApart(StableSort(init), last);
    }
  }

  /** One more splice behind a chain, when it is apart from the last and not smaller. */
  lemma {:induction false} ChainSnoc(ops: seq<Splice>, op: Splice, pos: nat)
    requires Chain(ops, pos) && op.start <= op.end
    requires if ops == [] then pos <= op.start else ops[|ops| - 1].end <= op.start
    ensures Chain(ops + [op], pos)
    decreases |ops|
  {
    if ops != [] {
      ChainSnoc(ops[1..], op, ops[0].end);
      assert (ops + [op])[1..] == ops[1..] + [op];
    }
  }

  /** Sorted splices that are pairwise apart form a chain. */
  lemma {:induction false} ApartIsChain(ops: seq<Splice>)
    requires Ascends(ops) && AllApart(ops) && Proper(ops)
    ensures Chain(ops, 0)
  {
    if ops != [] {
      var init, last := ops[..|ops| - 1], ops[|ops| - 1];
      ApartIsChain(init);
      if init != [] {
        assert Apart(last, init[|init| - 1]);
      }
      ChainSnoc(init, last, 0);
      assert ops == init + [last];
    }
  }

  lemma {:induction false} InsertInBounds(sorted: seq<Splice>, op: Splice, n: nat)
    requires InBounds(sorted, n) && op.start <= op.end <= n
    ensures InBounds(Insert(sorted, op), n)
  {
    if sorted != [] && !Leq(sorted[|sorted| - 1], op) {
      InsertInBounds(sorted[..|sorted| - 1], op, n);
    }
  }

  lemma {:induction false} SortInBounds(ops: seq<Splice>, n: nat)
    requires InBounds(ops, n)
    ensures InBounds(StableSort(ops), n) && (StableSort(ops) == [] <==> ops == [])
  {
    if ops != [] {
      SortInBounds(ops[..|ops| - 1], n);
      InsertInBounds(StableSort(ops[..|ops| - 1]), ops[|ops| - 1], n);
    }
  }

  /** `applySplices`. */
  method ApplySplices(src: Bytes, ops: seq<Splice>) returns (out: Bytes)
    requires InBounds(ops, |src|)
    ensures InBounds(StableSort(ops), |src|) && out == Weave(src, StableSort(ops), 0)
  {
    SortInBounds(ops, |src|);
    if |ops| == 0 {
      assert src[0..] == src;
      return src;
    }
    var sorted := StableSort(ops);
    var pos: nat := 0;
    out := [];
    for i := 0 to |sorted|
      invariant pos <= |src| && Weave(src, sorted, 0) == out + Weave(src, sorted[i..], pos)
    {
      var op := sorted[i];
      assert sorted[i..][1..] == sorted[i + 1..];
      if op.start < pos {
        continue;
      }
      Grow(out, src[pos..op.start], op.repl, Weave(src, sorted[i + 1..], op.end));
      out := out + src[pos..op.start] + op.repl;
      pos := op.end;
    }
    out := out + src[pos..];
  }

  lemma Grow(a: Bytes, b: Bytes, c: Bytes, d: Bytes)
    ensures a + (b + c + d) == (a + b + c) + d
  {
  }

  // ---------------------------------------------------------------- scanning the package document

  /** The bytes of an ASCII constant. */
  function Latin(s: string): Bytes {
    if s == "" then [] else [if s[0] as int < 256 then s[0] as int else 0x3F] + Latin(s[1..])
  }

  const PACKAGE := Latin("package")
  const MANIFEST := Latin("manifest")
  const METADATA := Latin("metadata")
  const ITEM := Latin("item")
  const TITLE := Latin("title")
  const CREATOR := Latin("creator")

  lemma NamesDiffer()
    ensures MANIFEST != METADATA && TITLE != CREATOR
  {
    assert Latin("title")[0] == 't' as int && Latin("creator")[0] == 'c' as int;
    assert Latin("manifest")[1] == 'a' as int && Latin("metadata")[1] == 'e' as int;
  }

  datatype QName = QName(space: Bytes, local: Bytes)

  /** `blank` holds when the text is only XML white space, after a byte-order mark at the very start. */
  datatype Kind =
    | Open(name: QName, href: Bytes, mediaType: Bytes)
    | Close(name: QName)
    | Chars(blank: bool)
    | Misc

  datatype Token = Token(kind: Kind, start: nat, end: nat)

  /** Offsets partition the bytes; a start tag has at least its `<` and `>`, a synthetic end tag nothing. */
  predicate Contiguous(tokens: seq<Token>, pos: nat, n: nat) {
    if tokens == [] then pos <= n
    else
      && tokens[0].start == pos <= tokens[0].end && (tokens[0].kind.Open? ==> pos + 2 <= tokens[0].end)
      && Contiguous(tokens[1..], tokens[0].end, n)
  }

  datatype Frame = Frame(name: QName, contentBeg: nat, selfClose: bool, tagStart: nat)

  datatype TextSpan = TextSpan(start: nat, content: nat, end: nat, name: QName, selfClose: bool)

  datatype ItemSpan = ItemSpan(href: Bytes, mediaType: Bytes, tagStart: nat, tagEnd: nat)

  datatype ScanState = ScanState(
    stack: seq<Frame>,
    seenRoot: bool,
    title: Option<TextSpan>,
    creators: seq<TextSpan>,
    items: seq<ItemSpan>,
    manifestAt: Option<nat>,
    metadataAt: Option<nat>
  )

  const START := ScanState([], false, None, [], [], None, None)

  datatype Outcome<T> = Ok(value: T) | Err(error: ScanError)

  datatype ScanError = UnexpectedEOF | TextOutside | MultipleRoots | MismatchedEnd | NoPlace

  predicate InPackage(stack: seq<Frame>, section: Bytes) {
    |stack| >= 2 && stack[0].name.local == PACKAGE && stack[1].name.local == section
  }

  function ScanOpen(s: ScanState, t: Token, data: Bytes): ScanState
    requires t.kind.Open? && t.start + 2 <= t.end <= |data|
  {
    var selfClose := t.end - t.start >= 2 && data[t.end - 2] == SLASH;
    var stack := s.stack + [Frame(t.kind.name, t.end, selfClose, t.start)];
    var isItem := |stack| == 3 && InPackage(stack, MANIFEST) && t.kind.name.local == ITEM;
    s.(stack := stack, seenRoot := true,
       items := if isItem then s.items + [ItemSpan(t.kind.href, t.kind.mediaType, t.start, t.end)] else s.items)
  }

  function ScanClose(s: ScanState, t: Token): ScanState
    requires t.kind.Close? && s.stack != []
  {
    var open := s.stack[|s.stack| - 1];
    var span := TextSpan(open.tagStart, open.contentBeg, t.start, t.kind.name, open.selfClose);
    var field := |s.stack| == 3 && InPackage(s.stack, METADATA);
    var section := |s.stack| == 2 && s.stack[0].name.local == PACKAGE && !open.selfClose;
    s.(stack := s.stack[..|s.stack| - 1],
       title := if field && t.kind.name.local == TITLE && s.title.None? then Some(span) else s.title,
       creators := if field && t.kind.name.local == CREATOR then s.creators + [span] else s.creators,
       manifestAt := if section && t.kind.name.local == MANIFEST && s.manifestAt.None? then Some(t.start) else s.manifestAt,
       metadataAt := if section && t.kind.name.local == METADATA && s.metadataAt.None? then Some(t.start) else s.metadataAt)
  }

  /** One token. */
  function ScanToken(s: ScanState, t: Token, data: Bytes): Outcome<ScanState>
    requires t.kind.Open? ==> t.start + 2 <= t.end <= |data|
  {
    match t.kind
    case Chars(blank) => if s.stack == [] && !blank then Err(TextOutside) else Ok(s)
    case Open(_, _, _) => if s.stack == [] && s.seenRoot then Err(MultipleRoots) else Ok(ScanOpen(s, t, data))
    case Close(name) =>
      if s.stack == [] || s.stack[|s.stack| - 1].name != name then Err(MismatchedEnd) else Ok(ScanClose(s, t))
    case Misc => Ok(s)
  }

  function ScanAll(s: ScanState, tokens: seq<Token>, pos: nat, data: Bytes): Outcome<ScanState>
    requires Contiguous(tokens, pos, |data|)
    decreases |tokens|
  {
    if tokens == [] then (if s.stack != [] then Err(UnexpectedEOF) else Ok(s))
    else
      ContiguousEnds(tokens, pos, |data|);
      match ScanToken(s, tokens[0], data)
      case Err(e) => Err(e)
      case Ok(s') => ScanAll(s', tokens[1..], tokens[0].end, data)
  }

  lemma {:induction false} ContiguousEnds(tokens: seq<Token>, pos: nat, n: nat)
    requires Contiguous(tokens, pos, n)
    ensures pos <= n && (tokens != [] ==> tokens[0].end <= n)
    decreases |tokens|
  {
    if tokens != [] {
      ContiguousEnds(tokens[1..], tokens[0].end, n);
    }
  }

  /** `scanOPF`. */
  method ScanOPF(tokens: seq<Token>, data: Bytes) returns (r: Outcome<ScanState>)
    requires Contiguous(tokens, 0, |data|)
    ensures r == ScanAll(START, tokens, 0, data)
  {
    var s := START;
    ghost var pos := 0;
    for i := 0 to |tokens|
      invariant Contiguous(tokens[i..], pos, |data|)
      invariant ScanAll(START, tokens, 0, data) == ScanAll(s, tokens[i..], pos, data)
    {
      var t := tokens[i];
      assert tokens[i..][1..] == tokens[i + 1..];
      ContiguousEnds(tokens[i..], pos, |data|);
      var next := ScanToken(s, t, data);
      if next.Err? {
        return Err(next.error);
      }
      s := next.value;
      pos := t.end;
    }
    return if s.stack != [] then Err(UnexpectedEOF) else Ok(s);
  }

  // ---------------------------------------------------------------- recorded spans never overlap

  function TextRange(span: TextSpan): Splice {
    Splice(span.start, span.end, [])
  }

  function ItemRange(span: ItemSpan): Splice {
    Splice(span.tagStart, span.tagEnd, [])
  }

  function TitleRanges(s: ScanState): seq<Splice> {
    if s.title.None? then [] else [TextRange(s.title.value)]
  }

  function CreatorRanges(creators: seq<TextSpan>): (r: seq<Splice>)
    ensures |r| == |creators| && forall i :: 0 <= i < |r| ==> r[i] == TextRange(creators[i])
  {
    seq(|creators|, i requires 0 <= i < |creators| => TextRange(creators[i]))
  }

  function ItemRanges(items: seq<ItemSpan>): (r: seq<Splice>)
    ensures |r| == |items| && forall i :: 0 <= i < |r| ==> r[i] == ItemRange(items[i])
  {
    seq(|items|, i requires 0 <= i < |items| => ItemRange(items[i]))
  }

  /** Everything an edit may replace. */
  function Spans(s: ScanState): seq<Splice> {
    TitleRanges(s) + CreatorRanges(s.creators) + ItemRanges(s.items)
  }

  /** Everything recorded so far ends by `limit`. */
  predicate EndsBy(ops: seq<Splice>, limit: nat) {
    ops == [] || (ops[|ops| - 1].start <= ops[|ops| - 1].end <= limit && EndsBy(ops[..|ops| - 1], limit))
  }

  lemma {:induction false} LaterIsApart(ops: seq<Splice>, limit: nat, op: Splice)
    requires EndsBy(ops, limit) && limit <= op.start
    ensures ApartFrom(op, ops)
  {
    if ops != [] { LaterIsApart(ops[..|ops| - 1], limit, op); }
  }

  lemma {:induction false} EndsByLater(ops: seq<Splice>, limit: nat, limit': nat)
    requires EndsBy(ops, limit) && limit <= limit'
    ensures EndsBy(ops, limit')
  {
    if ops != [] { EndsByLater(ops[..|ops| - 1], limit, limit'); }
  }

  lemma {:induction false} EndsByInsert(a: seq<Splice>, b: seq<Splice>, op: Splice, limit: nat)
    requires EndsBy(a + b, limit) && op.start <= op.end <= limit
    ensures EndsBy(a + [op] + b, limit)
    decreases |b|
  {
    if b == [] {
      assert a + b == a && a + [op] + b == a + [op] && (a + [op])[..|a|] == a;
    } else {
      assert (a + b)[..|a + b| - 1] == a + b[..|b| - 1];
      assert (a + [op] + b)[..|a + [op] + b| - 1] == a + [op] + b[..|b| - 1];
      EndsByInsert(a, b[..|b| - 1], op, limit);
    }
  }

  lemma {:induction false} ApartInsert(a: seq<Splice>, b: seq<Splice>, op: Splice, x: Splice)
    requires ApartFrom(x, a + b) && Apart(x, op)
    ensures ApartFrom(x, a + [op] + b)
    decreases |b|
  {
    if b == [] {
      assert a + b == a && a + [op] + b == a + [op] && (a + [op])[..|a|] == a;
    } else {
      assert (a + b)[..|a + b| - 1] == a + b[..|b| - 1];
      assert (a + [op] + b)[..|a + [op] + b| - 1] == a + [op] + b[..|b| - 1];
      ApartInsert(a, b[..|b| - 1], op, x);
    }
  }

  lemma {:induction false} InsertAnywhere(a: seq<Splice>, b: seq<Splice>, op: Splice)
    requires AllApart(a + b) && ApartFrom(op, a + b)
    ensures AllApart(a + [op] + b)
    decreases |b|
  {
    if b == [] {
      assert a + b == a && a + [op] + b == a + [op] && (a + [op])[..|a|] == a;
    } else {
      var init, last := b[..|b| - 1], b[|b| - 1];
      assert (a + b)[..|a + b| - 1] == a + init;
      assert (a + [op] + b)[..|a + [op] + b| - 1] == a + [op] + init;
      InsertAnywhere(a, init, op);
      ApartInsert(a, init, op, last);
    }
  }

  function Point(at: nat): Splice {
    Splice(at, at, [])
  }

  /** An insertion point lies outside every recorded span. */
  predicate Clear(at: Option<nat>, spans: seq<Splice>, limit: nat) {
    at.Some? ==> at.value <= limit && ApartFrom(Point(at.value), spans)
  }

  /** Where the next recorded span may start: at an open metadata field, or at the current position. */
  function Limit(s: ScanState, pos: nat): nat {
    if |s.stack| >= 3 && InPackage(s.stack, METADATA) then s.stack[2].tagStart else pos
  }

  ghost predicate FramesOk(stack: seq<Frame>, pos: nat) {
    forall i :: 0 <= i < |stack| ==>
      stack[i].tagStart + 2 <= stack[i].contentBeg <= pos
  }

  ghost predicate ScanInv(s: ScanState, pos: nat) {
    && FramesOk(s.stack, pos)
    && Recorded(s, Limit(s, pos))
  }

  predicate Recorded(s: ScanState, limit: nat) {
    && AllApart(Spans(s)) && EndsBy(Spans(s), limit)
    && Clear(s.manifestAt, Spans(s), limit) && Clear(s.metadataAt, Spans(s), limit)
  }

  lemma RecordedLater(s: ScanState, limit: nat, limit': nat)
    requires Recorded(s, limit) && limit <= limit'
    ensures Recorded(s, limit')
  {
    EndsByLater(Spans(s), limit, limit');
  }

  /** One more span, which starts where nothing recorded reaches. */
  lemma RecordSpan(a: seq<Splice>, b: seq<Splice>, op: Splice, limit: nat, manifestAt: Option<nat>, metadataAt: Option<nat>)
    requires AllApart(a + b) && EndsBy(a + b, limit) && limit <= op.start <= op.end
    requires Clear(manifestAt, a + b, limit) && Clear(metadataAt, a + b, limit)
    ensures AllApart(a + [op] + b) && EndsBy(a + [op] + b, op.end)
    ensures Clear(manifestAt, a + [op] + b, op.end) && Clear(metadataAt, a + [op] + b, op.end)
  {
    LaterIsApart(a + b, limit, op);
    InsertAnywhere(a, b, op);
    EndsByLater(a + b, limit, op.end);
    EndsByInsert(a, b, op, op.end);
    if manifestAt.Some? { ApartInsert(a, b, op, Point(manifestAt.value)); }
    if metadataAt.Some? { ApartInsert(a, b, op, Point(metadataAt.value)); }
  }

  /** The spans with one more item. */
  lemma SpansWithItem(s: ScanState, s': ScanState, item: ItemSpan)
    requires s'.title == s.title && s'.creators == s.creators && s'.items == s.items + [item]
    ensures Spans(s') == Spans(s) + [ItemRange(item)]
  {
    assert ItemRanges(s'.items) == ItemRanges(s.items) + [ItemRange(item)];
    var a, b := TitleRanges(s) + CreatorRanges(s.creators), ItemRanges(s.items);
    assert a + (b + [ItemRange(item)]) == (a + b) + [ItemRange(item)];
  }

  lemma RecordItem(s: ScanState, s': ScanState, item: ItemSpan, limit: nat)
    requires Recorded(s, limit) && limit <= item.tagStart <= item.tagEnd
    requires s'.title == s.title && s'.creators == s.creators && s'.items == s.items + [item]
    requires s'.manifestAt == s.manifestAt && s'.metadataAt == s.metadataAt
    ensures Recorded(s', item.tagEnd)
  {
    var spans, op := Spans(s), ItemRange(item);
    hide Spans;
    SpansWithItem(s, s', item);
    assert spans + [] == spans && spans + [op] + [] == spans + [op];
    RecordSpan(spans, [], op, limit, s.manifestAt, s.metadataAt);
  }

  lemma OpenKeeps(s: ScanState, t: Token, data: Bytes)
    requires ScanInv(s, t.start) && t.kind.Open? && t.start + 2 <= t.end <= |data|
    ensures ScanInv(ScanOpen(s, t, data), t.end)
  {
    hide Latin, Recorded, Spans;
    var s' := ScanOpen(s, t, data);
    if s'.items != s.items {
      NamesDiffer();
      RecordItem(s, s', ItemSpan(t.kind.href, t.kind.mediaType, t.start, t.end), t.start);
    } else {
      SameRecords(s, s', Limit(s, t.start));
      RecordedLater(s', Limit(s, t.start), Limit(s', t.end));
    }
  }

  lemma SameRecords(s: ScanState, s': ScanState, limit: nat)
    requires Recorded(s, limit) && s'.title == s.title && s'.creators == s.creators && s'.items == s.items
    requires s'.manifestAt == s.manifestAt && s'.metadataAt == s.metadataAt
    ensures Recorded(s', limit)
  {
    assert Spans(s') == Spans(s);
  }

  /** The state after an end tag took its frame off the stack and recorded nothing. */
  lemma PopKeeps(s: ScanState, t: Token, s': ScanState)
    requires ScanInv(s, t.start) && s.stack != [] && t.start <= t.end
    requires s'.stack == s.stack[..|s.stack| - 1] && s' == s.(stack := s'.stack)
    ensures ScanInv(s', t.end)
  {
    hide Latin, Recorded, Spans;
    SameRecords(s, s', Limit(s, t.start));
    assert |s.stack| > 2 ==> s.stack[2].tagStart <= t.start;
    RecordedLater(s', Limit(s, t.start), Limit(s', t.end));
  }

  lemma RecordTitle(s: ScanState, s': ScanState, span: TextSpan, limit: nat)
    requires Recorded(s, limit) && limit <= span.start <= span.end && s.title.None?
    requires s'.title == Some(span) && s'.creators == s.creators && s'.items == s.items
    requires s'.manifestAt == s.manifestAt && s'.metadataAt == s.metadataAt
    ensures Recorded(s', span.end)
  {
    var b, op := CreatorRanges(s.creators) + ItemRanges(s.items), TextRange(span);
    assert Spans(s) == [] + b && Spans(s') == [] + [op] + b;
    RecordSpan([], b, op, limit, s.manifestAt, s.metadataAt);
  }

  lemma RecordCreator(s: ScanState, s': ScanState, span: TextSpan, limit: nat)
    requires Recorded(s, limit) && limit <= span.start <= span.end
    requires s'.title == s.title && s'.creators == s.creators + [span] && s'.items == s.items
    requires s'.manifestAt == s.manifestAt && s'.metadataAt == s.metadataAt
    ensures Recorded(s', span.end)
  {
    var a, b, op := TitleRanges(s) + CreatorRanges(s.creators), ItemRanges(s.items), TextRange(span);
    assert CreatorRanges(s'.creators) == CreatorRanges(s.creators) + [op];
    assert Spans(s') == a + [op] + b;
    RecordSpan(a, b, op, limit, s.manifestAt, s.metadataAt);
  }

  /** A metadata field ends: its span starts at the limit and reaches to here. */
  lemma FieldKeeps(s: ScanState, t: Token)
    requires ScanInv(s, t.start) && t.kind.Close? && t.start <= t.end
    requires |s.stack| == 3 && InPackage(s.stack, METADATA)
    ensures ScanInv(ScanClose(s, t), t.end)
  {
    hide Latin, Recorded, Spans;
    var s' := ScanClose(s, t);
    var open := s.stack[2];
    var span := TextSpan(open.tagStart, open.contentBeg, t.start, t.kind.name, open.selfClose);
    if s'.title != s.title {
      NamesDiffer();
      RecordTitle(s, s', span, open.tagStart);
      RecordedLater(s', t.start, t.end);
    } else if s'.creators != s.creators {
      RecordCreator(s, s', span, open.tagStart);
      RecordedLater(s', t.start, t.end);
    } else {
      SameRecords(s, s', open.tagStart);
      RecordedLater(s', open.tagStart, t.end);
    }
  }

  lemma {:induction false} PointIsClear(ops: seq<Splice>, at: nat)
    requires EndsBy(ops, at)
    ensures ApartFrom(Point(at), ops)
  {
    LaterIsApart(ops, at, Point(at));
  }

  /** A section ends: its insertion point lies behind everything recorded. */
  lemma SectionKeeps(s: ScanState, t: Token)
    requires ScanInv(s, t.start) && t.kind.Close? && t.start <= t.end && 0 < |s.stack| && |s.stack| != 3
    ensures ScanInv(ScanClose(s, t), t.end)
  {
    var s' := ScanClose(s, t);
    var popped := s.(stack := s.stack[..|s.stack| - 1]);
    PopKeeps(s, t, popped);
    assert Spans(s') == Spans(popped);
    if |s.stack| == 2 {
      PointIsClear(Spans(s), t.start);
    }
  }

  lemma TokenKeeps(s: ScanState, t: Token, data: Bytes)
    requires ScanInv(s, t.start) && t.start <= t.end <= |data| && (t.kind.Open? ==> t.start + 2 <= t.end)
    ensures ScanToken(s, t, data).Ok? ==> ScanInv(ScanToken(s, t, data).value, t.end)
  {
    hide Latin, Recorded;
    if t.kind.Open? {
      OpenKeeps(s, t, data);
    } else if t.kind.Close? && s.stack != [] {
      if |s.stack| != 3 {
        SectionKeeps(s, t);
      } else if InPackage(s.stack, METADATA) {
        FieldKeeps(s, t);
      } else {
        PopKeeps(s, t, ScanClose(s, t));
      }
    } else {
      RecordedLater(s, Limit(s, t.start), Limit(s, t.end));
    }
  }

  lemma {:induction false} ScanKeeps(s: ScanState, tokens: seq<Token>, pos: nat, data: Bytes)
    requires Contiguous(tokens, pos, |data|) && ScanInv(s, pos)
    ensures ScanAll(s, tokens, pos, data).Ok? ==> Recorded(ScanAll(s, tokens, pos, data).value, |data|)
    decreases |tokens|
  {
    ContiguousEnds(tokens, pos, |data|);
    if tokens == [] {
      RecordedLater(s, Limit(s, pos), |data|);
    } else {
      TokenKeeps(s, tokens[0], data);
      if ScanToken(s, tokens[0], data).Ok? {
        ScanKeeps(ScanToken(s, tokens[0], data).value, tokens[1..], tokens[0].end, data);
      }
    }
  }

  /** For every token stream the scan accepts, the spans it records are pairwise disjoint, and so are the
      insertion points from all of them. */
  lemma RecordedSpansAreApart(tokens: seq<Token>, data: Bytes)
    requires Contiguous(tokens, 0, |data|) && ScanAll(START, tokens, 0, data).Ok?
    ensures Recorded(ScanAll(START, tokens, 0, data).value, |data|)
  {
    assert Spans(START) == [];
    ScanKeeps(START, tokens, 0, data);
  }

  // ---------------------------------------------------------------- the edits

  /** `editOPFText`. */
  function EditText(src: Bytes, span: TextSpan, value: Bytes, fileAs: bool): (op: Splice)
    requires SpanOk(span, |src|)
    ensures op.start == span.start && op.end == span.end
  {
    var raw := src[span.start..span.content];
    var tag := if fileAs then Edited(raw, Latin("file-as"), value).0 else raw;
    EditedIsLong(raw, Latin("file-as"), value);
    if span.selfClose && value == [] then Splice(span.start, span.end, tag)
    else
      var open := if span.selfClose then tag[..|tag| - 2] + [GT] else tag;
      var close := if span.selfClose then [LT, SLASH] + QualifiedName(span.name) + [GT] else [];
      Splice(span.start, span.end, open + Escape(value) + close)
  }

  function QualifiedName(name: QName): Bytes {
    if name.space == [] then name.local else name.space + [COLON] + name.local
  }

  /** A manifest item's tag with its media type set. */
  function WithMediaType(tag: Bytes): Bytes
    requires |tag| >= 2
  {
    var (fixed, found) := Edited(tag, Latin("media-type"), Latin("image/jpeg"));
    if found then fixed
    else
      var at := if tag[|tag| - 2] == SLASH then |tag| - 2 else |tag| - 1;
      tag[..at] + (M.Attr(Latin("media-type"), Latin("image/jpeg")) + tag[at..])
  }

  /** What a cover edit does to the package document: nothing, the media types of the items that name the
      declared cover, or a new item and its `meta`. */
  datatype Cover = NoCover | Declared(hrefs: set<Bytes>) | Fresh(id: Bytes, href: Bytes)

  datatype Field = Keep | Set(value: Bytes)

  datatype Edit = Edit(title: Field, author: Field, cover: Cover)

  predicate SpanOk(span: TextSpan, n: nat) {
    span.start + 2 <= span.content <= n
  }

  /** `strings.TrimSpace` leaves nothing. */
  predicate IsBlank(v: Bytes) {
    C.TrimSpace(U.Decode(v)) == []
  }

  /** A field that is missing, in a namespace of its own. */
  function NewElement(name: Bytes, value: Bytes): Bytes {
    Latin("\n    ") + [LT] + (Latin("dc:") + name) + M.AttrList([DC_NAMESPACE]) + [GT] + Escape(value)
    + [LT, SLASH] + (Latin("dc:") + name) + [GT]
  }

  const DC_NAMESPACE := Attribute(Latin("xmlns:dc"), Latin("http://purl.org/dc/elements/1.1/"))
  const OPF_NAMESPACE := Attribute(Latin("xmlns"), Latin("http://www.idpf.org/2007/opf"))

  function ItemAttributes(id: Bytes, href: Bytes): seq<Attribute> {
    [ OPF_NAMESPACE,
      Attribute(Latin("id"), Escape(id)),
      Attribute(Latin("href"), Escape(href)),
      Attribute(Latin("media-type"), Latin("image/jpeg")),
      Attribute(Latin("properties"), Latin("cover-image")) ]
  }

  function NewItem(id: Bytes, href: Bytes): Bytes {
    Latin("\n    ") + ([LT] + ITEM + M.AttrList(ItemAttributes(id, href)) + [SLASH, GT])
  }

  function MetaAttributes(id: Bytes): seq<Attribute> {
    [OPF_NAMESPACE, Attribute(Latin("name"), Latin("cover")), Attribute(Latin("content"), Escape(id))]
  }

  function NewMeta(id: Bytes): Bytes {
    Latin("\n    ") + ([LT] + Latin("meta") + M.AttrList(MetaAttributes(id)) + [SLASH, GT])
  }

  /** `unicode.ToLower`, as far as the result may be ASCII. */
  function LowerRune(r: U.Rune): U.Rune {
    if 'A' as int <= r <= 'Z' as int then r + 32 else if r == 0x130 then 'i' as int else if r == 0x212A then 'k' as int else r
  }

  function LowerRunes(t: seq<U.Rune>): seq<U.Rune> {
    if t == [] then [] else [LowerRune(t[0])] + LowerRunes(t[1..])
  }

  /** `isJPEGMediaType`. */
  predicate IsJPEG(mediaType: Bytes) {
    LowerRunes(C.TrimSpace(U.Decode(mediaType))) in {Latin("image/jpeg"), Latin("image/jpg")}
  }

  predicate NeedsFix(item: ItemSpan, hrefs: set<Bytes>) {
    item.href in hrefs && !IsJPEG(item.mediaType)
  }

  function TitleOps(src: Bytes, s: ScanState, f: Field): Outcome<seq<Splice>>
    requires s.title.Some? ==> SpanOk(s.title.value, |src|)
  {
    if f.Keep? then Ok([])
    else if s.title.Some? then Ok([EditText(src, s.title.value, f.value, false)])
    else if s.metadataAt.Some? then Ok([Splice(s.metadataAt.value, s.metadataAt.value, NewElement(TITLE, f.value))])
    else Err(NoPlace)
  }

  /** The first creator gets the value; clearing the author clears every one. */
  function CreatorOps(src: Bytes, creators: seq<TextSpan>, f: Field): seq<Splice>
    requires f.Set? && forall i :: 0 <= i < |creators| ==> SpanOk(creators[i], |src|)
  {
    if creators == [] then []
    else [EditText(src, creators[0], f.value, true)] + (if IsBlank(f.value) then CreatorOps(src, creators[1..], f) else [])
  }

  function AuthorOps(src: Bytes, s: ScanState, f: Field): Outcome<seq<Splice>>
    requires forall i :: 0 <= i < |s.creators| ==> SpanOk(s.creators[i], |src|)
  {
    if f.Keep? then Ok([])
    else if s.creators != [] then Ok(CreatorOps(src, s.creators, f))
    else if IsBlank(f.value) then Ok([])
    else if s.metadataAt.Some? then Ok([Splice(s.metadataAt.value, s.metadataAt.value, NewElement(CREATOR, f.value))])
    else Err(NoPlace)
  }

  function ItemOps(src: Bytes, items: seq<ItemSpan>, hrefs: set<Bytes>): seq<Splice>
    requires forall i :: 0 <= i < |items| ==> items[i].tagStart + 2 <= items[i].tagEnd <= |src|
  {
    if items == [] then []
    else
      (if NeedsFix(items[0], hrefs) then
         [Splice(items[0].tagStart, items[0].tagEnd, WithMediaType(src[items[0].tagStart..items[0].tagEnd]))]
       else [])
      + ItemOps(src, items[1..], hrefs)
  }

  function CoverOps(src: Bytes, s: ScanState, c: Cover): Outcome<seq<Splice>>
    requires forall i :: 0 <= i < |s.items| ==> s.items[i].tagStart + 2 <= s.items[i].tagEnd <= |src|
  {
    match c
    case NoCover => Ok([])
    case Declared(hrefs) => Ok(ItemOps(src, s.items, hrefs))
    case Fresh(id, href) =>
      if s.manifestAt.None? || s.metadataAt.None? then Err(NoPlace)
      else Ok([Splice(s.manifestAt.value, s.manifestAt.value, NewItem(id, href)),
               Splice(s.metadataAt.value, s.metadataAt.value, NewMeta(id))])
  }

  /** The recorded offsets can be sliced. */
  predicate Sliceable(s: ScanState, n: nat) {
    && (s.title.Some? ==> SpanOk(s.title.value, n))
    && (forall i :: 0 <= i < |s.creators| ==> SpanOk(s.creators[i], n))
    && (forall i :: 0 <= i < |s.items| ==> s.items[i].tagStart + 2 <= s.items[i].tagEnd <= n)
  }

  /** The splices of `rewriteOPF`, in the order it appends them. */
  function RewriteOps(src: Bytes, s: ScanState, e: Edit): Outcome<seq<Splice>>
    requires Sliceable(s, |src|)
  {
    var title := TitleOps(src, s, e.title);
    var author := AuthorOps(src, s, e.author);
    var cover := CoverOps(src, s, e.cover);
    if title.Err? then Err(title.error)
    else if author.Err? then Err(author.error)
    else if cover.Err? then Err(cover.error)
    else Ok(title.value + author.value + cover.value)
  }

  /** The splices replace recorded spans, each at most once and in order, or insert at a recorded point. */
  predicate Drawn(ops: seq<Splice>, spans: seq<Splice>, s: ScanState)
    decreases |ops| + |spans|
  {
    ops == []
    || (var last := ops[|ops| - 1];
        || (IsPoint(last, s) && Drawn(ops[..|ops| - 1], spans, s))
        || (spans != []
            && (|| Drawn(ops, spans[..|spans| - 1], s)
                || (last.start == spans[|spans| - 1].start && last.end == spans[|spans| - 1].end
                    && Drawn(ops[..|ops| - 1], spans[..|spans| - 1], s)))))
  }

  predicate IsPoint(op: Splice, s: ScanState) {
    op.start == op.end && (s.manifestAt == Some(op.start) || s.metadataAt == Some(op.start))
  }

  /** What is apart from all spans and from all points is apart from everything drawn from them. */
  lemma {:induction false} DrawnIsApart(ops: seq<Splice>, spans: seq<Splice>, s: ScanState, a: Splice)
    requires Drawn(ops, spans, s) && ApartFrom(a, spans)
    requires s.manifestAt.Some? ==> Apart(a, Point(s.manifestAt.value))
    requires s.metadataAt.Some? ==> Apart(a, Point(s.metadataAt.value))
    ensures ApartFrom(a, ops)
    decreases |ops| + |spans|
  {
    if ops != [] {
      var init, last := ops[..|ops| - 1], ops[|ops| - 1];
      if IsPoint(last, s) && Drawn(init, spans, s) {
        DrawnIsApart(init, spans, s, a);
      } else if Drawn(ops, spans[..|spans| - 1], s) {
        DrawnIsApart(ops, spans[..|spans| - 1], s, a);
      } else {
        DrawnIsApart(init, spans[..|spans| - 1], s, a);
      }
    }
  }

  predicate PointsClear(s: ScanState, spans: seq<Splice>) {
    && (s.manifestAt.Some? ==> ApartFrom(Point(s.manifestAt.value), spans))
    && (s.metadataAt.Some? ==> ApartFrom(Point(s.metadataAt.value), spans))
  }

  lemma {:induction false} DrawnAreApart(ops: seq<Splice>, spans: seq<Splice>, s: ScanState, n: nat)
    requires Drawn(ops, spans, s) && AllApart(spans) && PointsClear(s, spans) && EndsBy(spans, n)
    requires s.manifestAt.Some? ==> s.manifestAt.value <= n
    requires s.metadataAt.Some? ==> s.metadataAt.value <= n
    ensures AllApart(ops) && EndsBy(ops, n)
    decreases |ops| + |spans|
  {
    if ops != [] {
      var init, last := ops[..|ops| - 1], ops[|ops| - 1];
      if IsPoint(last, s) && Drawn(init, spans, s) {
        DrawnAreApart(init, spans, s, n);
        SameRangeApart(Point(last.start), last, spans);
        DrawnIsApart(init, spans, s, last);
      } else if Drawn(ops, spans[..|spans| - 1], s) {
        DrawnAreApart(ops, spans[..|spans| - 1], s, n);
      } else {
        DrawnAreApart(init, spans[..|spans| - 1], s, n);
        SameRangeApart(spans[|spans| - 1], last, spans[..|spans| - 1]);
        DrawnIsApart(init, spans[..|spans| - 1], s, last);
      }
    }
  }

  lemma {:induction false} SameRangeApart(a: Splice, b: Splice, ops: seq<Splice>)
    requires ApartFrom(a, ops) && a.start == b.start && a.end == b.end
    ensures ApartFrom(b, ops)
  {
    if ops != [] { SameRangeApart(a, b, ops[..|ops| - 1]); }
  }

  // ---------------------------------------------------------------- every rewrite is safe

  /** Spans that are left alone do not matter. */
  lemma {:induction false} DrawnMore(ops: seq<Splice>, spans: seq<Splice>, more: seq<Splice>, s: ScanState)
    requires Drawn(ops, spans, s)
    ensures Drawn(ops, spans + more, s)
    decreases |more|
  {
    if more == [] {
      assert spans + more == spans;
    } else {
      DrawnMore(ops, spans, more[..|more| - 1], s);
      assert (spans + more)[..|spans + more| - 1] == spans + more[..|more| - 1];
    }
  }

  lemma DrawPoint(ops: seq<Splice>, spans: seq<Splice>, op: Splice, s: ScanState)
    requires Drawn(ops, spans, s) && IsPoint(op, s)
    ensures Drawn(ops + [op], spans, s)
  {
    assert (ops + [op])[..|ops|] == ops;
  }

  lemma DrawSpan(ops: seq<Splice>, spans: seq<Splice>, op: Splice, span: Splice, s: ScanState)
    requires Drawn(ops, spans, s) && op.start == span.start && op.end == span.end
    ensures Drawn(ops + [op], spans + [span], s)
  {
    assert (ops + [op])[..|ops|] == ops && (spans + [span])[..|spans|] == spans;
  }

  lemma DrawnNothing(spans: seq<Splice>, s: ScanState)
    ensures Drawn([], spans, s) && Drawn([], [], s)
  {
  }

  lemma TitleDrawn(src: Bytes, s: ScanState, f: Field)
    requires Sliceable(s, |src|) && TitleOps(src, s, f).Ok?
    ensures Drawn(TitleOps(src, s, f).value, TitleRanges(s), s)
  {
    hide NewElement, EditText, Latin, Drawn;
    var ops := TitleOps(src, s, f).value;
    DrawnNothing(TitleRanges(s), s);
    if ops != [] {
      assert ops == [] + [ops[0]];
      if s.title.Some? {
        DrawSpan([], [], ops[0], TextRange(s.title.value), s);
        assert TitleRanges(s) == [] + [TextRange(s.title.value)];
      } else {
        DrawPoint([], [], ops[0], s);
      }
    }
  }

  lemma CreatorRangesCons(creators: seq<TextSpan>, spans: seq<Splice>)
    requires creators != []
    ensures spans + CreatorRanges(creators) == spans + [TextRange(creators[0])] + CreatorRanges(creators[1..])
  {
    assert CreatorRanges(creators) == [TextRange(creators[0])] + CreatorRanges(creators[1..]);
  }

  lemma {:induction false} CreatorsDrawn(src: Bytes, creators: seq<TextSpan>, f: Field, s: ScanState,
                                         ops: seq<Splice>, spans: seq<Splice>)
    requires f.Set? && (forall i :: 0 <= i < |creators| ==> SpanOk(creators[i], |src|)) && Drawn(ops, spans, s)
    ensures Drawn(ops + CreatorOps(src, creators, f), spans + CreatorRanges(creators), s)
    decreases |creators|
  {
    hide EditText, IsPoint, Drawn;
    if creators == [] {
      assert ops + [] == ops && spans + CreatorRanges(creators) == spans;
    } else {
      var op, span := EditText(src, creators[0], f.value, true), TextRange(creators[0]);
      DrawSpan(ops, spans, op, span, s);
      CreatorRangesCons(creators, spans);
      if IsBlank(f.value) {
        CreatorsDrawn(src, creators[1..], f, s, ops + [op], spans + [span]);
        assert ops + CreatorOps(src, creators, f) == ops + [op] + CreatorOps(src, creators[1..], f);
      } else {
        DrawnMore(ops + [op], spans + [span], CreatorRanges(creators[1..]), s);
        assert CreatorOps(src, creators, f) == [op];
      }
    }
  }

  lemma AuthorDrawn(src: Bytes, s: ScanState, f: Field, ops: seq<Splice>, spans: seq<Splice>)
    requires Sliceable(s, |src|) && AuthorOps(src, s, f).Ok? && Drawn(ops, spans, s)
    ensures Drawn(ops + AuthorOps(src, s, f).value, spans + CreatorRanges(s.creators), s)
  {
    hide NewElement, Latin, IsBlank, EditText, Drawn;
    var author := AuthorOps(src, s, f).value;
    if f.Set? && s.creators != [] {
      CreatorsDrawn(src, s.creators, f, s, ops, spans);
    } else if author == [] {
      assert ops + author == ops;
      DrawnMore(ops, spans, CreatorRanges(s.creators), s);
    } else {
      assert author == [author[0]];
      DrawPoint(ops, spans, author[0], s);
      DrawnMore(ops + author, spans, CreatorRanges(s.creators), s);
    }
  }

  lemma {:induction false} ItemsDrawn(src: Bytes, items: seq<ItemSpan>, hrefs: set<Bytes>, s: ScanState,
                                      ops: seq<Splice>, spans: seq<Splice>)
    requires (forall i :: 0 <= i < |items| ==> items[i].tagStart + 2 <= items[i].tagEnd <= |src|) && Drawn(ops, spans, s)
    ensures Drawn(ops + ItemOps(src, items, hrefs), spans + ItemRanges(items), s)
    decreases |items|
  {
    hide WithMediaType, Drawn, NeedsFix;
    if items == [] {
      assert ops + [] == ops && spans + ItemRanges(items) == spans;
    } else {
      ItemOpsCons(src, items, hrefs);
      hide ItemOps, ItemRanges;
      var span, rest := ItemRange(items[0]), ItemOps(src, items[1..], hrefs);
      Regroup(spans, [span], ItemRanges(items[1..]));
      if NeedsFix(items[0], hrefs) {
        var op := Splice(span.start, span.end, WithMediaType(src[span.start..span.end]));
        DrawSpan(ops, spans, op, span, s);
        ItemsDrawn(src, items[1..], hrefs, s, ops + [op], spans + [span]);
        Regroup(ops, [op], rest);
      } else {
        DrawnMore(ops, spans, [span], s);
        ItemsDrawn(src, items[1..], hrefs, s, ops, spans + [span]);
      }
    }
  }

  lemma ItemOpsCons(src: Bytes, items: seq<ItemSpan>, hrefs: set<Bytes>)
    requires items != [] && forall i :: 0 <= i < |items| ==> items[i].tagStart + 2 <= items[i].tagEnd <= |src|
    ensures ItemRanges(items) == [ItemRange(items[0])] + ItemRanges(items[1..])
    ensures var span, rest := ItemRange(items[0]), ItemOps(src, items[1..], hrefs);
            ItemOps(src, items, hrefs)
            == if NeedsFix(items[0], hrefs) then [Splice(span.start, span.end, WithMediaType(src[span.start..span.end]))] + rest
               else rest
  {
    hide WithMediaType, NeedsFix;
    assert [] + ItemOps(src, items[1..], hrefs) == ItemOps(src, items[1..], hrefs);
  }

  lemma CoverDrawn(src: Bytes, s: ScanState, c: Cover, ops: seq<Splice>, spans: seq<Splice>)
    requires Sliceable(s, |src|) && CoverOps(src, s, c).Ok? && Drawn(ops, spans, s)
    ensures Drawn(ops + CoverOps(src, s, c).value, spans + ItemRanges(s.items), s)
  {
    hide NewItem, NewMeta, Latin, Drawn, NeedsFix;
    match c
    case NoCover => assert ops + [] == ops; DrawnMore(ops, spans, ItemRanges(s.items), s);
    case Declared(hrefs) => ItemsDrawn(src, s.items, hrefs, s, ops, spans);
    case Fresh(id, href) =>
      var a := Splice(s.manifestAt.value, s.manifestAt.value, NewItem(id, href));
      var b := Splice(s.metadataAt.value, s.metadataAt.value, NewMeta(id));
      DrawPoint(ops, spans, a, s);
      DrawPoint(ops + [a], spans, b, s);
      assert ops + [a, b] == ops + [a] + [b];
      DrawnMore(ops + [a, b], spans, ItemRanges(s.items), s);
  }

  lemma RewriteDrawn(src: Bytes, s: ScanState, e: Edit)
    requires Sliceable(s, |src|) && RewriteOps(src, s, e).Ok?
    ensures Drawn(RewriteOps(src, s, e).value, Spans(s), s)
  {
    hide Drawn, TitleOps, AuthorOps, CoverOps;
    var title := TitleOps(src, s, e.title).value;
    TitleDrawn(src, s, e.title);
    AuthorDrawn(src, s, e.author, title, TitleRanges(s));
    CoverDrawn(src, s, e.cover, title + AuthorOps(src, s, e.author).value, TitleRanges(s) + CreatorRanges(s.creators));
  }

  lemma {:induction false} EndsByIsInBounds(ops: seq<Splice>, n: nat)
    requires EndsBy(ops, n)
    ensures InBounds(ops, n) && Proper(ops)
  {
    if ops != [] { EndsByIsInBounds(ops[..|ops| - 1], n); }
  }

  /** The offsets of open frames and of everything recorded lie behind the scan. */
  ghost predicate Behind(s: ScanState, pos: nat) {
    FramesOk(s.stack, pos) && Sliceable(s, pos)
  }

  lemma {:induction false} ScanStaysBehind(s: ScanState, tokens: seq<Token>, pos: nat, data: Bytes)
    requires Contiguous(tokens, pos, |data|) && Behind(s, pos)
    ensures ScanAll(s, tokens, pos, data).Ok? ==> Sliceable(ScanAll(s, tokens, pos, data).value, |data|)
    decreases |tokens|
  {
    ContiguousEnds(tokens, pos, |data|);
    if tokens != [] && ScanToken(s, tokens[0], data).Ok? {
      TokenStaysBehind(s, tokens[0], data);
      ScanStaysBehind(ScanToken(s, tokens[0], data).value, tokens[1..], tokens[0].end, data);
    }
  }

  lemma TokenStaysBehind(s: ScanState, t: Token, data: Bytes)
    requires Behind(s, t.start) && t.start <= t.end <= |data| && (t.kind.Open? ==> t.start + 2 <= t.end)
    requires ScanToken(s, t, data).Ok?
    ensures Behind(ScanToken(s, t, data).value, t.end)
  {
    hide Latin;
  }

  /** Every rewrite of an accepted document is safe: its splices are pairwise disjoint, so the overlap
      check of `applySplices` never fires, and the result is that of applying them one at a time from
      right to left. */
  lemma RewriteIsRightToLeft(tokens: seq<Token>, data: Bytes, e: Edit)
    requires Contiguous(tokens, 0, |data|) && ScanAll(START, tokens, 0, data).Ok?
    ensures Sliceable(ScanAll(START, tokens, 0, data).value, |data|)
    ensures RewriteOps(data, ScanAll(START, tokens, 0, data).value, e).Ok? ==>
              var ops := RewriteOps(data, ScanAll(START, tokens, 0, data).value, e).value;
              var sorted := StableSort(ops);
              && AllApart(ops) && InBounds(ops, |data|) && InBounds(sorted, |data|)
              && Skipped(sorted, 0) == 0 && Chain(sorted, 0)
              && Weave(data, sorted, 0) == RightToLeft(data, sorted)
  {
    ScanStaysBehind(START, tokens, 0, data);
    RecordedSpansAreApart(tokens, data);
    hide ScanAll, RewriteOps, Weave, RightToLeft;
    SplicesAreSafe(data, ScanAll(START, tokens, 0, data).value, e);
  }

  lemma SplicesAreSafe(data: Bytes, s: ScanState, e: Edit)
    requires Sliceable(s, |data|) && Recorded(s, |data|)
    ensures RewriteOps(data, s, e).Ok? ==>
              var ops := RewriteOps(data, s, e).value;
              var sorted := StableSort(ops);
              && AllApart(ops) && InBounds(ops, |data|) && InBounds(sorted, |data|)
              && Skipped(sorted, 0) == 0 && Chain(sorted, 0)
              && Weave(data, sorted, 0) == RightToLeft(data, sorted)
  {
    if RewriteOps(data, s, e).Ok? {
      var ops := RewriteOps(data, s, e).value;
      hide RewriteOps, Weave, RightToLeft;
      RewriteDrawn(data, s, e);
      DrawnAreApart(ops, Spans(s), s, |data|);
      EndsByIsInBounds(ops, |data|);
      SortInBounds(ops, |data|);
      SortKeeps(ops);
      ApartIsChain(StableSort(ops));
      ChainSkipsNothing(StableSort(ops), 0);
      WeaveIsRightToLeft(data, StableSort(ops));
    }
  }

  /** Nothing else is touched: cutting what a rewrite wrote out of the rewritten document leaves exactly
      the document without the ranges it replaced, and putting those back gives the document. */
  lemma RewriteKeepsTheRest(tokens: seq<Token>, data: Bytes, e: Edit)
    requires Contiguous(tokens, 0, |data|) && ScanAll(START, tokens, 0, data).Ok?
    requires Sliceable(ScanAll(START, tokens, 0, data).value, |data|)
    requires RewriteOps(data, ScanAll(START, tokens, 0, data).value, e).Ok?
    ensures var sorted := StableSort(RewriteOps(data, ScanAll(START, tokens, 0, data).value, e).value);
            && Chain(sorted, 0) && InBounds(sorted, |data|)
            && var out := Weave(data, sorted, 0);
               var cut, back := Placed(sorted, Nothings(|sorted|), 0, 0), Placed(sorted, Originals(data, sorted), 0, 0);
            && InBounds(cut, |out|) && Chain(cut, 0) && Weave(out, cut, 0) == Outside(data, sorted, 0)
            && InBounds(back, |out|) && Chain(back, 0) && Weave(out, back, 0) == data
  {
    RewriteIsRightToLeft(tokens, data, e);
    WeaveKeepsTheRest(data, StableSort(RewriteOps(data, ScanAll(START, tokens, 0, data).value, e).value));
  }
}
