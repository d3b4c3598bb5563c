/** The two text extractors that must agree code point for code point. */
module Extraction {

  // `plainTextExtractor` of internal/epub/search.go on the sanitized tree, and `buildSearchTextIndex` of
  // frontend/src/iframe/searchHighlight.ts on the DOM the frame shows.

  import opened Basics
  import opened Utf8
  import opened Collapsing
  import opened Segments
  import S = Searching
  import opened Wrappers

  const MAX_SANITIZE_DEPTH := 500

  /** HTML element names the extractors know (atoms in the back end, `tagName` in the frame). */
  datatype Tag =
    | Head | Script | Style | Noscript | Template | Br
    | Address | Article | Aside | Blockquote | Caption | Dd | Div | Dl | Dt | Figcaption | Figure | Footer
    | H1 | H2 | H3 | H4 | H5 | H6 | Header | Hr | Li | MainPart | Nav | Ol | P | Pre | Section
    | Table | Tbody | Td | Tfoot | Th | Thead | Tr | Ul
    | Named(name: string)

  /** A foreign element (SVG, MathML) never has an HTML tag name, whatever its spelling.  `Other` is a
      document, doctype or comment. */
  datatype Node =
    | Text(data: seq<Rune>)
    | Html(tag: Tag, kids: seq<Node>)
    | Foreign(name: string, kids: seq<Node>)
    | Other(kids: seq<Node>)

  /** HTML elements whose text the back end skips. */
  const GO_SKIPPED := {Head, Script, Style, Noscript, Template}

  /** `isTextBoundaryElement`. */
  const GO_BOUNDARIES := {
    Address, Article, Aside, Blockquote, Caption, Div, Dd, Dl, Dt, Figcaption, Figure, Footer,
    H1, H2, H3, H4, H5, H6, Header, Hr, Li, MainPart, Nav, Ol, P, Pre, Section,
    Table, Tbody, Td, Tfoot, Th, Thead, Tr, Ul}

  const TS_SKIPPED := {Head, Script, Style, Noscript}

  /** `TEXT_BOUNDARY_TAGS`. */
  const TS_BOUNDARIES := {
    Address, Article, Aside, Blockquote, Caption, Dd, Div, Dl, Dt, Figcaption, Figure, Footer,
    H1, H2, H3, H4, H5, H6, Header, Hr, Li, MainPart, Nav, Ol, P, Pre, Section,
    Table, Tbody, Td, Tfoot, Th, Thead, Tr, Ul}

  /** Comments and doctypes have no children. */
  predicate Childless(n: Node)
    decreases n
  {
    match n
    case Text(_) => true
    case Html(_, kids) => ChildlessAll(kids)
    case Foreign(_, kids) => ChildlessAll(kids)
    case Other(kids) => kids == []
  }

  predicate ChildlessAll(kids: seq<Node>)
    decreases kids
  {
    kids == [] || (Childless(kids[0]) && ChildlessAll(kids[1..]))
  }

  /** The DOM of a served tree: template content lives outside `childNodes`. */
  function Dom(n: Node): Node
    decreases n
  {
    match n
    case Text(_) => n
    case Html(tag, kids) => Html(tag, if tag == Template then [] else DomAll(kids))
    case Foreign(name, kids) => Foreign(name, DomAll(kids))
    case Other(_) => n
  }

  function DomAll(kids: seq<Node>): seq<Node>
    decreases kids
  {
    if kids == [] then [] else [Dom(kids[0])] + DomAll(kids[1..])
  }

  function Height(n: Node): nat
    decreases n
  {
    match n
    case Text(_) => 0
    case Html(_, kids) => HeightAll(kids)
    case Foreign(_, kids) => HeightAll(kids)
    case Other(kids) => HeightAll(kids)
  }

  /** One more than the tallest child. */
  function HeightAll(kids: seq<Node>): nat
    decreases kids
  {
    if kids == [] then 0
    else
      var first, rest := 1 + Height(kids[0]), HeightAll(kids[1..]);
      if first < rest then rest else first
  }

  // ---------------------------------------------------------------- the reference

  /** The code points of a tree with a space wherever a boundary separates words. */
  function Flatten(n: Node): seq<Rune>
    decreases n
  {
    match n
    case Text(data) => data
    case Other(kids) => FlattenAll(kids)
    case Foreign(_, kids) => FlattenAll(kids)
    case Html(tag, kids) =>
      if tag in GO_SKIPPED then []
      else if tag == Br then [SPACE]
      else if tag in GO_BOUNDARIES then [SPACE] + FlattenAll(kids) + [SPACE]
      else FlattenAll(kids)
  }

  function FlattenAll(kids: seq<Node>): seq<Rune>
    decreases kids
  {
    if kids == [] then [] else Flatten(kids[0]) + FlattenAll(kids[1..])
  }

  // ---------------------------------------------------------------- the back end's extractor

  /** `extractDepth`. */
  function GoNode(w: Writer, n: Node, depth: nat): Writer
    decreases n
  {
    if depth > MAX_SANITIZE_DEPTH + 1 then w
    else
      match n
      case Text(data) => PutAll(w, data)
      case Other(kids) => GoAll(w, kids, depth + 1)
      case Foreign(_, kids) => GoAll(w, kids, depth + 1)
      case Html(tag, kids) =>
        if tag in GO_SKIPPED then w
        else if tag == Br then PutBoundary(w)
        else if tag in GO_BOUNDARIES then PutBoundary(GoAll(PutBoundary(w), kids, depth + 1))
        else GoAll(w, kids, depth + 1)
  }

  function GoAll(w: Writer, kids: seq<Node>, depth: nat): Writer
    decreases kids
  {
    if kids == [] then w else GoAll(GoNode(w, kids[0], depth), kids[1..], depth)
  }

  class PlainTextExtractor {
    var builder: seq<Rune>
    var pendingSpace: bool

    function State(): Writer
      reads this
    {
      Writer(builder, pendingSpace)
    }

    constructor ()
      ensures State() == Writer([], false)
    {
      builder, pendingSpace := [], false;
    }

    method WriteBoundary()
      modifies this
      ensures State() == PutBoundary(old(State()))
    {
      if |builder| == 0 {
        return;
      }
      pendingSpace := true;
    }

    method WriteText(text: seq<Rune>)
      modifies this
      ensures State() == PutAll(old(State()), text)
    {
      for i := 0 to |text|
        invariant PutAll(old(State()), text) == PutAll(State(), text[i..])
      {
        assert text[i..][1..] == text[i + 1..];
        if IsSpace(text[i]) {
          pendingSpace := true;
          continue;
        }
        if pendingSpace && |builder| > 0 {
          builder := builder + [SPACE];
        }
        pendingSpace := false;
        builder := builder + [text[i]];
      }
    }

    method ExtractDepth(node: Node, depth: nat)
      modifies this
      ensures State() == GoNode(old(State()), node, depth)
      decreases node, 0
    {
      if depth > MAX_SANITIZE_DEPTH + 1 {
        return;
      }
      match node
      case Text(data) => WriteText(data);
      case Other(kids) => ExtractAll(kids, depth + 1);
      case Foreign(_, kids) => ExtractAll(kids, depth + 1);
      case Html(tag, kids) =>
        if tag in GO_SKIPPED {
          return;
        }
        if tag == Br {
          WriteBoundary();
          return;
        }
        var boundary := tag in GO_BOUNDARIES;
        if boundary {
          WriteBoundary();
        }
        ExtractAll(kids, depth + 1);
        if boundary {
          WriteBoundary();
        }
    }

    /** The loop over the siblings. */
    method ExtractAll(kids: seq<Node>, depth: nat)
      modifies this
      ensures State() == GoAll(old(State()), kids, depth)
      decreases kids, 1
    {
      for i := 0 to |kids|
        invariant GoAll(old(State()), kids, depth) == GoAll(State(), kids[i..], depth)
      {
        assert kids[i..][1..] == kids[i + 1..];
        ExtractDepth(kids[i], depth);
      }
    }

    /** `extract`, of a whole tree. */
    method Extract(root: Node)
      requires State() == Writer([], false)
      modifies this
      ensures Result() == GoText(root)
    {
      ExtractDepth(root, 0);
    }

    /** `String`: the text of everything extracted. */
    function Result(): seq<Rune>
      reads this
    {
      TrimSpace(builder)
    }
  }

  /** The same text so far; a pending space matters only after some text. */
  predicate Same(w: Writer, u: Writer) {
    w.out == u.out && (w.out != [] ==> w.pending == u.pending)
  }

  lemma {:induction false} SamePuts(w: Writer, u: Writer, s: seq<Rune>)
    requires Same(w, u)
    ensures Same(PutAll(w, s), PutAll(u, s))
    decreases |s|
  {
    if s != [] {
      SamePuts(Put(w, s[0]), Put(u, s[0]), s[1..]);
    }
  }

  lemma BoundaryIsSpace(w: Writer, u: Writer)
    requires Same(w, u)
    ensures Same(PutBoundary(w), PutAll(u, [SPACE]))
  {
    assert PutAll(u, [SPACE]) == Put(u, SPACE);
  }

  /** The extractor writes the flattened tree, as long as the tree keeps to the sanitizer's depth. */
  lemma {:induction false} GoFlattens(w: Writer, u: Writer, n: Node, depth: nat)
    requires Same(w, u) && Height(n) + depth <= MAX_SANITIZE_DEPTH + 1
    ensures Same(GoNode(w, n, depth), PutAll(u, Flatten(n)))
    decreases n
  {
    hide Put;
    match n
    case Text(data) => SamePuts(w, u, data);
    case Other(kids) => GoFlattensAll(w, u, kids, depth + 1);
    case Foreign(_, kids) => GoFlattensAll(w, u, kids, depth + 1);
    case Html(tag, kids) =>
      if tag in GO_SKIPPED {
      } else if tag == Br {
        BoundaryIsSpace(w, u);
      } else if tag in GO_BOUNDARIES {
        var u1 := PutAll(u, [SPACE]);
        BoundaryIsSpace(w, u);
        GoFlattensAll(PutBoundary(w), u1, kids, depth + 1);
        BoundaryIsSpace(GoAll(PutBoundary(w), kids, depth + 1), PutAll(u1, FlattenAll(kids)));
        PutAllConcat(u, [SPACE], FlattenAll(kids));
        PutAllConcat(u, [SPACE] + FlattenAll(kids), [SPACE]);
      } else {
        GoFlattensAll(w, u, kids, depth + 1);
      }
  }

  lemma {:induction false} GoFlattensAll(w: Writer, u: Writer, kids: seq<Node>, depth: nat)
    requires Same(w, u) && HeightAll(kids) + depth <= MAX_SANITIZE_DEPTH + 2
    ensures Same(GoAll(w, kids, depth), PutAll(u, FlattenAll(kids)))
    decreases kids
  {
    if kids != [] {
      GoFlattens(w, u, kids[0], depth);
      GoFlattensAll(GoNode(w, kids[0], depth), PutAll(u, Flatten(kids[0])), kids[1..], depth);
      PutAllConcat(u, Flatten(kids[0]), FlattenAll(kids[1..]));
    }
  }

  function GoText(root: Node): seq<Rune> {
    TrimSpace(GoNode(Writer([], false), root, 0).out)
  }

  /** The back end's text of a sanitized tree is its flattening with white space collapsed. */
  lemma GoTextCollapses(root: Node)
    requires Height(root) <= MAX_SANITIZE_DEPTH + 1
    ensures GoText(root) == Collapse(Flatten(root))
  {
    var start := Writer([], false);
    GoFlattens(start, start, root, 0);
    WriterCollapses(Flatten(root));
    TrimIsRedundant(Flatten(root));
  }

  // ---------------------------------------------------------------- what the text is

  /** The text nodes a reader sees, in document order and with nothing between them. */
  function Visible(n: Node): seq<Rune>
    decreases n
  {
    match n
    case Text(data) => data
    case Other(kids) => VisibleAll(kids)
    case Foreign(_, kids) => VisibleAll(kids)
    case Html(tag, kids) => if tag in {Head, Script, Style, Noscript, Template, Br} then [] else VisibleAll(kids)
  }

  function VisibleAll(kids: seq<Node>): seq<Rune>
    decreases kids
  {
    if kids == [] then [] else Visible(kids[0]) + VisibleAll(kids[1..])
  }

  lemma {:induction false} FlattenKeepsInk(n: Node)
    ensures Ink(Flatten(n)) == Ink(Visible(n))
    decreases n
  {
    hide IsSpace, Ink;
    match n
    case Text(_) =>
    case Other(kids) => FlattenAllKeepsInk(kids);
    case Foreign(_, kids) => FlattenAllKeepsInk(kids);
    case Html(tag, kids) =>
      FlattenAllKeepsInk(kids);
      SpacesHaveNoInk(FlattenAll(kids));
  }

  lemma SpacesHaveNoInk(s: seq<Rune>)
    ensures Ink([]) == [] == Ink([SPACE]) && Ink([SPACE] + s + [SPACE]) == Ink(s)
  {
    InkConcat([SPACE] + s, [SPACE]);
    InkConcat([SPACE], s);
    assert Ink([SPACE]) == [] + Ink([]);
  }

  lemma {:induction false} FlattenAllKeepsInk(kids: seq<Node>)
    ensures Ink(FlattenAll(kids)) == Ink(VisibleAll(kids))
    decreases kids
  {
    if kids != [] {
      FlattenKeepsInk(kids[0]);
      FlattenAllKeepsInk(kids[1..]);
      InkConcat(Flatten(kids[0]), FlattenAll(kids[1..]));
      InkConcat(Visible(kids[0]), VisibleAll(kids[1..]));
    }
  }

  /** The extracted text holds every visible code point that is no white space, in document order, and
      none besides. */
  lemma ExtractsWhatIsVisible(root: Node)
    requires Height(root) <= MAX_SANITIZE_DEPTH + 1
    ensures Ink(GoText(root)) == Ink(Visible(root))
  {
    GoTextCollapses(root);
    CollapseKeepsInk(Flatten(root));
    FlattenKeepsInk(root);
  }

  lemma {:induction false} FlattenConcat(a: seq<Node>, b: seq<Node>)
    ensures FlattenAll(a + b) == FlattenAll(a) + FlattenAll(b)
    decreases |a|
  {
    if a == [] {
      assert a + b == b;
    } else {
      assert (a + b)[1..] == a[1..] + b;
      FlattenConcat(a[1..], b);
      Regroup(Flatten(a[0]), FlattenAll(a[1..]), FlattenAll(b));
    }
  }

  /** How an element reads: skipped ones as nothing, block-like ones as their content set off by white
      space, a line break as white space, and all others as their content alone. */
  function ReadsAs(n: Node): seq<Node> {
    match n
    case Html(tag, kids) =>
      if tag in {Head, Script, Style, Noscript, Template} then []
      else if tag == Br then [Text([SPACE])]
      else if tag.Named? then kids
      else [Text([SPACE])] + kids + [Text([SPACE])]
    case Foreign(_, kids) => kids
    case _ => [n]
  }

  lemma FlattenOne(n: Node)
    ensures FlattenAll([n]) == Flatten(n)
  {
    assert [n][1..] == [];
    assert Flatten(n) + [] == Flatten(n);
  }

  lemma SetOff(kids: seq<Node>)
    ensures FlattenAll([Text([SPACE])] + kids + [Text([SPACE])]) == [SPACE] + FlattenAll(kids) + [SPACE]
  {
    FlattenConcat([Text([SPACE])] + kids, [Text([SPACE])]);
    FlattenConcat([Text([SPACE])], kids);
    FlattenOne(Text([SPACE]));
  }

  lemma TagsAreSorted(tag: Tag)
    ensures tag in GO_SKIPPED <==> tag in {Head, Script, Style, Noscript, Template}
    ensures tag !in GO_SKIPPED && tag != Br ==> (tag in GO_BOUNDARIES <==> !tag.Named?)
  {
  }

  lemma ReadsAlone(n: Node)
    ensures Flatten(n) == FlattenAll(ReadsAs(n))
  {
    if n.Html? {
      TagsAreSorted(n.tag);
    }
    hide GO_SKIPPED, GO_BOUNDARIES, IsSpace;
    if n.Html? && n.tag != Br && !n.tag.Named? {
      SetOff(n.kids);
    } else if !n.Foreign? && !n.Html? {
      FlattenOne(n);
    } else if n.Html? && n.tag == Br {
      FlattenOne(Text([SPACE]));
    }
  }

  /** An element may be replaced by what it reads as, wherever it stands. */
  lemma ElementsReadAs(before: seq<Node>, n: Node, after: seq<Node>)
    ensures FlattenAll(before + [n] + after) == FlattenAll(before + ReadsAs(n) + after)
  {
    ReadsAlone(n);
    FlattenConcat(before + [n], after);
    FlattenConcat(before, [n]);
    FlattenConcat(before + ReadsAs(n), after);
    FlattenConcat(before, ReadsAs(n));
  }

  // ---------------------------------------------------------------- the frame's index walk

  /** Whether the index has as many code points as its caller asked for. */
  predicate Full(w: Writer, limit: Option<int>) {
    limit.Some? && |w.out| >= limit.value
  }

  function EmitPending(w: Writer): Writer {
    if w.pending && w.out != [] then Writer(w.out + [SPACE], false) else w
  }

  function TsPut(w: Writer, r: Rune, limit: Option<int>): Writer {
    if Full(w, limit) then w
    else if IsSpace(r) then PutBoundary(w)
    else
      var w' := EmitPending(w);
      if Full(w', limit) then w' else Writer(w'.out + [r], w'.pending)
  }

  function TsPutAll(w: Writer, s: seq<Rune>, limit: Option<int>): Writer
    decreases |s|
  {
    if s == [] then w else TsPutAll(TsPut(w, s[0], limit), s[1..], limit)
  }

  /** `walk`. */
  function TsNode(w: Writer, n: Node, limit: Option<int>): Writer
    decreases n
  {
    if Full(w, limit) then w
    else
      match n
      case Text(data) => TsPutAll(w, data, limit)
      case Other(_) => w
      case Foreign(_, kids) => TsAll(w, kids, limit)
      case Html(tag, kids) =>
        if tag in TS_SKIPPED then w
        else if tag == Br then PutBoundary(w)
        else if tag in TS_BOUNDARIES then PutBoundary(TsAll(PutBoundary(w), kids, limit))
        else TsAll(w, kids, limit)
  }

  function TsAll(w: Writer, kids: seq<Node>, limit: Option<int>): Writer
    decreases kids
  {
    if kids == [] then w else TsAll(TsNode(w, kids[0], limit), kids[1..], limit)
  }

  ghost predicate Locates(segment: Option<Segment>, r: Rune) {
    match segment
    case None => r == SPACE
    case Some(Segment(node, start, end)) =>
      exists k: nat :: k < |node.data| && node.data[k] == r
                       && start == Utf16Length(node.data[..k]) && end == start + Utf16Width(r)
  }

  /** One segment and one folded code point for each code point of the text. */
  ghost predicate IndexOk(text: seq<Rune>, segments: seq<Option<Segment>>, folded: seq<Rune>, lower: S.Folding) {
    && |segments| == |text| && folded == S.Fold(text, lower)
    && forall i :: 0 <= i < |text| ==> Locates(segments[i], text[i])
  }

  lemma IndexGrows(text: seq<Rune>, segments: seq<Option<Segment>>, folded: seq<Rune>, lower: S.Folding,
                   r: Rune, segment: Option<Segment>)
    requires IndexOk(text, segments, folded, lower) && Locates(segment, r)
    ensures IndexOk(text + [r], segments + [segment], folded + [lower(r)], lower)
  {
    hide Locates;
    assert S.Fold(text + [r], lower) == S.Fold(text, lower) + [lower(r)];
  }

  /** The last segment lies in a node met before. */
  predicate MetBefore(segs: seq<Segment>, nodes: nat) {
    segs != [] ==> segs[|segs| - 1].node.id < nodes
  }

  lemma MeetNode(segs: seq<Segment>, node: TextNode)
    requires MetBefore(segs, node.id)
    ensures Reached(segs, node, 0) && MetBefore(segs, node.id + 1)
  {
  }

  lemma MetLast(segs: seq<Segment>, s: Segment, nodes: nat)
    requires s.node.id < nodes
    ensures MetBefore(segs + [s], nodes)
  {
  }

  class SearchTextIndex {
    var segments: seq<Option<Segment>>
    var foldedChars: seq<Rune>
    var length: nat
    var pendingSpace: bool
    var nodes: nat      // how many text nodes the walk has met; numbers them
    const limit: Option<int>
    const lower: S.Folding
    ghost var text: seq<Rune>

    ghost predicate Valid()
      reads this
    {
      && lower(SPACE) == SPACE && length == |text| && IndexOk(text, segments, foldedChars, lower)
      && Recorded(Present(segments)) && MetBefore(Present(segments), nodes)
    }

    ghost function State(): Writer
      reads this
    {
      Writer(text, pendingSpace)
    }

    constructor (limit: Option<int>, lower: S.Folding)
      requires lower(SPACE) == SPACE
      ensures Valid() && State() == Writer([], false) && this.limit == limit && this.lower == lower
    {
      this.limit, this.lower := limit, lower;
      segments, foldedChars, length, pendingSpace, nodes, text := [], [], 0, false, 0, [];
    }

    predicate IsFull()
      reads this
    {
      limit.Some? && length >= limit.value
    }

    method QueueBoundary()
      requires Valid()
      modifies this`pendingSpace
      ensures Valid() && State() == PutBoundary(old(State()))
    {
      if length == 0 {
        return;
      }
      pendingSpace := true;
    }

    method EmitPendingSpace()
      requires Valid()
      modifies this
      ensures Valid() && State() == EmitPending(old(State()))
      ensures Present(segments) == old(Present(segments)) && nodes == old(nodes)
    {
      hide Present, Recorded, MetBefore, IndexOk;
      if !pendingSpace || length == 0 {
        return;
      }
      PresentGrows(segments, None);
      IndexGrows(text, segments, foldedChars, lower, SPACE, None);
      segments, foldedChars := segments + [None], foldedChars + [SPACE];
      length := length + 1;
      pendingSpace := false;
      text := text + [SPACE];
    }

    method EmitTextNode(data: seq<Rune>)
      requires Valid()
      modifies this
      ensures Valid() && State() == TsPutAll(old(State()), data, limit)
    {
      hide Present, Recorded, Reached, MetBefore, IndexOk, Locates, Utf16Width, IsSpace;
      var node := TextNode(nodes, data);
      MeetNode(Present(segments), node);
      nodes := nodes + 1;
      var utf16Offset := 0;
      for i := 0 to |data|
        invariant Valid() && nodes == node.id + 1 && utf16Offset == Utf16Length(data[..i])
        invariant Reached(Present(segments), node, i)
        invariant TsPutAll(old(State()), data, limit) == TsPutAll(State(), data[i..], limit)
      {
        assert data[i..][1..] == data[i + 1..];
        assert data[..i + 1][..i] == data[..i];
        if IsFull() {
          FullStays(State(), data[i..], limit);
          return;
        }
        var startOffset := utf16Offset;
        utf16Offset := utf16Offset + Utf16Width(data[i]);
        if IsSpace(data[i]) {
          PassBlank(Present(segments), node, i);
          if length > 0 {
            pendingSpace := true;
          }
          continue;
        }
        EmitPendingSpace();
        if IsFull() {
          FullStays(State(), data[i + 1..], limit);
          return;
        }
        AddSegment(node, i, startOffset, utf16Offset);
      }
    }

    /** One code point of the text, with its segment. */
    method AddSegment(node: TextNode, i: nat, start: nat, end: nat)
      requires Valid() && nodes == node.id + 1 && i < |node.data| && Reached(Present(segments), node, i)
      requires start == Utf16Length(node.data[..i]) && end == start + Utf16Width(node.data[i])
      modifies this
      ensures Valid() && nodes == old(nodes) && State() == Writer(old(text) + [node.data[i]], old(pendingSpace))
      ensures Reached(Present(segments), node, i + 1)
    {
      hide Present, Recorded, Reached, MetBefore, IndexOk, Utf16Width;
      var segment := Segment(node, start, end);
      assert node.data[..i + 1][..i] == node.data[..i];
      RecordOne(Present(segments), node, i);
      PresentGrows(segments, Some(segment));
      MetLast(Present(segments), segment, nodes);
      assert Locates(Some(segment), node.data[i]);
      IndexGrows(text, segments, foldedChars, lower, node.data[i], Some(segment));
      segments, foldedChars := segments + [Some(segment)], foldedChars + [lower(node.data[i])];
      length := length + 1;
      text := text + [node.data[i]];
    }

    method Walk(node: Node)
      requires Valid()
      modifies this
      ensures Valid() && State() == TsNode(old(State()), node, limit)
      decreases node, 0
    {
      if IsFull() {
        return;
      }
      match node
      case Text(data) => EmitTextNode(data);
      case Other(_) =>
      case Foreign(_, kids) => WalkAll(kids);
      case Html(tag, kids) =>
        if tag in TS_SKIPPED {
          return;
        }
        if tag == Br {
          QueueBoundary();
          return;
        }
        var boundary := tag in TS_BOUNDARIES;
        if boundary {
          QueueBoundary();
        }
        WalkAll(kids);
        if boundary {
          QueueBoundary();
        }
    }

    /** The loop over the siblings. */
    method WalkAll(kids: seq<Node>)
      requires Valid()
      modifies this
      ensures Valid() && State() == TsAll(old(State()), kids, limit)
      decreases kids, 1
    {
      for i := 0 to |kids|
        invariant Valid() && TsAll(old(State()), kids, limit) == TsAll(State(), kids[i..], limit)
      {
        assert kids[i..][1..] == kids[i + 1..];
        Walk(kids[i]);
      }
    }
  }

  lemma {:induction false} FullStays(w: Writer, s: seq<Rune>, limit: Option<int>)
    requires Full(w, limit)
    ensures TsPutAll(w, s, limit) == w
    decreases |s|
  {
    if s != [] { FullStays(w, s[1..], limit); }
  }

  // ---------------------------------------------------------------- a limit cuts the unlimited walk

  /** The limited walk against the unlimited one: equal while there is room, and then a full prefix. */
  predicate Cut(w: Writer, u: Writer, limit: int) {
    if |w.out| < limit then w == u else w.out == u.out[..Clip(limit, |u.out|)]
  }

  function Clip(limit: int, length: nat): (n: nat)
    ensures n <= length
  {
    Max(Min(limit, length), 0)
  }

  lemma CutPut(w: Writer, u: Writer, r: Rune, limit: int)
    requires Cut(w, u, limit)
    ensures Cut(TsPut(w, r, Some(limit)), TsPut(u, r, None), limit)
  {
    assert u.out <= TsPut(u, r, None).out;
  }

  lemma {:induction false} CutPutAll(w: Writer, u: Writer, s: seq<Rune>, limit: int)
    requires Cut(w, u, limit)
    ensures Cut(TsPutAll(w, s, Some(limit)), TsPutAll(u, s, None), limit)
    decreases |s|
  {
    if s != [] {
      CutPut(w, u, s[0], limit);
      CutPutAll(TsPut(w, s[0], Some(limit)), TsPut(u, s[0], None), s[1..], limit);
    }
  }

  lemma {:induction false} PutExtends(u: Writer, s: seq<Rune>)
    ensures u.out <= TsPutAll(u, s, None).out
    decreases |s|
  {
    if s != [] { PutExtends(TsPut(u, s[0], None), s[1..]); }
  }

  lemma {:induction false} WalkExtends(u: Writer, n: Node)
    ensures u.out <= TsNode(u, n, None).out
    decreases n
  {
    match n
    case Text(data) => PutExtends(u, data);
    case Other(_) =>
    case Foreign(_, kids) => WalkAllExtends(u, kids);
    case Html(_, kids) => WalkAllExtends(u, kids); WalkAllExtends(PutBoundary(u), kids);
  }

  lemma {:induction false} WalkAllExtends(u: Writer, kids: seq<Node>)
    ensures u.out <= TsAll(u, kids, None).out
    decreases kids
  {
    if kids != [] {
      WalkExtends(u, kids[0]);
      WalkAllExtends(TsNode(u, kids[0], None), kids[1..]);
    }
  }

  lemma {:induction false} CutNode(w: Writer, u: Writer, n: Node, limit: int)
    requires Cut(w, u, limit)
    ensures Cut(TsNode(w, n, Some(limit)), TsNode(u, n, None), limit)
    decreases n
  {
    WalkExtends(u, n);
    if |w.out| < limit {
      match n
      case Text(data) => CutPutAll(w, u, data, limit);
      case Other(_) =>
      case Foreign(_, kids) => CutAll(w, u, kids, limit);
      case Html(_, kids) => CutAll(w, u, kids, limit); CutAll(PutBoundary(w), PutBoundary(u), kids, limit);
    }
  }

  lemma {:induction false} CutAll(w: Writer, u: Writer, kids: seq<Node>, limit: int)
    requires Cut(w, u, limit)
    ensures Cut(TsAll(w, kids, Some(limit)), TsAll(u, kids, None), limit)
    decreases kids
  {
    if kids != [] {
      CutNode(w, u, kids[0], limit);
      CutAll(TsNode(w, kids[0], Some(limit)), TsNode(u, kids[0], None), kids[1..], limit);
    }
  }

  function TsText(root: Node, limit: Option<int>): seq<Rune> {
    TsNode(Writer([], false), root, limit).out
  }

  /** A walk with a limit returns exactly the prefix of the unlimited walk. */
  lemma LimitIsPrefix(root: Node, limit: int)
    ensures TsText(root, Some(limit)) == TsText(root, None)[..Clip(limit, |TsText(root, None)|)]
  {
    CutNode(Writer([], false), Writer([], false), root, limit);
  }

  // ---------------------------------------------------------------- agreement

  /** Both sides separate words at the same HTML elements. */
  lemma BoundaryListsAgree()
    ensures GO_BOUNDARIES == TS_BOUNDARIES
    ensures GO_SKIPPED == TS_SKIPPED + {Template} && Template !in TS_BOUNDARIES
  {
  }

  /** The frame's walk never leaves a space pending before the first code point. */
  predicate Fresh(w: Writer) {
    w.out == [] ==> !w.pending
  }

  lemma {:induction false} TsPutsSame(w: Writer, u: Writer, s: seq<Rune>)
    requires Same(w, u) && Fresh(w)
    ensures Same(TsPutAll(w, s, None), PutAll(u, s)) && Fresh(TsPutAll(w, s, None))
    decreases |s|
  {
    if s != [] {
      TsPutsSame(TsPut(w, s[0], None), Put(u, s[0]), s[1..]);
    }
  }

  /** The frame's walk over the DOM writes the flattened tree of the back end. */
  lemma {:induction false} TsFlattens(w: Writer, u: Writer, n: Node)
    requires Same(w, u) && Fresh(w) && Childless(n)
    ensures Same(TsNode(w, Dom(n), None), PutAll(u, Flatten(n))) && Fresh(TsNode(w, Dom(n), None))
    decreases n
  {
    BoundaryListsAgree();
    match n
    case Text(data) => TsPutsSame(w, u, data);
    case Other(_) =>
    case Foreign(_, kids) => TsFlattensAll(w, u, kids);
    case Html(tag, kids) =>
      if tag in GO_SKIPPED {
      } else if tag == Br {
        BoundaryIsSpace(w, u);
      } else if tag in GO_BOUNDARIES {
        var u1 := PutAll(u, [SPACE]);
        BoundaryIsSpace(w, u);
        TsFlattensAll(PutBoundary(w), u1, kids);
        BoundaryIsSpace(TsAll(PutBoundary(w), DomAll(kids), None), PutAll(u1, FlattenAll(kids)));
        PutAllConcat(u, [SPACE], FlattenAll(kids));
        PutAllConcat(u, [SPACE] + FlattenAll(kids), [SPACE]);
      } else {
        TsFlattensAll(w, u, kids);
      }
  }

  lemma {:induction false} TsFlattensAll(w: Writer, u: Writer, kids: seq<Node>)
    requires Same(w, u) && Fresh(w) && ChildlessAll(kids)
    ensures Same(TsAll(w, DomAll(kids), None), PutAll(u, FlattenAll(kids))) && Fresh(TsAll(w, DomAll(kids), None))
    decreases kids
  {
    if kids != [] {
      TsFlattens(w, u, kids[0]);
      assert DomAll(kids)[1..] == DomAll(kids[1..]);
      TsFlattensAll(TsNode(w, Dom(kids[0]), None), PutAll(u, Flatten(kids[0])), kids[1..]);
      PutAllConcat(u, Flatten(kids[0]), FlattenAll(kids[1..]));
    }
  }

  /** The parsed chapter: a head the extractors skip, and the body's children. */
  function Document(head: seq<Node>, body: seq<Node>): Node {
    Other([Html(Named("html"), [Html(Head, head), Html(Named("body"), body)])])
  }

  /** The frame's content element with the body's children in it. */
  function Content(body: seq<Node>): Node {
    Html(Div, DomAll(body))
  }

  lemma FlattenPlain(name: string, kids: seq<Node>)
    ensures Flatten(Html(Named(name), kids)) == FlattenAll(kids)
  {
  }

  lemma FlattenBehindHead(head: seq<Node>, b: Node)
    ensures FlattenAll([Html(Head, head), b]) == FlattenAll([b])
  {
    assert [Html(Head, head), b][1..] == [b];
    assert Flatten(Html(Head, head)) == [];
  }

  lemma DocumentFlattens(head: seq<Node>, body: seq<Node>)
    ensures Flatten(Document(head, body)) == FlattenAll(body)
  {
    var h, b := Html(Head, head), Html(Named("body"), body);
    var html := Html(Named("html"), [h, b]);
    FlattenBehindHead(head, b);
    FlattenOne(b);
    FlattenOne(html);
    FlattenPlain("body", body);
    FlattenPlain("html", [h, b]);
    hide FlattenAll;
  }

  /** The boundary around the content element adds nothing: no text before it, and a pending space after. */
  lemma ContentIsItsChildren(body: seq<Node>)
    ensures TsText(Content(body), None) == TsAll(Writer([], false), DomAll(body), None).out
  {
    assert PutBoundary(Writer([], false)) == Writer([], false);
  }

  /** Both extractors yield the same code points for every chapter within the sanitizer's depth, and
      that text is collapsed: no space at either end, never two in a row. */
  lemma ExtractorsAgree(head: seq<Node>, body: seq<Node>)
    requires Height(Document(head, body)) <= MAX_SANITIZE_DEPTH + 1 && ChildlessAll(body)
    ensures TsText(Content(body), None) == GoText(Document(head, body)) == Collapse(FlattenAll(body))
    ensures Collapsed(GoText(Document(head, body)))
  {
    hide GoText, TsNode, TsText, Document, Collapse, Collapsed, Height;
    GoTextCollapses(Document(head, body));
    DocumentFlattens(head, body);
    CollapseIsCollapsed(FlattenAll(body));
    ContentIsItsChildren(body);
    TsFlattensAll(Writer([], false), Writer([], false), body);
    WriterCollapses(FlattenAll(body));
  }

  // ---------------------------------------------------------------- reported matches

  lemma OccursElementwise(haystack: seq<Rune>, needle: seq<Rune>, start: nat, i: nat)
    requires i < |needle| && start + i < |haystack| && haystack[start + i] != needle[i]
    ensures !OccursAt(haystack, needle, start)
  {
    if start + |needle| <= |haystack| {
      assert haystack[start..start + |needle|][i] == haystack[start + i];
    }
  }

  /** `matchesFoldedAt`. */
  method MatchesFoldedAt(haystack: seq<Rune>, start: int, needle: seq<Rune>) returns (r: bool)
    ensures r <==> start >= 0 && OccursAt(haystack, needle, start)
  {
    if start < 0 || start + |needle| > |haystack| {
      return false;
    }
    for i := 0 to |needle|
      invariant forall k :: 0 <= k < i ==> haystack[start + k] == needle[k]
    {
      if haystack[start + i] != needle[i] {
        OccursElementwise(haystack, needle, start, i);
        return false;
      }
    }
    assert haystack[start..start + |needle|] == needle;
    return true;
  }

  /** The scan of `findFoldedMatch` between two starting places. */
  method ScanFolded(haystack: seq<Rune>, needle: seq<Rune>, lo: nat, hi: int) returns (start: int)
    requires needle != [] && hi + |needle| <= |haystack|
    ensures start == -1 ==> forall i: nat :: lo <= i <= hi ==> !OccursAt(haystack, needle, i)
    ensures start != -1 ==> lo <= start <= hi && OccursAt(haystack, needle, start)
    ensures start != -1 ==> forall i: nat :: lo <= i < start ==> !OccursAt(haystack, needle, i)
  {
    start := lo;
    while start <= hi
      invariant lo <= start && forall i: nat :: lo <= i < start ==> !OccursAt(haystack, needle, i)
      decreases hi - start
    {
      if haystack[start] == needle[0] {
        var found := MatchesFoldedAt(haystack, start, needle);
        if found {
          return;
        }
      } else {
        OccursElementwise(haystack, needle, start, 0);
      }
      start := start + 1;
    }
    return -1;
  }

  /** `findFoldedMatch`: the first match from the clamped place on, else the first match at all, else -1. */
  method FindFoldedMatch(haystack: seq<Rune>, needle: seq<Rune>, from: int) returns (r: int)
    ensures needle == [] ==> r == -1
    ensures |needle| > |haystack| ==> r == -1
    ensures 0 < |needle| <= |haystack| ==>
              var late := First(haystack, needle, Clip(from, |haystack| - |needle|));
              var any := First(haystack, needle, 0);
              r == if late.Some? then late.value else if any.Some? then any.value else -1
  {
    if |needle| == 0 || |needle| > |haystack| {
      return -1;
    }
    var limit := |haystack| - |needle|;
    var startAt := if from < 0 then 0 else from;
    if limit < startAt {
      startAt := limit;
    }
    r := ScanFolded(haystack, needle, startAt, limit);
    if r == -1 && startAt > 0 {
      r := ScanFolded(haystack, needle, 0, startAt - 1);
    }
  }

  /** A match the back end reports is found by the frame exactly there, in an index built only as far as
      the match reaches. */
  lemma ReportedMatchIsIndexed(head: seq<Node>, body: seq<Node>, q: seq<Rune>, pos: nat, lower: S.Folding)
    requires Height(Document(head, body)) <= MAX_SANITIZE_DEPTH + 1 && ChildlessAll(body)
    requires OccursAt(S.Fold(GoText(Document(head, body)), lower), q, pos)
    ensures var index := S.Fold(TsText(Content(body), Some(pos + |q|)), lower);
            |index| == pos + |q| && OccursAt(index, q, pos)
  {
    hide GoText, TsText, Document, Content, Collapse, Collapsed, Height, S.Fold;
    var text := GoText(Document(head, body));
    ExtractorsAgree(head, body);
    LimitIsPrefix(Content(body), pos + |q|);
    assert TsText(Content(body), Some(pos + |q|)) == text[..pos + |q|] == text[0..pos + |q|];
    S.FoldSlice(text, lower, 0, pos + |q|);
    SliceOfPrefix(S.Fold(text, lower), pos, pos + |q|);
  }

  lemma SliceOfPrefix(s: seq<Rune>, i: nat, j: nat)
    requires i <= j <= |s|
    ensures s[0..j][i..j] == s[i..j]
  {
  }
}
