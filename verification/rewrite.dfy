/** What a rewrite of the package document writes, and where: `rewriteOPF` of internal/epub/edit.go. */
module Rewrites {

  import opened Basics
  import opened ByteStrings
  import opened Splicing
  import opened TagAttributes
  import C = Collapsing
  import M = Markup
  import U = Utf8
  import opened Wrappers

  // ---------------------------------------------------------------- the whole rewrite

  /** What the scan of an accepted document is known to be (`Splicing.RecordedSpansAreApart`). */
  predicate ScanOk(s: ScanState, data: Bytes) {
    Sliceable(s, |data|) && Recorded(s, |data|)
  }

  /** The rewritten document. */
  function Output(data: Bytes, s: ScanState, e: Edit): Outcome<Bytes>
    requires ScanOk(s, data)
  {
    SplicesAreSafe(data, s, e);
    match RewriteOps(data, s, e)
    case Err(error) => Err(error)
    case Ok(ops) => Ok(Weave(data, StableSort(ops), 0))
  }

  /** `rewriteOPF`. */
  function Rewritten(tokens: seq<Token>, data: Bytes, e: Edit): Outcome<Bytes>
    requires Contiguous(tokens, 0, |data|)
  {
    match ScanAll(START, tokens, 0, data)
    case Err(error) => Err(error)
    case Ok(s) => ScanIsOk(tokens, data); Output(data, s, e)
  }

  /** The theorems below are about any such scan, and so about that of every accepted document. */
  lemma ScanIsOk(tokens: seq<Token>, data: Bytes)
    requires Contiguous(tokens, 0, |data|) && ScanAll(START, tokens, 0, data).Ok?
    ensures ScanOk(ScanAll(START, tokens, 0, data).value, data)
  {
    ScanStaysBehind(START, tokens, 0, data);
    RecordedSpansAreApart(tokens, data);
  }

  method RewriteOPF(tokens: seq<Token>, data: Bytes, e: Edit) returns (r: Outcome<Bytes>)
    requires Contiguous(tokens, 0, |data|)
    ensures r == Rewritten(tokens, data, e)
  {
    hide ScanOk, RewriteOps, Weave, StableSort, Recorded, Sliceable;
    var scan := ScanOPF(tokens, data);
    if scan.Err? {
      return Err(scan.error);
    }
    ScanIsOk(tokens, data);
    r := RewriteScanned(data, scan.value, e);
  }

  method RewriteScanned(data: Bytes, s: ScanState, e: Edit) returns (r: Outcome<Bytes>)
    requires ScanOk(s, data)
    ensures r == Output(data, s, e)
  {
    hide RewriteOps, Weave, StableSort, Recorded;
    SplicesAreSafe(data, s, e);
    var ops := RewriteOps(data, s, e);
    if ops.Err? {
      return Err(ops.error);
    }
    var out := ApplySplices(data, ops.value);
    return Ok(out);
  }

  lemma OneSplice(src: Bytes, op: Splice)
    requires op.start <= op.end <= |src|
    ensures StableSort([op]) == [op] && Weave(src, [op], 0) == src[..op.start] + op.repl + src[op.end..]
  {
    assert [op][..0] == [];
    WeaveOne(src, op, 0);
  }

  lemma NoSplice(src: Bytes)
    ensures StableSort([]) == [] && Weave(src, [], 0) == src
  {
  }

  // ---------------------------------------------------------------- the title

  /** What is behind a tag that was self-closing: the text, and an end tag. */
  ghost predicate TextBehind(data: Bytes, span: TextSpan, tag: Bytes, v: Bytes, out: Bytes)
    requires span.start <= span.end <= |data| && |tag| >= 2
  {
    && (!span.selfClose ==> out == data[..span.start] + tag + Escape(v) + data[span.end..])
    && (span.selfClose && v == [] ==> out == data[..span.start] + tag + data[span.end..])
    && (span.selfClose && v != [] ==>
          out == data[..span.start]
                 + (tag[..|tag| - 2] + [GT] + Escape(v) + [LT, SLASH] + QualifiedName(span.name) + [GT])
                 + data[span.end..])
  }

  lemma TextIsBehind(data: Bytes, span: TextSpan, v: Bytes, fileAs: bool)
    requires SpanOk(span, |data|) && span.start <= span.end <= |data|
    ensures var raw := data[span.start..span.content];
            var tag := if fileAs then Edited(raw, Latin("file-as"), v).0 else raw;
            && |tag| >= 2
            && var op := EditText(data, span, v, fileAs);
               TextBehind(data, span, tag, v, data[..op.start] + op.repl + data[op.end..])
  {
    hide Latin, Edited, Escape;
    var raw := data[span.start..span.content];
    EditedIsLong(raw, Latin("file-as"), v);
    var tag := if fileAs then Edited(raw, Latin("file-as"), v).0 else raw;
    var close := [LT, SLASH] + QualifiedName(span.name) + [GT];
    if span.selfClose {
      assert tag[..|tag| - 2] + [GT] + Escape(v) + close
             == tag[..|tag| - 2] + [GT] + Escape(v) + [LT, SLASH] + QualifiedName(span.name) + [GT];
    } else {
      assert tag + Escape(v) + [] == tag + Escape(v);
      assert data[..span.start] + (tag + Escape(v)) + data[span.end..] == data[..span.start] + tag + Escape(v) + data[span.end..];
    }
  }

  lemma SpansEnd(data: Bytes, s: ScanState)
    requires ScanOk(s, data)
    ensures s.title.Some? ==> s.title.value.start <= s.title.value.end <= |data|
    ensures forall i :: 0 <= i < |s.creators| ==> s.creators[i].start <= s.creators[i].end <= |data|
    ensures (s.manifestAt.Some? ==> s.manifestAt.value <= |data|) && (s.metadataAt.Some? ==> s.metadataAt.value <= |data|)
  {
    EndsByIsInBounds(Spans(s), |data|);
    assert s.title.Some? ==> Spans(s)[0] == TextRange(s.title.value);
    forall i | 0 <= i < |s.creators| ensures s.creators[i].start <= s.creators[i].end <= |data| {
      assert Spans(s)[|TitleRanges(s)| + i] == TextRange(s.creators[i]);
    }
  }

  lemma OutputOne(data: Bytes, s: ScanState, e: Edit, op: Splice)
    requires ScanOk(s, data) && RewriteOps(data, s, e) == Ok([op])
    ensures op.start <= op.end <= |data|
    ensures Output(data, s, e) == Ok(data[..op.start] + op.repl + data[op.end..])
  {
    SplicesAreSafe(data, s, e);
    hide RewriteOps, Weave, StableSort, ScanOk;
    assert [op][0] == op;
    OneSplice(data, op);
  }

  /** A new title is the text of the document's title, of a self-closing one too, and nothing else changes. */
  lemma TitleIsSet(data: Bytes, s: ScanState, v: Bytes)
    requires ScanOk(s, data) && s.title.Some?
    ensures var t := s.title.value;
            && t.start + 2 <= t.content <= |data| && t.start <= t.end <= |data|
            && var r := Output(data, s, Edit(Set(v), Keep, NoCover));
            && r.Ok?
            && (!t.selfClose ==> r.value == data[..t.content] + Escape(v) + data[t.end..])
            && (t.selfClose && v == [] ==> r.value == data[..t.content] + data[t.end..])
            && (t.selfClose && v != [] ==>
                  r.value == data[..t.content - 2] + [GT] + Escape(v) + [LT, SLASH] + QualifiedName(t.name) + [GT] + data[t.end..])
  {
    hide RewriteOps, EditText, Escape, Output, TextBehind, QualifiedName;
    var t, e := s.title.value, Edit(Set(v), Keep, NoCover);
    SpansEnd(data, s);
    TitleOnly(data, s, v);
    hide ScanOk, Sliceable;
    var op := EditText(data, t, v, false);
    OutputOne(data, s, e, op);
    TextIsBehind(data, t, v, false);
    Joined(data, t, v, Output(data, s, e).value);
  }

  lemma TitleOnly(data: Bytes, s: ScanState, v: Bytes)
    requires Sliceable(s, |data|)
    ensures RewriteOps(data, s, Edit(Set(v), Keep, NoCover))
         == if s.title.Some? then Ok([EditText(data, s.title.value, v, false)])
            else if s.metadataAt.Some? then Ok([Splice(s.metadataAt.value, s.metadataAt.value, NewElement(TITLE, v))])
            else Err(NoPlace)
  {
    hide EditText, NewElement, Latin;
    var ops := TitleOps(data, s, Set(v));
    assert ops.Ok? ==> ops.value + [] + [] == ops.value;
  }

  /** The unedited tag is part of what stays. */
  lemma Joined(data: Bytes, t: TextSpan, v: Bytes, out: Bytes)
    requires t.start + 2 <= t.content <= |data| && t.start <= t.end <= |data|
    requires TextBehind(data, t, data[t.start..t.content], v, out)
    ensures !t.selfClose ==> out == data[..t.content] + Escape(v) + data[t.end..]
    ensures t.selfClose && v == [] ==> out == data[..t.content] + data[t.end..]
    ensures t.selfClose && v != [] ==>
              out == data[..t.content - 2] + [GT] + Escape(v) + [LT, SLASH] + QualifiedName(t.name) + [GT] + data[t.end..]
  {
    hide Escape, QualifiedName;
    var tag := data[t.start..t.content];
    assert data[..t.start] + tag == data[..t.content];
    assert data[..t.start] + tag[..|tag| - 2] == data[..t.content - 2];
    var x, y := Escape(v), QualifiedName(t.name);
    var front, cut := data[..t.start], tag[..|tag| - 2];
    Regroup(front, cut + [GT] + x + [LT, SLASH] + y, [GT]);
    Regroup(front, cut + [GT] + x + [LT, SLASH], y);
    Regroup(front, cut + [GT] + x, [LT, SLASH]);
    Regroup(front, cut + [GT], x);
    Regroup(front, cut, [GT]);
  }

  /** A missing title is inserted at the end of the metadata; without metadata the edit fails. */
  lemma TitleIsAdded(data: Bytes, s: ScanState, v: Bytes)
    requires ScanOk(s, data) && s.title.None?
    ensures var r := Output(data, s, Edit(Set(v), Keep, NoCover));
            match s.metadataAt
            case None => r == Err(NoPlace)
            case Some(at) => at <= |data| && r == Ok(data[..at] + NewElement(TITLE, v) + data[at..])
  {
    TitleOnly(data, s, v);
    hide ScanOk, RewriteOps, NewElement, Latin;
    if s.metadataAt.Some? {
      var op := Splice(s.metadataAt.value, s.metadataAt.value, NewElement(TITLE, v));
      hide Output;
      OutputOne(data, s, Edit(Set(v), Keep, NoCover), op);
    }
  }

  lemma {:induction false} LatinAt(s: string)
    requires forall i :: 0 <= i < |s| ==> s[i] as int < 256
    ensures |Latin(s)| == |s| && forall i :: 0 <= i < |s| ==> Latin(s)[i] == s[i] as int
  {
    if s != "" { LatinAt(s[1..]); }
  }

  predicate InNames(c: char) {
    'a' <= c <= 'z' || c == '-' || c == ':'
  }

  /** Letters, hyphens and colons make a name. */
  lemma PlainName(s: string)
    requires s != "" && forall i :: 0 <= i < |s| ==> InNames(s[i])
    ensures M.IsName(Latin(s)) && forall i :: 0 <= i < |Latin(s)| ==> InTagName(Latin(s)[i])
  {
    LatinAt(s);
  }

  lemma PlainValue(s: string)
    requires forall i :: 0 <= i < |s| ==> s[i] as int < 128 && s[i] != '\"' && s[i] != '\''
    ensures NoQuotes(Latin(s))
  {
    LatinAt(s);
  }

  lemma PlainNames()
    ensures M.IsName(Latin("xmlns")) && M.IsName(Latin("id")) && M.IsName(Latin("href")) && M.IsName(Latin("media-type"))
    ensures M.IsName(Latin("properties")) && M.IsName(Latin("name")) && M.IsName(Latin("content")) && M.IsName(Latin("xmlns:dc"))
  {
    hide Latin, M.IsName;
    PlainName("xmlns"); PlainName("id"); PlainName("href"); PlainName("media-type");
    PlainName("properties"); PlainName("name"); PlainName("content"); PlainName("xmlns:dc");
  }

  lemma PlainValues()
    ensures NoQuotes(Latin("http://purl.org/dc/elements/1.1/")) && NoQuotes(Latin("http://www.idpf.org/2007/opf"))
    ensures NoQuotes(Latin("image/jpeg")) && NoQuotes(Latin("cover-image")) && NoQuotes(Latin("cover"))
  {
    hide Latin, NoQuotes;
    PlainValue("http://purl.org/dc/elements/1.1/"); PlainValue("http://www.idpf.org/2007/opf");
    PlainValue("image/jpeg"); PlainValue("cover-image"); PlainValue("cover");
  }

  /** A new element binds its own prefix, and its text is the escaped value. */
  lemma NewElementReads(name: Bytes, v: Bytes)
    requires forall i :: 0 <= i < |name| ==> InTagName(name[i])
    ensures var tag := [LT] + (Latin("dc:") + name) + M.AttrList([DC_NAMESPACE]) + [GT];
            && NewElement(name, v) == Latin("\n    ") + tag + Escape(v) + ([LT, SLASH] + (Latin("dc:") + name) + [GT])
            && AttributesOf(tag) == [Attribute(Latin("xmlns:dc"), Latin("http://purl.org/dc/elements/1.1/"))]
  {
    hide Latin, Escape, M.IsName, NoQuotes;
    PlainNames();
    PlainValues();
    PrefixName(name);
    M.ReadsTag(Latin("dc:") + name, [DC_NAMESPACE], [GT]);
    hide M.AttrList, AttributesOf;
    var tag := [LT] + (Latin("dc:") + name) + M.AttrList([DC_NAMESPACE]) + [GT];
    var start, full, attrs := Latin("\n    "), Latin("dc:") + name, M.AttrList([DC_NAMESPACE]);
    Regroup(start, [LT] + full + attrs, [GT]);
    Regroup(start, [LT] + full, attrs);
    Regroup(start, [LT], full);
    Regroup(start + tag + Escape(v), [LT, SLASH] + full, [GT]);
    Regroup(start + tag + Escape(v), [LT, SLASH], full);
  }

  lemma PrefixName(name: Bytes)
    requires forall i :: 0 <= i < |name| ==> InTagName(name[i])
    ensures forall i :: 0 <= i < |Latin("dc:") + name| ==> InTagName((Latin("dc:") + name)[i])
  {
    hide Latin;
    PlainName("dc:");
  }

  // ---------------------------------------------------------------- the author

  lemma AuthorOnly(data: Bytes, s: ScanState, v: Bytes)
    requires Sliceable(s, |data|)
    ensures RewriteOps(data, s, Edit(Keep, Set(v), NoCover))
         == if s.creators != [] then Ok(CreatorOps(data, s.creators, Set(v)))
            else if IsBlank(v) then Ok([])
            else if s.metadataAt.Some? then Ok([Splice(s.metadataAt.value, s.metadataAt.value, NewElement(CREATOR, v))])
            else Err(NoPlace)
  {
    hide EditText, NewElement, Latin, CreatorOps, IsBlank;
    var ops := AuthorOps(data, s, Set(v));
    assert ops.Ok? ==> [] + ops.value + [] == ops.value;
  }

  /** A new author is the text of the first creator and the value of its sort key, if it has one; every
      other creator stays. */
  lemma AuthorIsSet(data: Bytes, s: ScanState, v: Bytes)
    requires ScanOk(s, data) && s.creators != [] && !IsBlank(v)
    ensures var c := s.creators[0];
            && c.start + 2 <= c.content <= |data| && c.start <= c.end <= |data|
            && var tag := Edited(data[c.start..c.content], Latin("file-as"), v).0;
               var r := Output(data, s, Edit(Keep, Set(v), NoCover));
            && |tag| >= 2 && r.Ok? && TextBehind(data, c, tag, v, r.value)
  {
    var c, e := s.creators[0], Edit(Keep, Set(v), NoCover);
    SpansEnd(data, s);
    AuthorOnly(data, s, v);
    hide ScanOk, RewriteOps, EditText, Escape, Output, Latin, IsBlank, Edited;
    var op := EditText(data, c, v, true);
    assert [op] + [] == [op];
    OutputOne(data, s, e, op);
    TextIsBehind(data, c, v, true);
  }

  /** Clearing the author clears the text and the sort key of every creator. */
  lemma AuthorIsCleared(data: Bytes, s: ScanState, v: Bytes, i: nat)
    requires ScanOk(s, data) && IsBlank(v) && i < |s.creators|
    ensures var c := s.creators[i];
            && c.start + 2 <= c.content <= |data| && c.start <= c.end <= |data|
            && var ops := RewriteOps(data, s, Edit(Keep, Set(v), NoCover));
            && ops.Ok? && |ops.value| == |s.creators| && ops.value[i].start == c.start && ops.value[i].end == c.end
            && var tag := Edited(data[c.start..c.content], Latin("file-as"), v).0;
            && |tag| >= 2 && TextBehind(data, c, tag, v, data[..c.start] + ops.value[i].repl + data[c.end..])
  {
    SpansEnd(data, s);
    AuthorOnly(data, s, v);
    hide ScanOk, RewriteOps, EditText, Escape, Latin, IsBlank, Edited;
    EveryCreator(data, s.creators, v, i);
    TextIsBehind(data, s.creators[i], v, true);
  }

  lemma {:induction false} EveryCreator(data: Bytes, creators: seq<TextSpan>, v: Bytes, i: nat)
    requires (forall k :: 0 <= k < |creators| ==> SpanOk(creators[k], |data|)) && IsBlank(v) && i < |creators|
    ensures |CreatorOps(data, creators, Set(v))| == |creators|
    ensures CreatorOps(data, creators, Set(v))[i] == EditText(data, creators[i], v, true)
    decreases |creators|
  {
    hide EditText, IsBlank;
    if i > 0 {
      EveryCreator(data, creators[1..], v, i - 1);
    } else if |creators| > 1 {
      EveryCreator(data, creators[1..], v, 0);
    } else {
      assert creators[1..] == [] && CreatorOps(data, [], Set(v)) == [];
    }
  }

  /** A missing author is inserted like a missing title, unless there is nothing to insert. */
  lemma AuthorIsAdded(data: Bytes, s: ScanState, v: Bytes)
    requires ScanOk(s, data) && s.creators == []
    ensures var r := Output(data, s, Edit(Keep, Set(v), NoCover));
            if IsBlank(v) then r == Ok(data)
            else
              match s.metadataAt
              case None => r == Err(NoPlace)
              case Some(at) => at <= |data| && r == Ok(data[..at] + NewElement(CREATOR, v) + data[at..])
  {
    AuthorOnly(data, s, v);
    NoSplice(data);
    hide ScanOk, RewriteOps, NewElement, Latin, IsBlank;
    if !IsBlank(v) && s.metadataAt.Some? {
      var op := Splice(s.metadataAt.value, s.metadataAt.value, NewElement(CREATOR, v));
      hide Output;
      OutputOne(data, s, Edit(Keep, Set(v), NoCover), op);
    }
  }

  // ---------------------------------------------------------------- the cover

  lemma CoverOnly(data: Bytes, s: ScanState, c: Cover)
    requires Sliceable(s, |data|)
    ensures RewriteOps(data, s, Edit(Keep, Keep, c)) == CoverOps(data, s, c)
  {
    hide CoverOps;
    var ops := CoverOps(data, s, c);
    assert ops.Ok? ==> [] + [] + ops.value == ops.value;
  }

  /** A declared cover gets its media type at exactly the items that name it and do not say JPEG yet. */
  lemma CoverIsDeclared(data: Bytes, s: ScanState, hrefs: set<Bytes>, op: Splice)
    requires ScanOk(s, data)
    ensures var ops := RewriteOps(data, s, Edit(Keep, Keep, Declared(hrefs)));
            ops.Ok? && (op in ops.value <==> exists i :: 0 <= i < |s.items| && Fixes(data, s.items[i], hrefs, op))
  {
    CoverOnly(data, s, Declared(hrefs));
    hide ScanOk, RewriteOps, Fixes, ItemOps;
    ItemsFixed(data, s.items, hrefs, op);
  }

  /** The splice sets the media type of an item that names the cover and does not say JPEG yet. */
  predicate Fixes(data: Bytes, item: ItemSpan, hrefs: set<Bytes>, op: Splice)
    requires item.tagStart + 2 <= item.tagEnd <= |data|
  {
    item.href in hrefs && !IsJPEG(item.mediaType)
    && op == Splice(item.tagStart, item.tagEnd, WithMediaType(data[item.tagStart..item.tagEnd]))
  }

  lemma {:induction false} ItemsFixed(data: Bytes, items: seq<ItemSpan>, hrefs: set<Bytes>, op: Splice)
    requires forall i :: 0 <= i < |items| ==> items[i].tagStart + 2 <= items[i].tagEnd <= |data|
    ensures op in ItemOps(data, items, hrefs) <==> exists i :: 0 <= i < |items| && Fixes(data, items[i], hrefs, op)
    decreases |items|
  {
    hide IsJPEG, WithMediaType;
    if items != [] {
      ItemsFixed(data, items[1..], hrefs, op);
      if i :| 0 <= i < |items[1..]| && Fixes(data, items[1..][i], hrefs, op) {
        assert items[1..][i] == items[i + 1];
      }
      if i :| 0 <= i < |items| && Fixes(data, items[i], hrefs, op) && i > 0 {
        assert items[i] == items[1..][i - 1];
      }
      assert op in ItemOps(data, items, hrefs) <==> Fixes(data, items[0], hrefs, op) || op in ItemOps(data, items[1..], hrefs);
    }
  }

  /** Where a new attribute goes: in front of the closing `>` or `/>`. */
  function TagEnd(tag: Bytes): nat
    requires |tag| >= 2
  {
    if tag[|tag| - 2] == SLASH then |tag| - 2 else |tag| - 1
  }

  /** A tag that gets its media type reads as before, except that its last media type is JPEG, or that it
      has one more attribute if it had none. */
  lemma MediaTypeIsSet(tag: Bytes)
    requires |tag| >= 2 && tag[|tag| - 1] == GT && BodyStart(tag) <= TagEnd(tag)
    requires M.ScansTo(tag[BodyStart(tag)..], TagEnd(tag) - BodyStart(tag))
    ensures var attrs, out := AttributesOf(tag), AttributesOf(WithMediaType(tag));
            match LastMatch(attrs, Latin("media-type"))
            case Some(k) => out == attrs[k := Attribute(attrs[k].name, Latin("image/jpeg"))]
            case None => out == attrs + [Attribute(Latin("media-type"), Latin("image/jpeg"))]
  {
    hide Latin, Attributes, BodyStart, Edited, LastMatch;
    JpegIsPlain();
    Unchanged(tag);
    EditChangesOneValue(tag, Latin("media-type"), Latin("image/jpeg"));
    if LastMatch(AttributesOf(tag), Latin("media-type")).None? {
      PlainNames();
      hide M.IsName, NoQuotes, M.ScansTo, M.Attr, Escape, WithMediaType;
      AttributeIsAdded(tag, TagEnd(tag), Latin("media-type"), Latin("image/jpeg"));
    }
  }

  lemma AttributeIsAdded(tag: Bytes, at: nat, name: Bytes, value: Bytes)
    requires BodyStart(tag) <= at < |tag| && EndsTag(tag[at]) && M.IsName(name) && NoQuotes(value)
    requires M.ScansTo(tag[BodyStart(tag)..], at - BodyStart(tag))
    ensures AttributesOf(tag[..at] + (M.Attr(name, value) + tag[at..])) == AttributesOf(tag) + [Attribute(name, value)]
  {
    hide Attributes, BodyStart, M.IsName, NoQuotes, M.ScansTo, M.Attr;
    var start := BodyStart(tag);
    var body, k := tag[start..], at - start;
    assert body[k..] == tag[at..] && body[..k] == tag[start..at] && body[k] == tag[at];
    M.AppendsAttribute(body, k, name, value);
    M.AttrStarts(name, value);
    FrontStays(tag, start, at, M.Attr(name, value) + tag[at..]);
  }

  lemma Unchanged(tag: Bytes)
    requires |tag| >= 2
    ensures var (fixed, found) := Edited(tag, Latin("media-type"), Latin("image/jpeg"));
            WithMediaType(tag)
            == if found then fixed
               else tag[..TagEnd(tag)] + (M.Attr(Latin("media-type"), Latin("image/jpeg")) + tag[TagEnd(tag)..])
    ensures LastMatch(AttributesOf(tag), Latin("media-type")).None?
            ==> Edited(tag, Latin("media-type"), Latin("image/jpeg")) == (tag, false)
  {
    hide Latin, AttributesOf, LastMatch, M.Attr;
    EditedOrNot(tag);
  }

  lemma EditedOrNot(tag: Bytes)
    ensures LastMatch(AttributesOf(tag), Latin("media-type")).None?
            ==> Edited(tag, Latin("media-type"), Latin("image/jpeg")) == (tag, false)
  {
    hide Latin, AttributesOf, LastMatch;
  }

  lemma JpegIsPlain()
    ensures Escape(Latin("image/jpeg")) == Latin("image/jpeg") && NoQuotes(Latin("image/jpeg"))
  {
    hide Latin, Escape;
    LatinAt("image/jpeg");
    M.PlainStays(Latin("image/jpeg"));
  }

  lemma FrontStays(tag: Bytes, start: nat, at: nat, u: Bytes)
    requires start == BodyStart(tag) && start <= at < |tag| && u != []
    requires u[0] == 0x20
    ensures AttributesOf(tag[..at] + u) == Attributes(tag[start..at] + u)
  {
    hide Run, Attributes;
    var t := tag[..at] + u;
    if start < at {
      SameStart(tag, start, at, u);
    } else {
      SpaceStarts(tag, at, u);
    }
    assert t[start..] == tag[start..at] + u;
  }

  lemma SameStart(tag: Bytes, start: nat, at: nat, u: Bytes)
    requires start == BodyStart(tag) && start < at <= |tag|
    ensures BodyStart(tag[..at] + u) == start
  {
    hide Run;
    var t := tag[..at] + u;
    assert t[..start + 1] == tag[..start + 1];
    Agree(tag, t, start + 1, 0);
    if tag[0] == LT { RunIsLocalFrom(tag, t, TagName, 1, start + 1); } else { RunIsLocal(tag, t, TagName, start + 1); }
  }

  lemma SpaceStarts(tag: Bytes, at: nat, u: Bytes)
    requires at == BodyStart(tag) && at < |tag| && u != [] && u[0] == 0x20
    ensures BodyStart(tag[..at] + u) == at
  {
    hide Run;
    var t := tag[..at] + u;
    if tag[0] == LT {
      assert at >= 1 && t[0] == tag[0];
      assert t[1..] == tag[1..at] + u;
      assert forall i :: 0 <= i < at - 1 ==> tag[1..at][i] == tag[1..][i];
      M.RunOf(tag[1..at], u, TagName);
    } else {
      assert forall i :: 0 <= i < at ==> tag[..at][i] == tag[i];
      M.RunOf(tag[..at], u, TagName);
      if at > 0 { assert t[0] == tag[0]; }
    }
  }

  /** White space around a media type does not matter, nor does case. */
  lemma JpegIsRecognized(front: seq<U.Rune>, t: seq<U.Rune>, back: seq<U.Rune>)
    requires (forall i :: 0 <= i < |front| ==> C.IsSpace(front[i])) && (forall i :: 0 <= i < |back| ==> C.IsSpace(back[i]))
    requires t != [] && !C.IsSpace(t[0]) && !C.IsSpace(t[|t| - 1])
    ensures IsJPEG(U.Encode(front + t + back)) <==> LowerRunes(t) in {Latin("image/jpeg"), Latin("image/jpg")}
    ensures |LowerRunes(t)| == |t| && forall i :: 0 <= i < |t| && 'A' as int <= t[i] <= 'Z' as int ==> LowerRunes(t)[i] == t[i] + 32
    ensures forall i :: 0 <= i < |t| && 'a' as int <= t[i] <= 'z' as int ==> LowerRunes(t)[i] == t[i]
  {
    hide Latin, C.IsSpace, U.Encode;
    U.DecodeEncode(front + t + back);
    C.TrimsEnds(front, t, back);
    LowerAt(t);
  }

  lemma {:induction false} LowerAt(t: seq<U.Rune>)
    ensures |LowerRunes(t)| == |t| && forall i :: 0 <= i < |t| ==> LowerRunes(t)[i] == LowerRune(t[i])
  {
    if t != [] { LowerAt(t[1..]); }
  }

  /** A new cover is an item at the end of the manifest and a `meta` at the end of the metadata. */
  lemma CoverIsAdded(data: Bytes, s: ScanState, id: Bytes, href: Bytes)
    requires ScanOk(s, data)
    ensures var r := Output(data, s, Edit(Keep, Keep, Fresh(id, href)));
            if s.manifestAt.None? || s.metadataAt.None? then r == Err(NoPlace)
            else
              var m, n := s.manifestAt.value, s.metadataAt.value;
              m <= |data| && n <= |data| && r == Ok(TwoInserted(data, m, NewItem(id, href), n, NewMeta(id)))
  {
    SpansEnd(data, s);
    CoverOnly(data, s, Fresh(id, href));
    hide ScanOk, RewriteOps, NewItem, NewMeta, Weave, StableSort;
    if s.manifestAt.Some? && s.metadataAt.Some? {
      SplicesAreSafe(data, s, Edit(Keep, Keep, Fresh(id, href)));
      TwoInserts(data, s.manifestAt.value, NewItem(id, href), s.metadataAt.value, NewMeta(id));
    }
  }

  /** Two insertions, the first one in front if they meet. */
  function TwoInserted(src: Bytes, m: nat, a: Bytes, n: nat, b: Bytes): Bytes
    requires m <= |src| && n <= |src|
  {
    if m <= n then Inserted(src, m, a, n, b) else Inserted(src, n, b, m, a)
  }

  function Inserted(src: Bytes, m: nat, a: Bytes, n: nat, b: Bytes): Bytes
    requires m <= n <= |src|
  {
    src[..m] + a + src[m..n] + b + src[n..]
  }

  lemma TwoInserts(src: Bytes, m: nat, a: Bytes, n: nat, b: Bytes)
    requires m <= |src| && n <= |src|
    ensures var sorted := StableSort([Splice(m, m, a), Splice(n, n, b)]);
            InBounds(sorted, |src|) && Weave(src, sorted, 0) == TwoInserted(src, m, a, n, b)
  {
    hide Weave, StableSort, Inserted;
    var x, y := Splice(m, m, a), Splice(n, n, b);
    SortTwo(x, y);
    if m <= n {
      assert StableSort([x, y]) == [x, y];
      WeaveTwo(src, m, a, n, b);
    } else {
      assert StableSort([x, y]) == [y, x];
      WeaveTwo(src, n, b, m, a);
    }
  }

  lemma SortTwo(x: Splice, y: Splice)
    ensures StableSort([x, y]) == if Leq(x, y) then [x, y] else [y, x]
  {
    assert [x, y][..1] == [x] && [x][..0] == [];
    assert StableSort([x]) == [x];
    assert [x] + [y] == [x, y] && [y] + [x] == [y, x];
    assert Insert([], y) == [y];
  }

  lemma WeaveTwo(src: Bytes, m: nat, a: Bytes, n: nat, b: Bytes)
    requires m <= n <= |src|
    ensures Weave(src, [Splice(m, m, a), Splice(n, n, b)], 0) == Inserted(src, m, a, n, b)
  {
    var x, y := Splice(m, m, a), Splice(n, n, b);
    assert [x, y][1..] == [y];
    WeaveOne(src, y, m);
    assert src[0..m] == src[..m];
    Grow(src[..m] + a, src[m..n], b, src[n..]);
  }

  /** The new item is read back as a JPEG of the manifest that is the cover of the book. */
  lemma NewItemReads(id: Bytes, href: Bytes)
    ensures |NewItem(id, href)| >= 5
    ensures AttributesOf(NewItem(id, href)[5..])
         == [ Attribute(Latin("xmlns"), Latin("http://www.idpf.org/2007/opf")),
              Attribute(Latin("id"), Escape(id)),
              Attribute(Latin("href"), Escape(href)),
              Attribute(Latin("media-type"), Latin("image/jpeg")),
              Attribute(Latin("properties"), Latin("cover-image")) ]
  {
    hide Latin, Escape, M.IsName, NoQuotes;
    PlainNames();
    PlainValues();
    EscapeHasNoQuotes(id);
    EscapeHasNoQuotes(href);
    Names();
    M.ReadsTag(ITEM, ItemAttributes(id, href), [SLASH, GT]);
    Tail(Latin("\n    "), [LT] + ITEM + M.AttrList(ItemAttributes(id, href)) + [SLASH, GT]);
  }

  lemma Names()
    ensures |Latin("\n    ")| == 5
    ensures forall i :: 0 <= i < |ITEM| ==> InTagName(ITEM[i])
    ensures forall i :: 0 <= i < |Latin("meta")| ==> InTagName(Latin("meta")[i])
  {
    hide Latin;
    LatinAt("\n    ");
    PlainName("item");
    PlainName("meta");
  }

  lemma Tail(a: Bytes, b: Bytes)
    ensures (a + b)[|a|..] == b
  {
  }

  /** And the `meta` names it by its id. */
  lemma NewMetaReads(id: Bytes)
    ensures |NewMeta(id)| >= 5
    ensures AttributesOf(NewMeta(id)[5..])
         == [ Attribute(Latin("xmlns"), Latin("http://www.idpf.org/2007/opf")),
              Attribute(Latin("name"), Latin("cover")),
              Attribute(Latin("content"), Escape(id)) ]
  {
    hide Latin, Escape, M.IsName, NoQuotes;
    PlainNames();
    PlainValues();
    EscapeHasNoQuotes(id);
    Names();
    M.ReadsTag(Latin("meta"), MetaAttributes(id), [SLASH, GT]);
    Tail(Latin("\n    "), [LT] + Latin("meta") + M.AttrList(MetaAttributes(id)) + [SLASH, GT]);
  }

  // ---------------------------------------------------------------- several edits at once

  /** The edits of title, author and cover do not depend on each other: together they splice what each of
      them splices alone, and fail exactly when one of them fails. */
  lemma EditsAreIndependent(data: Bytes, s: ScanState, e: Edit)
    requires ScanOk(s, data)
    ensures var title := RewriteOps(data, s, Edit(e.title, Keep, NoCover));
            var author := RewriteOps(data, s, Edit(Keep, e.author, NoCover));
            var cover := RewriteOps(data, s, Edit(Keep, Keep, e.cover));
            var all := RewriteOps(data, s, e);
            if title.Ok? && author.Ok? && cover.Ok? then all == Ok(title.value + author.value + cover.value) else all == Err(NoPlace)
  {
    hide Recorded, TitleOps, AuthorOps, CoverOps;
    KeptAlone(data, s);
    var title, author, cover := TitleOps(data, s, e.title), AuthorOps(data, s, e.author), CoverOps(data, s, e.cover);
    assert title.Ok? ==> title.value + [] + [] == title.value;
    assert author.Ok? ==> [] + author.value + [] == author.value;
    assert cover.Ok? ==> [] + [] + cover.value == cover.value;
    OnlyNoPlace(data, s, e);
  }

  lemma KeptAlone(data: Bytes, s: ScanState)
    requires Sliceable(s, |data|)
    ensures TitleOps(data, s, Keep) == Ok([]) && AuthorOps(data, s, Keep) == Ok([]) && CoverOps(data, s, NoCover) == Ok([])
  {
  }

  lemma OnlyNoPlace(data: Bytes, s: ScanState, e: Edit)
    requires Sliceable(s, |data|)
    ensures TitleOps(data, s, e.title).Err? ==> TitleOps(data, s, e.title).error == NoPlace
    ensures AuthorOps(data, s, e.author).Err? ==> AuthorOps(data, s, e.author).error == NoPlace
    ensures CoverOps(data, s, e.cover).Err? ==> CoverOps(data, s, e.cover).error == NoPlace
  {
    hide EditText, NewElement, Latin, IsBlank, ItemOps, CreatorOps;
  }

  /** An edit that sets nothing returns the document. */
  lemma NothingToEdit(data: Bytes, s: ScanState)
    requires ScanOk(s, data)
    ensures Output(data, s, Edit(Keep, Keep, NoCover)) == Ok(data)
  {
    NoSplice(data);
    KeptAlone(data, s);
    var none: seq<Splice> := [];
    assert none + none + none == none;
  }
}
