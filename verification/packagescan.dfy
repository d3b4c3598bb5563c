/** Which parts of a package document the scan records: `scanOPF` of internal/epub/edit.go.  The reference
    here knows nothing of frames and records; it only keeps the open elements by the number of their start
    tags. */
module PackageScans {

  import opened ByteStrings
  import opened Splicing
  import opened TagAttributes
  import opened Wrappers

  /** The start tags of the elements that are open in front of token `n`, outermost first. */
  function OpenAt(tokens: seq<Token>, n: nat): (o: seq<nat>)
    requires n <= |tokens|
    ensures forall i :: 0 <= i < |o| ==> o[i] < n && tokens[o[i]].kind.Open?
  {
    if n == 0 then []
    else
      var o := OpenAt(tokens, n - 1);
      match tokens[n - 1].kind
      case Open(_, _, _) => o + [n - 1]
      case Close(_) => if o == [] then [] else o[..|o| - 1]
      case _ => o
  }

  function LocalName(tokens: seq<Token>, i: nat): Bytes
    requires i < |tokens| && tokens[i].kind.Open?
  {
    tokens[i].kind.name.local
  }

  /** The outermost element is a package, and the next a section of that name. */
  predicate InSection(tokens: seq<Token>, o: seq<nat>, section: Bytes)
    requires forall i :: 0 <= i < |o| ==> o[i] < |tokens| && tokens[o[i]].kind.Open?
  {
    |o| >= 2 && LocalName(tokens, o[0]) == Latin("package") && LocalName(tokens, o[1]) == section
  }

  predicate SelfCloses(t: Token, data: Bytes) {
    t.end - t.start >= 2 && t.end <= |data| && data[t.end - 2] == SLASH
  }

  /** Token `j` ends a child of the metadata with this local name. */
  predicate EndsField(tokens: seq<Token>, j: nat, local: Bytes)
    requires j < |tokens|
  {
    var o := OpenAt(tokens, j);
    tokens[j].kind.Close? && |o| == 3 && InSection(tokens, o, Latin("metadata")) && LocalName(tokens, o[2]) == local
  }

  /** The field that token `j` ends: from its start tag to the start of its end tag. */
  function FieldAt(tokens: seq<Token>, data: Bytes, j: nat): TextSpan
    requires j < |tokens| && OpenAt(tokens, j) != []
  {
    var o := OpenAt(tokens, j);
    var open := tokens[o[|o| - 1]];
    TextSpan(open.start, open.end, tokens[j].start, open.kind.name, SelfCloses(open, data))
  }

  /** The metadata fields of a name, in document order. */
  function FieldsOf(tokens: seq<Token>, data: Bytes, n: nat, local: Bytes): seq<TextSpan>
    requires n <= |tokens|
  {
    if n == 0 then []
    else
      FieldsOf(tokens, data, n - 1, local)
      + (if EndsField(tokens, n - 1, local) then [FieldAt(tokens, data, n - 1)] else [])
  }

  /** Token `i` starts a child of the manifest named `item`. */
  predicate StartsItem(tokens: seq<Token>, i: nat)
    requires i < |tokens|
  {
    var o := OpenAt(tokens, i);
    tokens[i].kind.Open? && |o| == 2 && InSection(tokens, o, Latin("manifest")) && LocalName(tokens, i) == Latin("item")
  }

  function ItemsOf(tokens: seq<Token>, n: nat): seq<ItemSpan>
    requires n <= |tokens|
  {
    if n == 0 then []
    else
      var t := tokens[n - 1];
      ItemsOf(tokens, n - 1)
      + (if StartsItem(tokens, n - 1) then [ItemSpan(t.kind.href, t.kind.mediaType, t.start, t.end)] else [])
  }

  /** Token `j` ends a section of the package that has an end tag of its own. */
  predicate EndsSection(tokens: seq<Token>, data: Bytes, j: nat, section: Bytes)
    requires j < |tokens|
  {
    var o := OpenAt(tokens, j);
    && tokens[j].kind.Close? && |o| == 2 && LocalName(tokens, o[0]) == Latin("package") && LocalName(tokens, o[1]) == section
    && !SelfCloses(tokens[o[1]], data)
  }

  /** Where the first such section ends. */
  function SectionEnd(tokens: seq<Token>, data: Bytes, n: nat, section: Bytes): Option<nat>
    requires n <= |tokens|
  {
    if n == 0 then None
    else
      var before := SectionEnd(tokens, data, n - 1, section);
      if before.None? && EndsSection(tokens, data, n - 1, section) then Some(tokens[n - 1].start) else before
  }

  /** What a well-formed package document has: matching tags, one root, and no text outside it. */
  predicate Acceptable(tokens: seq<Token>, j: nat)
    requires j < |tokens|
  {
    var o := OpenAt(tokens, j);
    match tokens[j].kind
    case Open(_, _, _) => o != [] || forall i :: 0 <= i < j ==> !tokens[i].kind.Open?
    case Close(name) => o != [] && tokens[o[|o| - 1]].kind.name == name
    case Chars(blank) => o != [] || blank
    case Misc => true
  }

  // ---------------------------------------------------------------- the scan, token by token

  /** What the scan knows after `n` tokens. */
  function StateAt(tokens: seq<Token>, data: Bytes, n: nat): Outcome<ScanState>
    requires n <= |tokens| && forall i :: 0 <= i < |tokens| ==> TokenOk(tokens[i], |data|)
  {
    if n == 0 then Ok(START)
    else
      match StateAt(tokens, data, n - 1)
      case Err(e) => Err(e)
      case Ok(s) => ScanToken(s, tokens[n - 1], data)
  }

  predicate TokenOk(t: Token, n: nat) {
    t.start <= t.end <= n && (t.kind.Open? ==> t.start + 2 <= t.end)
  }

  lemma {:induction false} TokensOk(tokens: seq<Token>, pos: nat, n: nat, i: nat)
    requires Contiguous(tokens, pos, n) && i < |tokens|
    ensures TokenOk(tokens[i], n)
    decreases |tokens|
  {
    ContiguousEnds(tokens, pos, n);
    if i > 0 {
      TokensOk(tokens[1..], tokens[0].end, n, i - 1);
    }
  }

  lemma {:induction false} ScanFrom(tokens: seq<Token>, data: Bytes, n: nat, pos: nat)
    requires n <= |tokens| && (forall i :: 0 <= i < |tokens| ==> TokenOk(tokens[i], |data|))
    requires Contiguous(tokens[n..], pos, |data|) && StateAt(tokens, data, n).Ok?
    ensures ScanAll(StateAt(tokens, data, n).value, tokens[n..], pos, data)
         == match StateAt(tokens, data, |tokens|)
            case Err(e) => Err(e)
            case Ok(s) => if s.stack != [] then Err(UnexpectedEOF) else Ok(s)
    decreases |tokens| - n
  {
    hide ScanToken;
    if n < |tokens| {
      assert tokens[n..][1..] == tokens[n + 1..] && tokens[n..][0] == tokens[n];
      ContiguousEnds(tokens[n..], pos, |data|);
      if StateAt(tokens, data, n + 1).Ok? {
        ScanFrom(tokens, data, n + 1, tokens[n].end);
      } else {
        ErrorStays(tokens, data, n + 1, |tokens|);
      }
    }
  }

  lemma {:induction false} ErrorStays(tokens: seq<Token>, data: Bytes, n: nat, m: nat)
    requires n <= m <= |tokens| && (forall i :: 0 <= i < |tokens| ==> TokenOk(tokens[i], |data|))
    requires StateAt(tokens, data, n).Err?
    ensures StateAt(tokens, data, m) == StateAt(tokens, data, n)
  {
    if n < m { ErrorStays(tokens, data, n, m - 1); }
  }

  lemma AllTokensOk(tokens: seq<Token>, data: Bytes)
    requires Contiguous(tokens, 0, |data|)
    ensures forall i :: 0 <= i < |tokens| ==> TokenOk(tokens[i], |data|)
  {
    forall i | 0 <= i < |tokens| ensures TokenOk(tokens[i], |data|) {
      TokensOk(tokens, 0, |data|, i);
    }
  }

  lemma ScanIsStateAt(tokens: seq<Token>, data: Bytes)
    requires Contiguous(tokens, 0, |data|)
    ensures forall i :: 0 <= i < |tokens| ==> TokenOk(tokens[i], |data|)
    ensures ScanAll(START, tokens, 0, data)
         == match StateAt(tokens, data, |tokens|)
            case Err(e) => Err(e)
            case Ok(s) => if s.stack != [] then Err(UnexpectedEOF) else Ok(s)
  {
    AllTokensOk(tokens, data);
    assert tokens[0..] == tokens;
    ScanFrom(tokens, data, 0, 0);
  }

  // ---------------------------------------------------------------- what the scan records

  function FrameOf(t: Token, data: Bytes): Frame
    requires t.kind.Open?
  {
    Frame(t.kind.name, t.end, SelfCloses(t, data), t.start)
  }

  ghost predicate Follows(s: ScanState, tokens: seq<Token>, data: Bytes, n: nat)
    requires n <= |tokens|
  {
    var o := OpenAt(tokens, n);
    && |s.stack| == |o| && (forall i :: 0 <= i < |o| ==> s.stack[i] == FrameOf(tokens[o[i]], data))
    && (s.seenRoot <==> exists i :: 0 <= i < n && tokens[i].kind.Open?)
  }

  function First<T>(s: seq<T>): Option<T> {
    if s == [] then None else Some(s[0])
  }

  ghost predicate Records(s: ScanState, tokens: seq<Token>, data: Bytes, n: nat)
    requires n <= |tokens|
  {
    && s.title == First(FieldsOf(tokens, data, n, TITLE)) && s.creators == FieldsOf(tokens, data, n, CREATOR)
    && s.items == ItemsOf(tokens, n)
    && s.manifestAt == SectionEnd(tokens, data, n, MANIFEST) && s.metadataAt == SectionEnd(tokens, data, n, METADATA)
  }

  lemma NextFollows(s: ScanState, tokens: seq<Token>, data: Bytes, n: nat)
    requires n < |tokens| && TokenOk(tokens[n], |data|) && Follows(s, tokens, data, n)
    ensures ScanToken(s, tokens[n], data).Ok? <==> Acceptable(tokens, n)
    ensures ScanToken(s, tokens[n], data).Ok? ==> Follows(ScanToken(s, tokens[n], data).value, tokens, data, n + 1)
  {
    hide Latin, OpenAt;
    NextOpen(tokens, n);
    NextRoot(tokens, n);
  }

  lemma NextRoot(tokens: seq<Token>, n: nat)
    requires n < |tokens|
    ensures (exists i :: 0 <= i < n + 1 && tokens[i].kind.Open?)
            <==> (exists i :: 0 <= i < n && tokens[i].kind.Open?) || tokens[n].kind.Open?
  {
    if i :| 0 <= i < n && tokens[i].kind.Open? { assert 0 <= i < n + 1; }
  }

  lemma NextOpen(tokens: seq<Token>, n: nat)
    requires n < |tokens|
    ensures var o := OpenAt(tokens, n);
            OpenAt(tokens, n + 1) == match tokens[n].kind
                                     case Open(_, _, _) => o + [n]
                                     case Close(_) => if o == [] then [] else o[..|o| - 1]
                                     case _ => o
  {
  }

  lemma NextRecords(s: ScanState, tokens: seq<Token>, data: Bytes, n: nat)
    requires n < |tokens| && TokenOk(tokens[n], |data|) && Follows(s, tokens, data, n) && Records(s, tokens, data, n)
    requires ScanToken(s, tokens[n], data).Ok?
    ensures Records(ScanToken(s, tokens[n], data).value, tokens, data, n + 1)
  {
    hide Latin, OpenAt;
    NamesDiffer();
    var s' := ScanToken(s, tokens[n], data).value;
    match tokens[n].kind
    case Open(_, _, _) => assert !EndsField(tokens, n, TITLE) && !EndsField(tokens, n, CREATOR);
    case Close(_) => CloseRecords(s, tokens, data, n);
    case _ =>
  }

  lemma CloseRecords(s: ScanState, tokens: seq<Token>, data: Bytes, n: nat)
    requires n < |tokens| && TokenOk(tokens[n], |data|) && Follows(s, tokens, data, n) && Records(s, tokens, data, n)
    requires tokens[n].kind.Close? && ScanToken(s, tokens[n], data).Ok?
    ensures Records(ScanToken(s, tokens[n], data).value, tokens, data, n + 1)
  {
    hide Latin, OpenAt;
    NamesDiffer();
    var o := OpenAt(tokens, n);
    assert s.stack[|o| - 1] == FrameOf(tokens[o[|o| - 1]], data);
    assert |o| >= 2 ==> s.stack[0] == FrameOf(tokens[o[0]], data) && s.stack[1] == FrameOf(tokens[o[1]], data);
  }

  lemma {:induction false} StateRecords(tokens: seq<Token>, data: Bytes, n: nat)
    requires n <= |tokens| && (forall i :: 0 <= i < |tokens| ==> TokenOk(tokens[i], |data|))
    ensures StateAt(tokens, data, n).Ok? <==> forall j :: 0 <= j < n ==> Acceptable(tokens, j)
    ensures StateAt(tokens, data, n).Ok? ==>
              Follows(StateAt(tokens, data, n).value, tokens, data, n) && Records(StateAt(tokens, data, n).value, tokens, data, n)
  {
    hide ScanToken, Follows, Records, Acceptable;
    if n > 0 {
      StateRecords(tokens, data, n - 1);
      if StateAt(tokens, data, n - 1).Ok? {
        var s := StateAt(tokens, data, n - 1).value;
        NextFollows(s, tokens, data, n - 1);
        if ScanToken(s, tokens[n - 1], data).Ok? { NextRecords(s, tokens, data, n - 1); }
      }
    } else {
      NothingYet(tokens, data);
    }
  }

  lemma NothingYet(tokens: seq<Token>, data: Bytes)
    ensures Follows(START, tokens, data, 0) && Records(START, tokens, data, 0)
  {
    hide Latin;
  }

  /** A document is accepted exactly when every token fits and every element is closed. */
  lemma ScanAccepts(tokens: seq<Token>, data: Bytes)
    requires Contiguous(tokens, 0, |data|)
    ensures ScanAll(START, tokens, 0, data).Ok?
            <==> OpenAt(tokens, |tokens|) == [] && forall j :: 0 <= j < |tokens| ==> Acceptable(tokens, j)
  {
    hide ScanAll, Acceptable, Records;
    ScanIsStateAt(tokens, data);
    StateRecords(tokens, data, |tokens|);
  }

  /** The scan of an accepted document records the first title and every creator among the children of
      the metadata, every item of the manifest, and where the two sections end. */
  lemma ScanRecords(tokens: seq<Token>, data: Bytes)
    requires Contiguous(tokens, 0, |data|) && ScanAll(START, tokens, 0, data).Ok?
    ensures var s := ScanAll(START, tokens, 0, data).value;
            var n := |tokens|;
            && s.title == First(FieldsOf(tokens, data, n, Latin("title")))
            && s.creators == FieldsOf(tokens, data, n, Latin("creator"))
            && s.items == ItemsOf(tokens, n)
            && s.manifestAt == SectionEnd(tokens, data, n, Latin("manifest"))
            && s.metadataAt == SectionEnd(tokens, data, n, Latin("metadata"))
  {
    hide ScanAll, Latin;
    ScanIsStateAt(tokens, data);
    StateRecords(tokens, data, |tokens|);
  }
}
