/** White-space collapsing, as internal/epub/search.go applies it to chapter text and to queries, and
    frontend/src/iframe/searchHighlight.ts mirrors it: words joined by one space. */
module Collapsing {

  import opened Basics
  import opened Utf8

  const SPACE: Rune := 0x20

  /** `unicode.IsSpace`: the White_Space property. */
  predicate IsSpace(r: Rune) {
    || 0x09 <= r <= 0x0D || r == 0x20 || r == 0x85 || r == 0xA0 || r == 0x1680
    || 0x2000 <= r <= 0x200A || r == 0x2028 || r == 0x2029 || r == 0x202F || r == 0x205F || r == 0x3000
  }

  // ---------------------------------------------------------------- the reference: fields joined by a space

  /** The leading run without white space. */
  function Word(s: seq<Rune>): (w: seq<Rune>)
    ensures |w| <= |s| && w == s[..|w|]
    ensures forall i :: 0 <= i < |w| ==> !IsSpace(w[i])
  {
    if s == [] || IsSpace(s[0]) then [] else [s[0]] + Word(s[1..])
  }

  function Fields(s: seq<Rune>): seq<seq<Rune>>
    decreases |s|
  {
    if s == [] then []
    else if IsSpace(s[0]) then Fields(s[1..])
    else [Word(s)] + Fields(s[|Word(s)|..])
  }

  function Join(words: seq<seq<Rune>>): seq<Rune> {
    if words == [] then []
    else if |words| == 1 then words[0]
    else words[0] + [SPACE] + Join(words[1..])
  }

  function Collapse(s: seq<Rune>): seq<Rune> {
    Join(Fields(s))
  }

  // ---------------------------------------------------------------- the writer the source uses

  /** Text written so far, and whether white space was seen since the last code point. */
  datatype Writer = Writer(out: seq<Rune>, pending: bool)

  function Put(w: Writer, r: Rune): Writer {
    if IsSpace(r) then w.(pending := true)
    else Writer((if w.pending && w.out != [] then w.out + [SPACE] else w.out) + [r], false)
  }

  function PutAll(w: Writer, s: seq<Rune>): Writer
    decreases |s|
  {
    if s == [] then w else PutAll(Put(w, s[0]), s[1..])
  }

  /** A boundary that writes nothing at the start of the text. */
  function PutBoundary(w: Writer): Writer {
    if w.out == [] then w else w.(pending := true)
  }

  lemma {:induction false} PutAllConcat(w: Writer, a: seq<Rune>, b: seq<Rune>)
    ensures PutAll(w, a + b) == PutAll(PutAll(w, a), b)
    decreases |a|
  {
    if a == [] {
      assert a + b == b;
    } else {
      assert (a + b)[1..] == a[1..] + b;
      PutAllConcat(Put(w, a[0]), a[1..], b);
    }
  }

  /** Words after a finished text. */
  function Glue(out: seq<Rune>, words: seq<seq<Rune>>): seq<Rune> {
    if words == [] then out else if out == [] then Join(words) else out + [SPACE] + Join(words)
  }

  lemma GlueWord(out: seq<Rune>, word: seq<Rune>, words: seq<seq<Rune>>)
    requires word != []
    ensures Glue(out, [word] + words) == Glue(if out == [] then word else out + [SPACE] + word, words)
  {
    assert ([word] + words)[1..] == words;
    if out != [] && words != [] {
      assert out + [SPACE] + (word + [SPACE] + Join(words)) == out + [SPACE] + word + [SPACE] + Join(words);
    }
  }

  lemma WordStep(s: seq<Rune>)
    requires s != [] && !IsSpace(s[0])
    ensures Word(s) == [s[0]] + Word(s[1..]) && s[1..][|Word(s[1..])|..] == s[|Word(s)|..]
    ensures Fields(s) == [Word(s)] + Fields(s[|Word(s)|..])
  {
  }

  /** The writer is inside a word, whose remaining code points come first. */
  predicate Inside(w: Writer) {
    w.out != [] && !w.pending
  }

  function Written(w: Writer, s: seq<Rune>): seq<Rune> {
    if Inside(w) then Glue(w.out + Word(s), Fields(s[|Word(s)|..])) else Glue(w.out, Fields(s))
  }

  lemma WrittenSpace(w: Writer, s: seq<Rune>)
    requires s != [] && IsSpace(s[0])
    ensures Written(Put(w, s[0]), s[1..]) == Written(w, s)
  {
    assert Word(s) == [] && s[0..] == s;
    assert w.out + [] == w.out;
  }

  lemma WrittenInside(w: Writer, s: seq<Rune>)
    requires s != [] && !IsSpace(s[0]) && Inside(w)
    ensures Written(Put(w, s[0]), s[1..]) == Written(w, s)
  {
    WordStep(s);
    assert w.out + [s[0]] + Word(s[1..]) == w.out + ([s[0]] + Word(s[1..]));
  }

  lemma WrittenFirst(w: Writer, s: seq<Rune>)
    requires s != [] && !IsSpace(s[0]) && !Inside(w)
    ensures Written(Put(w, s[0]), s[1..]) == Written(w, s)
  {
    hide IsSpace, Word, Fields, Glue;
    WordStep(s);
    var head, tail := [s[0]], Word(s[1..]);
    GlueWord(w.out, head + tail, Fields(s[|Word(s)|..]));
    assert [] + head == head;
    Regroup(w.out + [SPACE], head, tail);
  }

  /** Whatever was written before, the writer adds the remaining words, each after one space. */
  lemma {:induction false} WriterGlues(w: Writer, s: seq<Rune>)
    ensures PutAll(w, s).out == Written(w, s)
    decreases |s|
  {
    if s == [] {
      assert w.out + [] == w.out;
    } else {
      WriterGlues(Put(w, s[0]), s[1..]);
      if IsSpace(s[0]) { WrittenSpace(w, s); } else if Inside(w) { WrittenInside(w, s); } else { WrittenFirst(w, s); }
    }
  }

  /** The writer collapses. */
  lemma WriterCollapses(s: seq<Rune>)
    ensures PutAll(Writer([], false), s).out == Collapse(s)
  {
    WriterGlues(Writer([], false), s);
  }

  method CollapseSpaceRuns(s: seq<Rune>) returns (b: seq<Rune>)
    ensures b == Collapse(s)
  {
    b := [];
    var space := false;
    for i := 0 to |s|
      invariant PutAll(Writer([], false), s) == PutAll(Writer(b, space), s[i..])
    {
      var r := s[i];
      assert s[i..][1..] == s[i + 1..];
      if IsSpace(r) {
        space := true;
        continue;
      }
      if space && |b| > 0 {
        b := b + [SPACE];
      }
      space := false;
      b := b + [r];
    }
    WriterCollapses(s);
  }

  // ---------------------------------------------------------------- what collapsed text looks like

  /** No white space at either end, no two white-space code points in a row, and no other white space
      than the plain space. */
  ghost predicate Collapsed(s: seq<Rune>) {
    && (s != [] ==> !IsSpace(s[0]) && !IsSpace(s[|s| - 1]))
    && (forall i :: 0 <= i < |s| && IsSpace(s[i]) ==> s[i] == SPACE)
    && (forall i :: 0 < i < |s| ==> !(IsSpace(s[i - 1]) && IsSpace(s[i])))
  }

  ghost predicate PlainWords(words: seq<seq<Rune>>) {
    forall i :: 0 <= i < |words| ==> words[i] != [] && forall k :: 0 <= k < |words[i]| ==> !IsSpace(words[i][k])
  }

  lemma {:induction false} FieldsArePlain(s: seq<Rune>)
    ensures PlainWords(Fields(s))
    decreases |s|
  {
    if s == [] {
    } else if IsSpace(s[0]) {
      FieldsArePlain(s[1..]);
    } else {
      FieldsArePlain(s[|Word(s)|..]);
    }
  }

  lemma {:induction false} JoinIsCollapsed(words: seq<seq<Rune>>)
    requires PlainWords(words)
    ensures Collapsed(Join(words)) && (words != [] ==> Join(words) != [])
  {
    if |words| == 1 {
      assert words[0] != [];
    } else if words != [] {
      JoinIsCollapsed(words[1..]);
      GluedIsCollapsed(words[0], Join(words[1..]));
    }
  }

  lemma GluedIsCollapsed(word: seq<Rune>, rest: seq<Rune>)
    requires word != [] && rest != [] && Collapsed(rest) && forall k :: 0 <= k < |word| ==> !IsSpace(word[k])
    ensures Collapsed(word + [SPACE] + rest)
  {
    var s := word + [SPACE] + rest;
    forall i | 0 <= i < |s|
      ensures s[i] == (if i < |word| then word[i] else if i == |word| then SPACE else rest[i - |word| - 1])
    {
    }
  }

  lemma CollapseIsCollapsed(s: seq<Rune>)
    ensures Collapsed(Collapse(s))
  {
    FieldsArePlain(s);
    JoinIsCollapsed(Fields(s));
  }

  /** Text that is already collapsed passes the writer unchanged. */
  lemma {:induction false} WriterKeeps(w: Writer, s: seq<Rune>, i: nat)
    requires Collapsed(s) && i <= |s| && (i > 0 ==> !IsSpace(s[i - 1])) && w == Writer(s[..i], false)
    ensures PutAll(w, s[i..]).out == s
    decreases |s| - i
  {
    if i < |s| {
      assert s[i..][1..] == s[i + 1..];
      if IsSpace(s[i]) {
        assert s[i + 1..][1..] == s[i + 2..];
        assert s[..i] + [SPACE] + [s[i + 1]] == s[..i + 2];
        WriterKeeps(Writer(s[..i + 2], false), s, i + 2);
      } else {
        assert s[..i] + [s[i]] == s[..i + 1];
        WriterKeeps(Writer(s[..i + 1], false), s, i + 1);
      }
    } else {
      assert s[..i] == s;
    }
  }

  lemma CollapsedIsFixed(s: seq<Rune>)
    requires Collapsed(s)
    ensures Collapse(s) == s
  {
    WriterKeeps(Writer([], false), s, 0);
    assert s[0..] == s;
    WriterCollapses(s);
  }

  // ---------------------------------------------------------------- trimming

  /** `strings.TrimSpace`. */
  function TrimLeft(s: seq<Rune>): seq<Rune> {
    if s == [] || !IsSpace(s[0]) then s else TrimLeft(s[1..])
  }

  function TrimRight(s: seq<Rune>): seq<Rune> {
    if s == [] || !IsSpace(s[|s| - 1]) then s else TrimRight(s[..|s| - 1])
  }

  function TrimSpace(s: seq<Rune>): seq<Rune> {
    TrimRight(TrimLeft(s))
  }

  lemma {:induction false} TrimLeftFields(s: seq<Rune>)
    ensures Fields(TrimLeft(s)) == Fields(s)
  {
    if s != [] && IsSpace(s[0]) {
      TrimLeftFields(s[1..]);
    }
  }

  lemma {:induction false} TrimRightFields(s: seq<Rune>)
    ensures Collapse(TrimRight(s)) == Collapse(s)
  {
    if s != [] && IsSpace(s[|s| - 1]) {
      TrimRightFields(s[..|s| - 1]);
      assert s == s[..|s| - 1] + [s[|s| - 1]];
      OneBlankBack(s[..|s| - 1], s[|s| - 1]);
    }
  }

  /** Trimming before collapsing changes nothing, and trimming collapsed text changes nothing. */
  lemma TrimIsRedundant(s: seq<Rune>)
    ensures Collapse(TrimSpace(s)) == Collapse(s)
    ensures TrimSpace(Collapse(s)) == Collapse(s)
  {
    TrimRightFields(TrimLeft(s));
    TrimLeftFields(s);
    CollapseIsCollapsed(s);
  }

  lemma {:induction false} BlankFront(w: seq<Rune>, s: seq<Rune>)
    requires forall i :: 0 <= i < |w| ==> IsSpace(w[i])
    ensures Fields(w + s) == Fields(s)
  {
    hide IsSpace;
    if w == [] {
      assert w + s == s;
    } else {
      assert (w + s)[1..] == w[1..] + s;
      BlankFront(w[1..], s);
    }
  }

  lemma {:induction false} BlankBack(s: seq<Rune>, w: seq<Rune>)
    requires forall i :: 0 <= i < |w| ==> IsSpace(w[i])
    ensures Collapse(s + w) == Collapse(s)
  {
    if w == [] {
      assert s + w == s;
    } else {
      var init, last := w[..|w| - 1], w[|w| - 1];
      BlankBack(s, init);
      assert s + w == (s + init) + [last];
      OneBlankBack(s + init, last);
    }
  }

  lemma OneBlankBack(s: seq<Rune>, r: Rune)
    requires IsSpace(r)
    ensures Collapse(s + [r]) == Collapse(s)
  {
    PutAllConcat(Writer([], false), s, [r]);
    WriterCollapses(s + [r]);
    WriterCollapses(s);
    assert PutAll(PutAll(Writer([], false), s), [r]) == Put(PutAll(Writer([], false), s), r);
  }

  /** White space at either end is not seen. */
  lemma BlankEnds(front: seq<Rune>, s: seq<Rune>, back: seq<Rune>)
    requires forall i :: 0 <= i < |front| ==> IsSpace(front[i])
    requires forall i :: 0 <= i < |back| ==> IsSpace(back[i])
    ensures Collapse(front + s + back) == Collapse(s)
  {
    hide IsSpace;
    BlankBack(front + s, back);
    BlankFront(front, s);
  }

  /** Trimming removes the white space at both ends, and nothing else. */
  lemma TrimsEnds(front: seq<Rune>, t: seq<Rune>, back: seq<Rune>)
    requires (forall i :: 0 <= i < |front| ==> IsSpace(front[i])) && (forall i :: 0 <= i < |back| ==> IsSpace(back[i]))
    requires t != [] && !IsSpace(t[0]) && !IsSpace(t[|t| - 1])
    ensures TrimSpace(front + t + back) == t
  {
    hide IsSpace;
    TrimsLeft(front, t + back);
    TrimsRight(t, back);
    assert front + t + back == front + (t + back);
  }

  lemma {:induction false} TrimsLeft(w: seq<Rune>, s: seq<Rune>)
    requires (forall i :: 0 <= i < |w| ==> IsSpace(w[i])) && s != [] && !IsSpace(s[0])
    ensures TrimLeft(w + s) == s
  {
    hide IsSpace;
    if w == [] {
      assert w + s == s;
    } else {
      assert (w + s)[1..] == w[1..] + s;
      TrimsLeft(w[1..], s);
    }
  }

  lemma {:induction false} TrimsRight(s: seq<Rune>, w: seq<Rune>)
    requires (forall i :: 0 <= i < |w| ==> IsSpace(w[i])) && s != [] && !IsSpace(s[|s| - 1])
    ensures TrimRight(s + w) == s
  {
    hide IsSpace;
    if w == [] {
      assert s + w == s;
    } else {
      assert (s + w)[..|s + w| - 1] == s + w[..|w| - 1];
      TrimsRight(s, w[..|w| - 1]);
    }
  }

  // ---------------------------------------------------------------- what collapsing keeps

  /** The code points that are no white space. */
  function Ink(s: seq<Rune>): seq<Rune> {
    if s == [] then [] else (if IsSpace(s[0]) then [] else [s[0]]) + Ink(s[1..])
  }

  lemma {:induction false} InkConcat(a: seq<Rune>, b: seq<Rune>)
    ensures Ink(a + b) == Ink(a) + Ink(b)
  {
    if a == [] {
      assert a + b == b;
    } else {
      assert (a + b)[1..] == a[1..] + b;
      InkConcat(a[1..], b);
    }
  }

  lemma {:induction false} WriterKeepsInk(w: Writer, s: seq<Rune>)
    ensures Ink(PutAll(w, s).out) == Ink(w.out) + Ink(s)
    decreases |s|
  {
    hide IsSpace;
    if s != [] {
      WriterKeepsInk(Put(w, s[0]), s[1..]);
      PutKeepsInk(w, s[0]);
      Regroup(Ink(w.out), if IsSpace(s[0]) then [] else [s[0]], Ink(s[1..]));
    }
  }

  lemma PutKeepsInk(w: Writer, r: Rune)
    ensures Ink(Put(w, r).out) == Ink(w.out) + (if IsSpace(r) then [] else [r])
  {
    assert Ink([r]) == (if IsSpace(r) then [] else [r]) + Ink([]);
    assert Ink([SPACE]) == Ink([]);
    InkConcat(w.out, [SPACE]);
    InkConcat(w.out, [r]);
    InkConcat(w.out + [SPACE], [r]);
  }

  /** Collapsing loses no code point but white space, adds none but white space, and keeps the order. */
  lemma CollapseKeepsInk(s: seq<Rune>)
    ensures Ink(Collapse(s)) == Ink(s)
  {
    WriterKeepsInk(Writer([], false), s);
    WriterCollapses(s);
  }

  lemma EndsInside(a: seq<Rune>, x: Rune)
    requires !IsSpace(x)
    ensures PutAll(Writer([], false), a + [x]) == Writer(Collapse(a + [x]), false) && Collapse(a + [x]) != []
  {
    PutAllConcat(Writer([], false), a, [x]);
    WriterCollapses(a + [x]);
    var w := PutAll(Writer([], false), a);
    assert PutAll(w, [x]) == Put(w, x);
  }

  lemma {:induction false} BlanksWait(w: Writer, gap: seq<Rune>)
    requires forall i :: 0 <= i < |gap| ==> IsSpace(gap[i])
    ensures PutAll(w, gap) == if gap == [] then w else w.(pending := true)
    decreases |gap|
  {
    if gap != [] {
      BlanksWait(Put(w, gap[0]), gap[1..]);
    }
  }

  lemma AfterGap(out: seq<Rune>, gap: bool, s: seq<Rune>)
    requires out != [] && s != [] && !IsSpace(s[0])
    ensures PutAll(Writer(out, gap), s).out == out + (if gap then [SPACE] else []) + Collapse(s)
  {
    WriterGlues(Writer(out, gap), s);
    WordStep(s);
    if !gap {
      var word, words := Word(s), Fields(s[|Word(s)|..]);
      assert out + [] == out;
      if words == [] {
        assert [word] + words == [word];
      } else {
        assert ([word] + words)[1..] == words;
        Regroup(out, word, [SPACE] + Join(words));
        Regroup(out + word, [SPACE], Join(words));
        Regroup(word, [SPACE], Join(words));
      }
    }
  }

  /** White space between two other code points becomes one space whatever its length and kind, and
      two code points without white space between them stay neighbours. */
  lemma GapsBecomeOneSpace(a: seq<Rune>, x: Rune, gap: seq<Rune>, y: Rune, b: seq<Rune>)
    requires !IsSpace(x) && !IsSpace(y) && forall i :: 0 <= i < |gap| ==> IsSpace(gap[i])
    ensures Collapse(a + [x] + gap + ([y] + b))
         == Collapse(a + [x]) + (if gap == [] then [] else [SPACE]) + Collapse([y] + b)
  {
    hide IsSpace, Collapse;
    EndsInside(a, x);
    BlanksWait(Writer(Collapse(a + [x]), false), gap);
    PutAllConcat(Writer([], false), a + [x], gap);
    PutAllConcat(Writer([], false), a + [x] + gap, [y] + b);
    AfterGap(Collapse(a + [x]), gap != [], [y] + b);
    WriterCollapses(a + [x] + gap + ([y] + b));
  }
}
