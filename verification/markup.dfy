/** What the edited markup means to a reader of XML: attributes as sections 2.3 and 3.1 of XML 1.0 write
    them are the ones the scan finds, an attribute written at the end of a tag is one more, and escaped
    text reads back. */
module Markup {

  import opened Basics
  import opened ByteStrings
  import opened TagAttributes
  import U = Utf8
  import opened Wrappers

  // ---------------------------------------------------------------- attributes

  predicate IsName(name: Bytes) {
    name != [] && forall i :: 0 <= i < |name| ==> InName(name[i])
  }

  predicate IsSpaces(w: Bytes) {
    forall i :: 0 <= i < |w| ==> IsXMLSpace(w[i])
  }

  lemma RunOf(x: Bytes, y: Bytes, c: Class)
    requires (forall i :: 0 <= i < |x| ==> Is(x[i], c)) && y != [] && !Is(y[0], c)
    ensures Run(x + y, c) == |x| && (x + y)[|x|..] == y && (x + y)[..|x|] == x
  {
    RunExactly(x + y, c, |x|);
  }

  /** `name = "value"`, with white space in front and around the equals sign and either kind of quote. */
  function Written(lead: Bytes, name: Bytes, a: Bytes, b: Bytes, quote: Byte, value: Bytes, rest: Bytes): Bytes {
    lead + (name + (a + ([EQUALS] + (b + ([quote] + (value + ([quote] + rest)))))))
  }

  lemma ReadsValue(b: Bytes, quote: Byte, value: Bytes, rest: Bytes, front: Bytes, name: Bytes)
    requires IsSpaces(b) && IsQuote(quote) && forall i :: 0 <= i < |value| ==> value[i] != quote
    ensures var s := front + ([EQUALS] + (b + ([quote] + (value + ([quote] + rest)))));
            var from := |front| + 1 + |b| + 1;
            && |front| < |s| && from + |value| < |s|
            && ValueStep(s, |front|, name) == Found(name, from, from + |value|)
            && s[from..from + |value|] == value && s[from + |value| + 1..] == rest
  {
    hide Run;
    var t7 := [quote] + rest;
    var t6 := value + t7;
    var t5 := [quote] + t6;
    var t4 := b + t5;
    var s := front + ([EQUALS] + t4);
    RunOf(b, t5, Space);
    RunOf(value, t7, Not(quote));
    assert s[|front|] == EQUALS && s[|front| + 1..] == t4;
    var open := |front| + 1 + |b|;
    assert s[open] == quote && s[open + 1..] == t6;
    assert s[open + 1..][..|value|] == value && s[open + 1..][|value| + 1..] == rest;
  }

  /** The scan reads an attribute as XML writes it. */
  lemma ReadsAttribute(lead: Bytes, name: Bytes, a: Bytes, b: Bytes, quote: Byte, value: Bytes, rest: Bytes)
    requires IsSpaces(lead) && IsName(name) && IsSpaces(a) && IsSpaces(b)
    requires IsQuote(quote) && forall i :: 0 <= i < |value| ==> value[i] != quote
    ensures Attributes(Written(lead, name, a, b, quote, value, rest)) == [Attribute(name, value)] + Attributes(rest)
  {
    hide NextStep, Attributes, Written, IsName, IsSpaces;
    FindsAttribute(lead, name, a, b, quote, value, rest);
    UnfoldFound(Written(lead, name, a, b, quote, value, rest), 0, []);
  }

  lemma FindsAttribute(lead: Bytes, name: Bytes, a: Bytes, b: Bytes, quote: Byte, value: Bytes, rest: Bytes)
    requires IsSpaces(lead) && IsName(name) && IsSpaces(a) && IsSpaces(b)
    requires IsQuote(quote) && forall i :: 0 <= i < |value| ==> value[i] != quote
    ensures var s := Written(lead, name, a, b, quote, value, rest);
            var from := |lead| + |name| + |a| + 1 + |b| + 1;
            && from + |value| < |s| && NextStep(s) == Found(name, from, from + |value|)
            && s[from..from + |value|] == value && s[from + |value| + 1..] == rest
  {
    hide NameStart, NameEnd, EqualsAt, ValueStep, NextStep, IsSpaces, IsName, EndsTag;
    var tail := [EQUALS] + (b + ([quote] + (value + ([quote] + rest))));
    HeadOf(lead, name, a, tail);
    FindsValue(lead + name + a, b, quote, value, rest, name);
  }

  lemma FindsValue(front: Bytes, b: Bytes, quote: Byte, value: Bytes, rest: Bytes, name: Bytes)
    requires IsSpaces(b) && IsQuote(quote) && forall i :: 0 <= i < |value| ==> value[i] != quote
    requires var s := front + ([EQUALS] + (b + ([quote] + (value + ([quote] + rest)))));
             NameStart(s) < |s| && !EndsTag(s[NameStart(s)]) && EqualsAt(s) == |front| && s[NameStart(s)..NameEnd(s)] == name
    ensures var s := front + ([EQUALS] + (b + ([quote] + (value + ([quote] + rest)))));
            var from := |front| + 1 + |b| + 1;
            && from + |value| < |s| && NextStep(s) == Found(name, from, from + |value|)
            && s[from..from + |value|] == value && s[from + |value| + 1..] == rest
  {
    hide NameStart, NameEnd, EqualsAt, ValueStep, NextStep, IsSpaces;
    ReadsValue(b, quote, value, rest, front, name);
    NextIsValue(front + ([EQUALS] + (b + ([quote] + (value + ([quote] + rest))))), |front|, name);
  }

  lemma NextIsValue(s: Bytes, at: nat, name: Bytes)
    requires NameStart(s) < |s| && !EndsTag(s[NameStart(s)]) && EqualsAt(s) == at && s[NameStart(s)..NameEnd(s)] == name
    ensures NextStep(s) == ValueStep(s, at, name)
  {
    hide Run, ValueStep;
  }

  lemma HeadOf(lead: Bytes, name: Bytes, a: Bytes, tail: Bytes)
    requires IsSpaces(lead) && IsName(name) && IsSpaces(a) && tail != [] && tail[0] == EQUALS
    ensures var s := lead + (name + (a + tail));
            && s == lead + name + a + tail && NameStart(s) == |lead| && NameEnd(s) == |lead| + |name|
            && EqualsAt(s) == |lead| + |name| + |a| && s[|lead|..|lead| + |name|] == name
            && NameStart(s) < |s| && !EndsTag(s[NameStart(s)])
  {
    hide Run;
    var t2 := a + tail;
    var t1 := name + t2;
    var s := lead + t1;
    RunOf(lead, t1, Space);
    assert !InName(t2[0]) by { if a != [] { assert t2[0] == a[0]; } }
    RunOf(name, t2, Name);
    RunOf(a, tail, Space);
    assert s[|lead|..] == t1 && s[|lead| + |name|..] == t2;
    assert s[|lead|..|lead| + |name|] == t1[..|name|];
  }

  /** How this program writes an attribute. */
  function Attr(name: Bytes, value: Bytes): Bytes {
    [0x20] + name + [EQUALS, QUOTE] + value + [QUOTE]
  }

  lemma ReadsAttr(lead: Bytes, name: Bytes, value: Bytes, rest: Bytes)
    requires IsSpaces(lead) && IsName(name) && NoQuotes(value)
    ensures Attributes(lead + (Attr(name, value) + rest)) == [Attribute(name, value)] + Attributes(rest)
  {
    hide Attributes;
    var front := lead + [0x20];
    ReadsAttribute(front, name, [], [], QUOTE, value, rest);
    assert [] + ([QUOTE] + (value + ([QUOTE] + rest))) == [QUOTE] + (value + ([QUOTE] + rest));
    var t := [QUOTE] + (value + ([QUOTE] + rest));
    assert [] + ([EQUALS] + t) == [EQUALS] + t;
    assert Written(front, name, [], [], QUOTE, value, rest) == front + (name + ([EQUALS] + t));
    assert lead + (Attr(name, value) + rest) == front + (name + ([EQUALS] + t));
  }

  lemma AttrStarts(name: Bytes, value: Bytes)
    ensures Attr(name, value) != [] && Attr(name, value)[0] == 0x20
  {
  }

  function AttrList(attrs: seq<Attribute>): Bytes {
    if attrs == [] then [] else Attr(attrs[0].name, attrs[0].value) + AttrList(attrs[1..])
  }

  predicate Writable(attrs: seq<Attribute>) {
    forall i :: 0 <= i < |attrs| ==> IsName(attrs[i].name) && NoQuotes(attrs[i].value)
  }

  lemma {:induction false} ReadsList(attrs: seq<Attribute>, rest: Bytes)
    requires Writable(attrs)
    ensures Attributes(AttrList(attrs) + rest) == attrs + Attributes(rest)
  {
    hide Attributes, Attr, IsName, NoQuotes;
    if attrs == [] {
      assert [] + rest == rest;
    } else {
      ReadsList(attrs[1..], rest);
      ReadsFirst(attrs[0], AttrList(attrs[1..]), rest, attrs[1..]);
      assert attrs == [attrs[0]] + attrs[1..];
    }
  }

  lemma ReadsFirst(first: Attribute, y: Bytes, rest: Bytes, attrs: seq<Attribute>)
    requires IsName(first.name) && NoQuotes(first.value) && Attributes(y + rest) == attrs + Attributes(rest)
    ensures Attributes((Attr(first.name, first.value) + y) + rest) == ([first] + attrs) + Attributes(rest)
  {
    hide Attributes, Attr, IsName, NoQuotes;
    var x := Attr(first.name, first.value);
    ReadsAttr([], first.name, first.value, y + rest);
    Regroup(x, y, rest);
    assert [] + (x + (y + rest)) == x + (y + rest);
    assert [first] + (attrs + Attributes(rest)) == ([first] + attrs) + Attributes(rest);
  }

  /** A start tag this program writes is read back with its attributes. */
  lemma ReadsTag(element: Bytes, attrs: seq<Attribute>, rest: Bytes)
    requires (forall i :: 0 <= i < |element| ==> InTagName(element[i])) && Writable(attrs) && attrs != []
    requires rest != [] && EndsTag(rest[0])
    ensures AttributesOf([LT] + element + AttrList(attrs) + rest) == attrs
  {
    StartsWithSpace(attrs);
    NothingBehind(rest);
    hide Attributes, AttrList;
    ReadsList(attrs, rest);
    BodyBehind(element, AttrList(attrs) + rest);
    Regroup([LT] + element, AttrList(attrs), rest);
  }

  lemma StartsWithSpace(attrs: seq<Attribute>)
    requires attrs != []
    ensures AttrList(attrs) != [] && AttrList(attrs)[0] == 0x20
  {
  }

  lemma BodyBehind(element: Bytes, body: Bytes)
    requires (forall i :: 0 <= i < |element| ==> InTagName(element[i])) && body != [] && body[0] == 0x20
    ensures AttributesOf([LT] + element + body) == Attributes(body)
  {
    hide Attributes, Run;
    var tag := [LT] + element + body;
    RunOf(element, body, TagName);
    assert tag[1..] == element + body;
    assert tag[1 + |element|..] == body;
  }

  // ---------------------------------------------------------------- an attribute written at the end

  /** The scan reads attributes with values only, up to position `k`. */
  predicate ScansTo(s: Bytes, k: nat)
    decreases |s|
  {
    match NextStep(s)
    case Done => NameStart(s) == k
    case Skip(_) => false
    case Found(_, _, to) => to < k && ScansTo(s[to + 1..], k - to - 1)
  }

  lemma {:induction false} AppendsAttribute(s: Bytes, k: nat, name: Bytes, value: Bytes)
    requires ScansTo(s, k) && k < |s| && EndsTag(s[k]) && IsName(name) && NoQuotes(value)
    ensures Attributes(s[..k] + (Attr(name, value) + s[k..])) == Attributes(s) + [Attribute(name, value)]
    decreases |s|
  {
    hide NextStep, Attributes, Attr, Run;
    var u := Attr(name, value) + s[k..];
    match NextStep(s)
    case Done => AppendsFirst(s, k, name, value);
    case Skip(_) => assert false;
    case Found(n, from, to) =>
      AppendsAttribute(s[to + 1..], k - to - 1, name, value);
      assert s[to + 1..][k - to - 1..] == s[k..] && s[to + 1..][..k - to - 1] == s[to + 1..k];
      AppendsBehind(s, k, u, Attribute(name, value));
  }

  lemma AppendsBehind(s: Bytes, k: nat, u: Bytes, last: Attribute)
    requires NextStep(s).Found? && NextStep(s).to < k <= |s|
    requires Attributes(s[NextStep(s).to + 1..k] + u) == Attributes(s[NextStep(s).to + 1..]) + [last]
    ensures Attributes(s[..k] + u) == Attributes(s) + [last]
  {
    hide NextStep, Attributes, Quoted;
    var r := NextStep(s);
    Behind(s, k, u, r.from, r.to);
    FoundIsLocal(s, s[..k] + u);
    UnfoldFound(s, 0, []);
    UnfoldFound(s[..k] + u, 0, []);
    Regroup([Attribute(r.name, s[r.from..r.to])], Attributes(s[r.to + 1..]), [last]);
  }

  lemma Behind(s: Bytes, k: nat, u: Bytes, from: nat, to: nat)
    requires from <= to < k <= |s|
    ensures (s[..k] + u)[..to + 1] == s[..to + 1] && (s[..k] + u)[to + 1..] == s[to + 1..k] + u
    ensures |s[..k] + u| > to && (s[..k] + u)[from..to] == s[from..to]
  {
  }

  lemma AppendsFirst(s: Bytes, k: nat, name: Bytes, value: Bytes)
    requires NextStep(s).Done? && NameStart(s) == k && k < |s| && EndsTag(s[k]) && IsName(name) && NoQuotes(value)
    ensures Attributes(s[..k] + (Attr(name, value) + s[k..])) == Attributes(s) + [Attribute(name, value)]
  {
    hide Attributes, Attr, NextStep;
    UnfoldDone(s, 0, []);
    ReadsAttr(s[..k], name, value, s[k..]);
    NothingBehind(s[k..]);
  }

  lemma NothingBehind(s: Bytes)
    requires s != [] && EndsTag(s[0])
    ensures Attributes(s) == []
  {
  }

  /** A name matches its own local part, whatever prefix it has, and nothing else. */
  lemma {:induction false} MatchesLocalPart(name: Bytes, local: Bytes)
    ensures LocalMatches(name, local)
            <==> name == local || exists i :: 0 <= i < |name| && name[i] == COLON && COLON !in name[..i] && name[i + 1..] == local
  {
    if HasColon(name) {
      var i := FirstColon(name);
      forall j | 0 <= j < |name| && name[j] == COLON && COLON !in name[..j] ensures j == i {
        assert forall k :: 0 <= k < i ==> name[k] in name[..i];
        assert forall k :: 0 <= k < j ==> name[k] in name[..j];
      }
    } else {
      NoColon(name);
    }
  }

  lemma {:induction false} FirstColon(name: Bytes) returns (i: nat)
    requires HasColon(name)
    ensures i < |name| && name[i] == COLON && COLON !in name[..i] && AfterColon(name) == name[i + 1..]
  {
    if name[0] == COLON {
      i := 0;
    } else {
      var j := FirstColon(name[1..]);
      i := j + 1;
      assert name[..i] == [name[0]] + name[1..][..j];
    }
  }

  lemma {:induction false} NoColon(name: Bytes)
    requires !HasColon(name)
    ensures COLON !in name
  {
    if name != [] {
      NoColon(name[1..]);
      assert name == [name[0]] + name[1..];
    }
  }

  // ---------------------------------------------------------------- text that reads back

  predicate StartsWith(b: Bytes, p: Bytes) {
    |p| <= |b| && b[..|p|] == p
  }

  /** The reference a text starts with: what it stands for, and its length. */
  function Reference(b: Bytes): Option<(Byte, nat)> {
    if StartsWith(b, Text("&#34;")) then Some((QUOTE, 5))
    else if StartsWith(b, Text("&#39;")) then Some((APOSTROPHE, 5))
    else if StartsWith(b, Text("&amp;")) then Some((AMPERSAND, 5))
    else if StartsWith(b, Text("&lt;")) then Some((LT, 4))
    else if StartsWith(b, Text("&gt;")) then Some((GT, 4))
    else if StartsWith(b, Text("&#x9;")) then Some((0x09, 5))
    else if StartsWith(b, Text("&#xA;")) then Some((0x0A, 5))
    else if StartsWith(b, Text("&#xD;")) then Some((0x0D, 5))
    else None
  }

  /** How an XML reader takes the text of an element or the value of an attribute. */
  function Unescape(b: Bytes): Bytes
    decreases |b|
  {
    if b == [] then []
    else
      match Reference(b)
      case Some((value, length)) => [value] + Unescape(b[length..])
      case None => [b[0]] + Unescape(b[1..])
  }

  lemma ReadsReference(p: Bytes, rest: Bytes, value: Byte)
    requires Reference(p + rest) == Some((value, |p|)) && |p| > 0
    ensures Unescape(p + rest) == [value] + Unescape(rest)
  {
    assert (p + rest)[|p|..] == rest;
  }

  lemma {:induction false} ReadsPlain(x: Bytes, rest: Bytes)
    requires forall i :: 0 <= i < |x| ==> x[i] != AMPERSAND
    ensures Unescape(x + rest) == x + Unescape(rest)
    decreases |x|
  {
    hide Reference;
    if x == [] {
      assert x + rest == rest;
    } else {
      ReadsPlain(x[1..], rest);
      ReadsByte(x[0], x[1..] + rest);
      assert x == [x[0]] + x[1..];
      Regroup([x[0]], x[1..], rest);
      Regroup([x[0]], x[1..], Unescape(rest));
    }
  }

  lemma ReadsByte(b: Byte, rest: Bytes)
    requires b != AMPERSAND
    ensures Unescape([b] + rest) == [b] + Unescape(rest)
  {
    NoReference([b] + rest);
    hide Reference;
    assert ([b] + rest)[1..] == rest;
  }

  lemma NoReference(b: Bytes)
    requires b != [] && b[0] != AMPERSAND
    ensures Reference(b) == None
  {
    assert forall p: Bytes :: StartsWith(b, p) && p != [] ==> p[0] == b[..|p|][0] == b[0];
    var s := "&";
    assert Text("&#34;")[0] == Text("&#39;")[0] == Text("&amp;")[0] == Text("&lt;")[0] == Text("&gt;")[0] == AMPERSAND;
    assert Text("&#x9;")[0] == Text("&#xA;")[0] == Text("&#xD;")[0] == AMPERSAND;
  }

  lemma NotAtStart(x: Bytes, p: Bytes, i: nat)
    requires i < |p| && i < |x| && x[i] != p[i]
    ensures !StartsWith(x, p)
  {
    assert |p| <= |x| ==> forall k :: 0 <= k < |p| ==> x[..|p|][k] == x[k];
  }

  lemma QuoteReference(r: U.Rune, b: Bytes, rest: Bytes)
    requires (r == QUOTE || r == APOSTROPHE) && b == EscapeRune(r)
    ensures Reference(b + rest) == Some((r, |b|)) && |b| > 0
  {
    var x := b + rest;
    assert forall i :: 0 <= i < |b| ==> x[i] == b[i];
    StartsSelf(b, rest);
    hide StartsWith;
    if r == QUOTE {
      assert b == Text("&#34;");
    } else if r == APOSTROPHE {
      assert b == Text("&#39;");
      NotAtStart(x, Text("&#34;"), 3);
    }
  }

  lemma NamedReference(r: U.Rune, b: Bytes, rest: Bytes)
    requires (r == AMPERSAND || r == LT || r == GT) && b == EscapeRune(r)
    ensures Reference(b + rest) == Some((r, |b|)) && |b| > 0
  {
    var x := b + rest;
    assert forall i :: 0 <= i < |b| ==> x[i] == b[i];
    StartsSelf(b, rest);
    hide StartsWith;
    if r == AMPERSAND {
      assert b == Text("&amp;");
      NotAtStart(x, Text("&#34;"), 1);
      NotAtStart(x, Text("&#39;"), 1);
    } else if r == LT {
      assert b == Text("&lt;");
      NotAtStart(x, Text("&#34;"), 1);
      NotAtStart(x, Text("&#39;"), 1);
      NotAtStart(x, Text("&amp;"), 1);
    } else if r == GT {
      assert b == Text("&gt;");
      NotAtStart(x, Text("&#34;"), 1);
      NotAtStart(x, Text("&#39;"), 1);
      NotAtStart(x, Text("&amp;"), 1);
      NotAtStart(x, Text("&lt;"), 1);
    }
  }

  lemma TabReference(r: U.Rune, b: Bytes, rest: Bytes)
    requires (r == 0x09) && b == EscapeRune(r)
    ensures Reference(b + rest) == Some((r, |b|)) && |b| > 0
  {
    var x := b + rest;
    assert forall i :: 0 <= i < |b| ==> x[i] == b[i];
    StartsSelf(b, rest);
    hide StartsWith;
    if r == 0x09 {
      assert b == Text("&#x9;");
      NotAtStart(x, Text("&#34;"), 2);
      NotAtStart(x, Text("&#39;"), 2);
      NotAtStart(x, Text("&amp;"), 1);
      NotAtStart(x, Text("&lt;"), 1);
      NotAtStart(x, Text("&gt;"), 1);
    }
  }

  lemma LineReference(r: U.Rune, b: Bytes, rest: Bytes)
    requires (r == 0x0A || r == 0x0D) && b == EscapeRune(r)
    ensures Reference(b + rest) == Some((r, |b|)) && |b| > 0
  {
    var x := b + rest;
    assert forall i :: 0 <= i < |b| ==> x[i] == b[i];
    StartsSelf(b, rest);
    hide StartsWith;
    if r == 0x0A {
      assert b == Text("&#xA;");
      NotAtStart(x, Text("&#34;"), 2);
      NotAtStart(x, Text("&#39;"), 2);
      NotAtStart(x, Text("&amp;"), 1);
      NotAtStart(x, Text("&lt;"), 1);
      NotAtStart(x, Text("&gt;"), 1);
      NotAtStart(x, Text("&#x9;"), 3);
    } else if r == 0x0D {
      assert b == Text("&#xD;");
      NotAtStart(x, Text("&#34;"), 2);
      NotAtStart(x, Text("&#39;"), 2);
      NotAtStart(x, Text("&amp;"), 1);
      NotAtStart(x, Text("&lt;"), 1);
      NotAtStart(x, Text("&gt;"), 1);
      NotAtStart(x, Text("&#x9;"), 3);
      NotAtStart(x, Text("&#xA;"), 3);
    }
  }

  /** A special code point is written as the reference that stands for it. */
  lemma SpecialRune(r: U.Rune, rest: Bytes)
    requires r == QUOTE || r == APOSTROPHE || r == AMPERSAND || r == LT || r == GT || r == 0x09 || r == 0x0A || r == 0x0D
    ensures Reference(EscapeRune(r) + rest) == Some((r, |EscapeRune(r)|)) && |EscapeRune(r)| > 0 && U.EncodeRune(r) == [r]
  {
    hide Reference, EscapeRune;
    var b := EscapeRune(r);
    if r == QUOTE || r == APOSTROPHE { QuoteReference(r, b, rest); }
    else if r == AMPERSAND || r == LT || r == GT { NamedReference(r, b, rest); }
    else if r == 0x09 { TabReference(r, b, rest); }
    else { LineReference(r, b, rest); }
  }

  lemma StartsSelf(b: Bytes, rest: Bytes)
    ensures StartsWith(b + rest, b)
  {
  }

  lemma UnescapesRune(r: U.Rune, rest: Bytes)
    requires IsXMLChar(r)
    ensures Unescape(EscapeRune(r) + rest) == U.EncodeRune(r) + Unescape(rest)
  {
    if r == QUOTE || r == APOSTROPHE || r == AMPERSAND || r == LT || r == GT || r == 0x09 || r == 0x0A || r == 0x0D {
      SpecialRune(r, rest);
      hide Reference, EscapeRune;
      ReadsReference(EscapeRune(r), rest, r);
    } else {
      PlainBytes(r);
      hide Reference;
      ReadsPlain(U.EncodeRune(r), rest);
    }
  }

  lemma PlainBytes(r: U.Rune)
    requires r != AMPERSAND
    ensures forall i :: 0 <= i < |U.EncodeRune(r)| ==> U.EncodeRune(r)[i] != AMPERSAND
  {
    var b := U.EncodeRune(r);
    assert r >= 0x80 ==> b[0] >= 0x80;
  }

  lemma {:induction false} UnescapesAll(t: seq<U.Rune>)
    requires forall i :: 0 <= i < |t| ==> IsXMLChar(t[i])
    ensures Unescape(EscapeAll(t)) == U.Encode(t)
  {
    if t != [] {
      hide Reference, EscapeRune, U.EncodeRune;
      UnescapesRune(t[0], EscapeAll(t[1..]));
      UnescapesAll(t[1..]);
    }
  }

  /** A title, an author or a sort key reads back as what was set, if XML can hold it. */
  lemma EscapeReadsBack(t: seq<U.Rune>)
    requires forall i :: 0 <= i < |t| ==> IsXMLChar(t[i])
    ensures Unescape(Escape(U.Encode(t))) == U.Encode(t)
  {
    U.DecodeEncode(t);
    UnescapesAll(t);
  }

  /** Escaped text holds no markup. */
  lemma {:induction false} EscapeHasNoMarkup(t: seq<U.Rune>)
    ensures forall i :: 0 <= i < |EscapeAll(t)| ==> EscapeAll(t)[i] != LT && EscapeAll(t)[i] != GT
  {
    if t != [] {
      EscapedRuneIsText(t[0]);
      hide EscapeRune;
      EscapeHasNoMarkup(t[1..]);
    }
  }

  lemma EscapedRuneIsText(r: U.Rune)
    ensures forall i :: 0 <= i < |EscapeRune(r)| ==> EscapeRune(r)[i] != LT && EscapeRune(r)[i] != GT
  {
    var b := U.EncodeRune(r);
    assert r >= 0x80 ==> b[0] >= 0x80;
    assert forall i :: 0 <= i < |b| ==> i == 0 || b[i] >= 0x80;
  }

  predicate IsPlain(b: Byte) {
    0x20 <= b < 0x80 && b !in {QUOTE, APOSTROPHE, AMPERSAND, LT, GT}
  }

  /** Plain ASCII text is written as it is. */
  lemma PlainStays(v: Bytes)
    requires forall i :: 0 <= i < |v| ==> IsPlain(v[i])
    ensures Escape(v) == v
  {
    EncodesPlain(v);
    U.DecodeEncode(v);
    EscapesPlain(v);
  }

  lemma {:induction false} EncodesPlain(v: Bytes)
    requires forall i :: 0 <= i < |v| ==> IsPlain(v[i])
    ensures U.Encode(v) == v
  {
    if v != [] {
      EncodesPlain(v[1..]);
      assert v == [v[0]] + v[1..];
    }
  }

  lemma {:induction false} EscapesPlain(v: Bytes)
    requires forall i :: 0 <= i < |v| ==> IsPlain(v[i])
    ensures EscapeAll(v) == v
  {
    if v != [] {
      EscapesPlain(v[1..]);
      assert v == [v[0]] + v[1..];
    }
  }
}
