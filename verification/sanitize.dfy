/** The chapter sanitizer of internal/epub/sanitize.go. */
module Sanitizing {

  // Two mutually recursive walkers, one for HTML and one for SVG, that drop, unwrap and clean
  // elements.  Promoted children re-enter the loop.  A node's children are a sequence here; the
  // loop's `next` pointer is the rest of that sequence.

  import opened Basics
  import opened Utf8
  import C = Collapsing

  const MAX_DEPTH := 500

  datatype Attr = Attr(key: string, value: string)

  /** `ns` is empty for HTML; doctypes count as comments.  An atom is looked up by the exact element
      name, so the name stands for both `Data` and `DataAtom`. */
  datatype Node =
    | Element(ns: string, name: string, attrs: seq<Attr>, kids: seq<Node>)
    | Text(data: string)
    | Comment(data: string)

  datatype Document = Document(kids: seq<Node>)

  function Size(n: Node): (size: nat)
    ensures size >= 1
    decreases n
  {
    match n
    case Element(_, _, _, kids) => 1 + SizeAll(kids)
    case _ => 1
  }

  function SizeAll(kids: seq<Node>): nat
    decreases kids
  {
    if kids == [] then 0 else Size(kids[0]) + SizeAll(kids[1..])
  }

  function Kids(n: Node): seq<Node> {
    if n.Element? then n.kids else []
  }

  function WithKids(n: Node, kids: seq<Node>): Node {
    if n.Element? then n.(kids := kids) else n
  }

  // ---------------------------------------------------------------- strings

  /** `unicode.ToLower` as far as ASCII names are concerned: besides A to Z, two code points have an
      ASCII lower case, and every other one stays outside ASCII. */
  function LowerChar(c: char): char {
    if 'A' <= c <= 'Z' then (c as int + 32) as char
    else if c == '\U{0130}' then 'i'
    else if c == '\U{212A}' then 'k'
    else c
  }

  function Lower(s: string): string {
    if s == "" then "" else [LowerChar(s[0])] + Lower(s[1..])
  }

  function AsciiLowerChar(c: char): char {
    if 'A' <= c <= 'Z' then (c as int + 32) as char else c
  }

  function AsciiLower(s: string): string {
    if s == "" then "" else [AsciiLowerChar(s[0])] + AsciiLower(s[1..])
  }

  /** `strings.EqualFold` against a lower-case ASCII name without `k` and `s`, whose letters have no
      other case forms. */
  predicate EqualFold(s: string, name: string) {
    AsciiLower(s) == name
  }

  predicate HasPrefix(s: string, prefix: string) {
    prefix == "" || (s != "" && s[0] == prefix[0] && HasPrefix(s[1..], prefix[1..]))
  }

  function Runes(s: string): seq<Rune> {
    if s == "" then [] else [s[0] as int] + Runes(s[1..])
  }

  predicate HasToken(value: string, token: string) {
    Runes(token) in C.Fields(Runes(Lower(value)))
  }

  // ---------------------------------------------------------------- the element policy

  const STRIP_ENTIRELY := {"script", "noscript", "base"}
  const STRIP_ELEMENT := {"iframe", "object", "embed", "applet", "form", "input", "textarea", "select", "button"}
  const URL_ANIMATIONS := {"animate", "set", "animatetransform", "animatemotion"}

  /** A link is kept only if its first `rel` names a style sheet. */
  predicate NoStylesheet(attrs: seq<Attr>) {
    if attrs == [] then true
    else if EqualFold(attrs[0].key, "rel") then !HasToken(attrs[0].value, "stylesheet")
    else NoStylesheet(attrs[1..])
  }

  predicate HasHttpEquiv(attrs: seq<Attr>) {
    attrs != [] && (EqualFold(attrs[0].key, "http-equiv") || HasHttpEquiv(attrs[1..]))
  }

  predicate TargetsUrl(attrs: seq<Attr>) {
    && attrs != []
    && (|| (EqualFold(attrs[0].key, "attributename")
            && C.TrimSpace(Runes(Lower(attrs[0].value))) in {Runes("href"), Runes("xlink:href")})
        || TargetsUrl(attrs[1..]))
  }

  datatype Verdict = Keep | Drop | Unwrap

  /** `stripDisallowedElement`. */
  function Judge(name: string, attrs: seq<Attr>): Verdict {
    if name in STRIP_ENTIRELY then Drop
    else if name == "link" && NoStylesheet(attrs) then Drop
    else if name in STRIP_ELEMENT then Unwrap
    else if name == "meta" && HasHttpEquiv(attrs) then Drop
    else Keep
  }

  /** The SVG walker drops scripts, foreign objects and URL animations before the shared policy. */
  function JudgeSvg(name: string, attrs: seq<Attr>): Verdict {
    if Lower(name) in {"script", "foreignobject"} then Drop
    else if Lower(name) in URL_ANIMATIONS && TargetsUrl(attrs) then Drop
    else Judge(name, attrs)
  }

  // ---------------------------------------------------------------- the attribute policy

  const URI_KEYS := {"href", "src", "action", "xlink:href"}

  const DANGEROUS_PREFIXES := [
    "javascript:", "vbscript:", "data:text/html", "data:application/xhtml+xml", "data:application/xml",
    "data:text/javascript", "data:application/javascript"]

  /** Controls, spaces and everything outside ASCII. */
  predicate Ignored(c: char) {
    c <= ' ' || c >= '\U{007F}'
  }

  /** `normalizeURIForSafetyCheck`, the slow path. */
  function NormalizeUri(value: string): string {
    if value == "" then ""
    else (if Ignored(value[0]) then "" else [AsciiLowerChar(value[0])]) + NormalizeUri(value[1..])
  }

  predicate NeedsNormalization(value: string) {
    value != "" && (Ignored(value[0]) || 'A' <= value[0] <= 'Z' || NeedsNormalization(value[1..]))
  }

  lemma {:induction false} NormalFormIsFixed(value: string)
    requires !NeedsNormalization(value)
    ensures NormalizeUri(value) == value
  {
    if value != "" {
      NormalFormIsFixed(value[1..]);
    }
  }

  method NeedsURINormalization(value: string) returns (needed: bool)
    ensures needed <==> NeedsNormalization(value)
  {
    for i := 0 to |value|
      invariant NeedsNormalization(value) == NeedsNormalization(value[i..])
    {
      assert value[i..][1..] == value[i + 1..];
      if Ignored(value[i]) || 'A' <= value[i] <= 'Z' {
        return true;
      }
    }
    return false;
  }

  /** `normalizeURIForSafetyCheck`, whose fast path returns the value itself. */
  method NormalizeURIForSafetyCheck(value: string) returns (r: string)
    ensures r == NormalizeUri(value)
  {
    hide NeedsNormalization;
    var needed := NeedsURINormalization(value);
    if !needed {
      NormalFormIsFixed(value);
      return value;
    }
    r := "";
    for i := 0 to |value|
      invariant NormalizeUri(value) == r + NormalizeUri(value[i..])
    {
      assert value[i..][1..] == value[i + 1..];
      if Ignored(value[i]) {
        continue;
      }
      r := r + [AsciiLowerChar(value[i])];
    }
  }

  predicate Dangerous(value: string) {
    exists i :: 0 <= i < |DANGEROUS_PREFIXES| && HasPrefix(NormalizeUri(value), DANGEROUS_PREFIXES[i])
  }

  predicate BadAttr(a: Attr) {
    HasPrefix(Lower(a.key), "on") || (Lower(a.key) in URI_KEYS && Dangerous(a.value))
  }

  function CleanAttrs(attrs: seq<Attr>): seq<Attr> {
    if attrs == [] then []
    else if BadAttr(attrs[0]) then CleanAttrs(attrs[1..])
    else [attrs[0]] + CleanAttrs(attrs[1..])
  }

  predicate CleanAll(attrs: seq<Attr>) {
    attrs == [] || (!BadAttr(attrs[0]) && CleanAll(attrs[1..]))
  }

  function Clean(n: Node): (r: Node)
    requires n.Element?
    ensures r.Element? && Size(r) == Size(n)
  {
    Element(n.ns, n.name, CleanAttrs(n.attrs), n.kids)
  }

  method IsDangerous(value: string) returns (dangerous: bool)
    ensures dangerous <==> Dangerous(value)
  {
    hide HasPrefix;
    var val := NormalizeURIForSafetyCheck(value);
    for k := 0 to |DANGEROUS_PREFIXES|
      invariant forall j :: 0 <= j < k ==> !HasPrefix(val, DANGEROUS_PREFIXES[j])
    {
      if HasPrefix(val, DANGEROUS_PREFIXES[k]) {
        return true;
      }
    }
    return false;
  }

  /** `sanitizeAttributes`. */
  method SanitizeAttributes(attrs: seq<Attr>) returns (clean: seq<Attr>)
    ensures clean == CleanAttrs(attrs)
  {
    hide HasPrefix, Dangerous, Lower;
    clean := [];
    for i := 0 to |attrs|
      invariant CleanAttrs(attrs) == clean + CleanAttrs(attrs[i..])
    {
      var a := attrs[i];
      assert attrs[i..][1..] == attrs[i + 1..];
      var key := Lower(a.key);
      if HasPrefix(key, "on") {
        continue;
      }
      if key in URI_KEYS {
        var dangerous := IsDangerous(a.value);
        if dangerous {
          continue;
        }
      }
      clean := clean + [a];
    }
  }

  // ---------------------------------------------------------------- the two walkers

  /** `sanitizeNode` applied to a node; its own attributes are the caller's business. */
  function HtmlNode(n: Node, depth: nat): Node
    decreases Size(n), 0
  {
    if depth > MAX_DEPTH then WithKids(n, []) else WithKids(n, HtmlKids(Kids(n), depth))
  }

  /** The HTML walker's loop over the children still to do. */
  function HtmlKids(todo: seq<Node>, depth: nat): seq<Node>
    decreases SizeAll(todo), 1
  {
    if todo == [] then []
    else
      var c, rest := todo[0], todo[1..];
      if !c.Element? then [HtmlNode(c, depth + 1)] + HtmlKids(rest, depth)
      else
        match Judge(c.name, c.attrs)
        case Drop => HtmlKids(rest, depth)
        case Unwrap => UnwrapShrinks(c, rest); HtmlKids(c.kids + rest, depth)
        case Keep =>
          [if c.name == "svg" then SvgNode(c, depth + 1) else HtmlNode(Clean(c), depth + 1)] + HtmlKids(rest, depth)
  }

  /** `sanitizeSVG`: cleans its own attributes first. */
  function SvgNode(n: Node, depth: nat): Node
    requires n.Element?
    decreases Size(n), 0
  {
    Element(n.ns, n.name, CleanAttrs(n.attrs), if depth > MAX_DEPTH then [] else SvgKids(n.kids, depth))
  }

  function SvgKids(todo: seq<Node>, depth: nat): seq<Node>
    decreases SizeAll(todo), 1
  {
    if todo == [] then []
    else
      var c, rest := todo[0], todo[1..];
      if !c.Element? then [c] + SvgKids(rest, depth)
      else
        match JudgeSvg(c.name, c.attrs)
        case Drop => SvgKids(rest, depth)
        case Unwrap => UnwrapShrinks(c, rest); SvgKids(c.kids + rest, depth)
        case Keep =>
          [if c.ns == "" then HtmlNode(Clean(c), depth + 1) else SvgNode(c, depth + 1)] + SvgKids(rest, depth)
  }

  lemma {:induction false} SizeConcat(a: seq<Node>, b: seq<Node>)
    ensures SizeAll(a + b) == SizeAll(a) + SizeAll(b)
    decreases |a|
  {
    if a == [] {
      assert a + b == b;
    } else {
      assert (a + b)[1..] == a[1..] + b;
      SizeConcat(a[1..], b);
    }
  }

  lemma SizeCons(c: Node, rest: seq<Node>)
    ensures SizeAll([c] + rest) == Size(c) + SizeAll(rest)
  {
    assert ([c] + rest)[1..] == rest;
  }

  lemma UnwrapShrinks(c: Node, rest: seq<Node>)
    requires c.Element?
    ensures SizeAll(c.kids + rest) < Size(c) + SizeAll(rest)
  {
    SizeConcat(c.kids, rest);
  }

  function Sanitize(doc: Document): Document {
    Document(HtmlKids(doc.kids, 0))
  }

  /** What a walker makes of one child it does not unwrap. */
  function HtmlChild(c: Node, depth: nat): seq<Node> {
    if !c.Element? then [c]
    else if Judge(c.name, c.attrs) == Drop then []
    else [if c.name == "svg" then SvgNode(c, depth + 1) else HtmlNode(Clean(c), depth + 1)]
  }

  function SvgChild(c: Node, depth: nat): seq<Node> {
    if !c.Element? then [c]
    else if JudgeSvg(c.name, c.attrs) == Drop then []
    else [if c.ns == "" then HtmlNode(Clean(c), depth + 1) else SvgNode(c, depth + 1)]
  }

  lemma HtmlCons(c: Node, rest: seq<Node>, depth: nat)
    ensures HtmlKids([], depth) == []
    ensures HtmlKids([c] + rest, depth)
         == if c.Element? && Judge(c.name, c.attrs) == Unwrap then HtmlKids(c.kids + rest, depth)
            else HtmlChild(c, depth) + HtmlKids(rest, depth)
  {
    assert ([c] + rest)[1..] == rest;
  }

  lemma SvgCons(c: Node, rest: seq<Node>, depth: nat)
    ensures SvgKids([], depth) == []
    ensures SvgKids([c] + rest, depth)
         == if c.Element? && JudgeSvg(c.name, c.attrs) == Unwrap then SvgKids(c.kids + rest, depth)
            else SvgChild(c, depth) + SvgKids(rest, depth)
  {
    assert ([c] + rest)[1..] == rest;
  }

  // ---------------------------------------------------------------- the loops

  /** `sanitizeNode` on the children of a node at `depth`. */
  method SanitizeNode(kids: seq<Node>, depth: nat) returns (done: seq<Node>)
    ensures done == if depth > MAX_DEPTH then [] else HtmlKids(kids, depth)
    decreases SizeAll(kids), 3
  {
    hide Judge, HtmlKids, SvgNode, HtmlNode, Clean, Size, SizeAll;
    if depth > MAX_DEPTH {
      return [];
    }
    var todo := kids;
    done := [];
    while todo != []
      invariant HtmlKids(kids, depth) == done + HtmlKids(todo, depth) && SizeAll(todo) <= SizeAll(kids)
      decreases SizeAll(todo)
    {
      var c, rest := todo[0], todo[1..];
      assert todo == [c] + rest;
      SizeCons(c, rest);
      HtmlCons(c, rest, depth);
      Regroup(done, HtmlChild(c, depth), HtmlKids(rest, depth));
      var verdict := if c.Element? then Judge(c.name, c.attrs) else Keep;
      if verdict == Unwrap {
        UnwrapShrinks(c, rest);
        todo := c.kids + rest;
        continue;
      }
      todo := rest;
      if verdict == Keep {
        var kept := SanitizeHtmlChild(c, depth);
        done := done + [kept];
      }
    }
    HtmlCons(Text(""), [], depth);
  }

  method SanitizeHtmlChild(c: Node, depth: nat) returns (r: Node)
    requires c.Element? ==> Judge(c.name, c.attrs) == Keep
    ensures [r] == HtmlChild(c, depth)
    decreases Size(c), 2
  {
    hide Judge, HtmlKids;
    if !c.Element? {
      return c;
    }
    if c.name == "svg" {
      r := SanitizeSVG(c, depth + 1);
    } else {
      var attrs := SanitizeAttributes(c.attrs);
      var below := SanitizeNode(c.kids, depth + 1);
      r := Element(c.ns, c.name, attrs, below);
    }
  }

  /** `sanitizeSVG`. */
  method SanitizeSVG(n: Node, depth: nat) returns (r: Node)
    requires n.Element?
    ensures r == SvgNode(n, depth)
    decreases Size(n), 1
  {
    var attrs := SanitizeAttributes(n.attrs);
    if depth > MAX_DEPTH {
      return Element(n.ns, n.name, attrs, []);
    }
    var kids := SanitizeSvgKids(n.kids, depth);
    return Element(n.ns, n.name, attrs, kids);
  }

  /** The loop of `sanitizeSVG` over the children. */
  method SanitizeSvgKids(kids: seq<Node>, depth: nat) returns (done: seq<Node>)
    ensures done == SvgKids(kids, depth)
    decreases SizeAll(kids), 3
  {
    hide JudgeSvg, SvgKids, SvgNode, HtmlNode, Clean, Size, SizeAll;
    var todo := kids;
    done := [];
    while todo != []
      invariant SvgKids(kids, depth) == done + SvgKids(todo, depth) && SizeAll(todo) <= SizeAll(kids)
      decreases SizeAll(todo)
    {
      var c, rest := todo[0], todo[1..];
      assert todo == [c] + rest;
      SizeCons(c, rest);
      SvgCons(c, rest, depth);
      Regroup(done, SvgChild(c, depth), SvgKids(rest, depth));
      var verdict := if c.Element? then JudgeSvg(c.name, c.attrs) else Keep;
      if verdict == Unwrap {
        UnwrapShrinks(c, rest);
        todo := c.kids + rest;
        continue;
      }
      todo := rest;
      if verdict == Keep {
        var kept := SanitizeSvgChild(c, depth);
        done := done + [kept];
      }
    }
    SvgCons(Text(""), [], depth);
  }

  method SanitizeSvgChild(c: Node, depth: nat) returns (r: Node)
    requires c.Element? ==> JudgeSvg(c.name, c.attrs) == Keep
    ensures [r] == SvgChild(c, depth)
    decreases Size(c), 2
  {
    hide JudgeSvg, SvgKids, HtmlKids;
    if !c.Element? {
      return c;
    }
    if c.ns == "" {
      var attrs := SanitizeAttributes(c.attrs);
      var below := SanitizeNode(c.kids, depth + 1);
      r := Element(c.ns, c.name, attrs, below);
    } else {
      r := SanitizeSVG(c, depth + 1);
    }
  }

  /** `Sanitize`. */
  method SanitizeDocument(doc: Document) returns (r: Document)
    ensures r == Sanitize(doc)
  {
    var kids := SanitizeNode(doc.kids, 0);
    r := Document(kids);
  }

  // ---------------------------------------------------------------- the policy

  /** What may stand below a node the HTML walker owns, and below one the SVG walker owns. */
  predicate HtmlNodeOk(n: Node, depth: nat)
    decreases n, 0
  {
    n.Element? ==> (if depth > MAX_DEPTH then n.kids == [] else HtmlKidsOk(n.kids, depth))
  }

  predicate HtmlKidsOk(kids: seq<Node>, depth: nat)
    decreases kids, 1
  {
    kids == [] || (HtmlKidOk(kids[0], depth) && HtmlKidsOk(kids[1..], depth))
  }

  predicate HtmlKidOk(c: Node, depth: nat)
    decreases c, 1
  {
    if !c.Element? then HtmlNodeOk(c, depth + 1)
    else
      && Judge(c.name, c.attrs) == Keep && CleanAll(c.attrs)
      && if c.name == "svg" then SvgNodeOk(c, depth + 1) else HtmlNodeOk(c, depth + 1)
  }

  predicate SvgNodeOk(n: Node, depth: nat)
    requires n.Element?
    decreases n, 0
  {
    CleanAll(n.attrs) && if depth > MAX_DEPTH then n.kids == [] else SvgKidsOk(n.kids, depth)
  }

  predicate SvgKidsOk(kids: seq<Node>, depth: nat)
    decreases kids, 1
  {
    kids == [] || (SvgKidOk(kids[0], depth) && SvgKidsOk(kids[1..], depth))
  }

  predicate SvgKidOk(c: Node, depth: nat)
    decreases c, 1
  {
    c.Element? ==>
      && JudgeSvg(c.name, c.attrs) == Keep && CleanAll(c.attrs)
      && if c.ns == "" then HtmlNodeOk(c, depth + 1) else SvgNodeOk(c, depth + 1)
  }

  lemma {:induction false} CleaningCleans(attrs: seq<Attr>)
    ensures CleanAll(CleanAttrs(attrs)) && (CleanAll(attrs) ==> CleanAttrs(attrs) == attrs)
  {
    if attrs != [] {
      CleaningCleans(attrs[1..]);
      assert attrs == [attrs[0]] + attrs[1..];
      if !BadAttr(attrs[0]) {
        assert CleanAttrs(attrs)[1..] == CleanAttrs(attrs[1..]);
      }
    }
  }

  predicate IsAscii(s: string) {
    s == "" || (s[0] as int < 128 && IsAscii(s[1..]))
  }

  lemma {:induction false} AsciiFoldIsLower(key: string, name: string)
    requires IsAscii(name) && EqualFold(key, name)
    ensures Lower(key) == name
  {
    if key != "" {
      assert AsciiLower(key)[1..] == AsciiLower(key[1..]);
      AsciiFoldIsLower(key[1..], name[1..]);
      assert name == [name[0]] + name[1..];
    }
  }

  /** A name the attribute policy would never drop. */
  predicate Harmless(name: string) {
    IsAscii(name) && !HasPrefix(name, "on") && name !in URI_KEYS
  }

  lemma RelIsHarmless()
    ensures Harmless("rel")
  {
    assert "rel"[0] != "src"[0] && "rel"[0] != "on"[0];
  }

  lemma HttpEquivIsHarmless()
    ensures Harmless("http-equiv")
  {
    assert "http-equiv"[0] != "xlink:href"[0] && "http-equiv"[0] != "on"[0];
  }

  lemma AttributeNameIsAscii()
    ensures IsAscii("attributename")
  {
  }

  lemma AttributeNameIsHarmless()
    ensures Harmless("attributename")
  {
    AttributeNameIsAscii();
    hide IsAscii;
    assert "attributename"[0] != "on"[0] && |"attributename"| == 13;
  }

  lemma BadAttrIsNoMarker(a: Attr, name: string)
    requires BadAttr(a) && Harmless(name)
    ensures !EqualFold(a.key, name)
  {
    if EqualFold(a.key, name) {
      AsciiFoldIsLower(a.key, name);
    }
  }

  /** The attributes the element policy looks at are never the ones the attribute policy drops. */
  lemma BadAttrIsUnseen(a: Attr)
    requires BadAttr(a)
    ensures !EqualFold(a.key, "rel") && !EqualFold(a.key, "http-equiv") && !EqualFold(a.key, "attributename")
  {
    hide BadAttr, EqualFold, Harmless;
    RelIsHarmless();
    HttpEquivIsHarmless();
    AttributeNameIsHarmless();
    BadAttrIsNoMarker(a, "rel");
    BadAttrIsNoMarker(a, "http-equiv");
    BadAttrIsNoMarker(a, "attributename");
  }

  lemma {:induction false} CleaningKeepsMarkers(attrs: seq<Attr>)
    ensures NoStylesheet(CleanAttrs(attrs)) == NoStylesheet(attrs)
    ensures HasHttpEquiv(CleanAttrs(attrs)) == HasHttpEquiv(attrs)
    ensures TargetsUrl(CleanAttrs(attrs)) == TargetsUrl(attrs)
  {
    hide BadAttr, EqualFold, HasToken, Runes, Lower, C.TrimSpace;
    if attrs != [] {
      CleaningKeepsMarkers(attrs[1..]);
      if BadAttr(attrs[0]) {
        BadAttrIsUnseen(attrs[0]);
      } else {
        assert CleanAttrs(attrs)[1..] == CleanAttrs(attrs[1..]);
      }
    }
  }

  /** Cleaning an element's attributes does not change what the element policy says about it. */
  lemma CleaningKeepsVerdict(name: string, attrs: seq<Attr>)
    ensures Judge(name, CleanAttrs(attrs)) == Judge(name, attrs)
    ensures JudgeSvg(name, CleanAttrs(attrs)) == JudgeSvg(name, attrs)
  {
    CleaningKeepsMarkers(attrs);
  }

  // ---------------------------------------------------------------- the policy holds

  lemma {:induction false} HtmlNodeIsOk(n: Node, depth: nat)
    ensures HtmlNodeOk(HtmlNode(n, depth), depth)
    decreases Size(n), 0
  {
    if depth <= MAX_DEPTH {
      HtmlKidsAreOk(Kids(n), depth);
    }
  }

  lemma {:induction false} HtmlKidsAreOk(todo: seq<Node>, depth: nat)
    ensures HtmlKidsOk(HtmlKids(todo, depth), depth)
    decreases SizeAll(todo), 1
  {
    if todo != [] {
      var c, rest := todo[0], todo[1..];
      if !c.Element? {
        HtmlNodeIsOk(c, depth + 1);
        HtmlKidsAreOk(rest, depth);
      } else {
        CleaningKeepsVerdict(c.name, c.attrs);
        CleaningCleans(c.attrs);
        match Judge(c.name, c.attrs)
        case Drop => HtmlKidsAreOk(rest, depth);
        case Unwrap => UnwrapShrinks(c, rest); HtmlKidsAreOk(c.kids + rest, depth);
        case Keep =>
          if c.name == "svg" { SvgNodeIsOk(c, depth + 1); } else { HtmlNodeIsOk(Clean(c), depth + 1); }
          HtmlKidsAreOk(rest, depth);
      }
    }
  }

  lemma {:induction false} SvgNodeIsOk(n: Node, depth: nat)
    requires n.Element?
    ensures SvgNodeOk(SvgNode(n, depth), depth)
    decreases Size(n), 0
  {
    CleaningCleans(n.attrs);
    if depth <= MAX_DEPTH {
      SvgKidsAreOk(n.kids, depth);
    }
  }

  lemma {:induction false} SvgKidsAreOk(todo: seq<Node>, depth: nat)
    ensures SvgKidsOk(SvgKids(todo, depth), depth)
    decreases SizeAll(todo), 1
  {
    hide Judge, JudgeSvg, CleanAll;
    if todo != [] {
      var c, rest := todo[0], todo[1..];
      if !c.Element? {
        SvgKidsAreOk(rest, depth);
      } else {
        CleaningKeepsVerdict(c.name, c.attrs);
        CleaningCleans(c.attrs);
        match JudgeSvg(c.name, c.attrs)
        case Drop => SvgKidsAreOk(rest, depth);
        case Unwrap => UnwrapShrinks(c, rest); SvgKidsAreOk(c.kids + rest, depth);
        case Keep =>
          if c.ns == "" { HtmlNodeIsOk(Clean(c), depth + 1); } else { SvgNodeIsOk(c, depth + 1); }
          SvgKidsAreOk(rest, depth);
      }
    }
  }

  // ---------------------------------------------------------------- a clean tree is left alone

  lemma {:induction false} HtmlNodeFixed(n: Node, depth: nat)
    requires HtmlNodeOk(n, depth)
    ensures HtmlNode(n, depth) == n
    decreases n, 0
  {
    if n.Element? && depth <= MAX_DEPTH {
      HtmlKidsFixed(n.kids, depth);
    }
  }

  lemma {:induction false} HtmlKidsFixed(kids: seq<Node>, depth: nat)
    requires HtmlKidsOk(kids, depth)
    ensures HtmlKids(kids, depth) == kids
    decreases kids, 1
  {
    hide JudgeSvg, Judge, SvgKids;
    if kids != [] {
      var c := kids[0];
      assert HtmlKidOk(c, depth);
      if !c.Element? {
        HtmlNodeFixed(c, depth + 1);
      } else {
        CleaningCleans(c.attrs);
        if c.name == "svg" { SvgNodeFixed(c, depth + 1); } else { HtmlNodeFixed(c, depth + 1); }
      }
      HtmlKidsFixed(kids[1..], depth);
      assert kids == [c] + kids[1..];
    }
  }

  lemma {:induction false} SvgNodeFixed(n: Node, depth: nat)
    requires n.Element? && SvgNodeOk(n, depth)
    ensures SvgNode(n, depth) == n
    decreases n, 0
  {
    CleaningCleans(n.attrs);
    if depth <= MAX_DEPTH {
      SvgKidsFixed(n.kids, depth);
    }
  }

  lemma {:induction false} SvgKidsFixed(kids: seq<Node>, depth: nat)
    requires SvgKidsOk(kids, depth)
    ensures SvgKids(kids, depth) == kids
    decreases kids, 1
  {
    hide JudgeSvg, Judge, HtmlKids;
    if kids != [] {
      var c := kids[0];
      assert SvgKidOk(c, depth);
      if c.Element? {
        CleaningCleans(c.attrs);
        if c.ns == "" { HtmlNodeFixed(c, depth + 1); } else { SvgNodeFixed(c, depth + 1); }
      }
      SvgKidsFixed(kids[1..], depth);
      assert kids == [c] + kids[1..];
    }
  }

  /** Sanitizing leaves nothing that breaks the policy of the walker owning it, and a second pass
      changes nothing. */
  lemma SanitizeIsPolicyAndIdempotent(doc: Document)
    ensures HtmlKidsOk(Sanitize(doc).kids, 0) && Sanitize(Sanitize(doc)) == Sanitize(doc)
  {
    HtmlKidsAreOk(doc.kids, 0);
    HtmlKidsFixed(Sanitize(doc).kids, 0);
  }

  /** A document is left alone exactly when it meets the policy. */
  lemma FixedIffPolicy(doc: Document)
    ensures Sanitize(doc) == doc <==> HtmlKidsOk(doc.kids, 0)
  {
    HtmlKidsAreOk(doc.kids, 0);
    if HtmlKidsOk(doc.kids, 0) { HtmlKidsFixed(doc.kids, 0); }
  }

  /** Whichever walker owned it, no element below is one the policy strips, and none carries an event
      handler or a dangerous URI. */
  predicate Inert(n: Node)
    decreases n
  {
    n.Element? ==> Judge(n.name, n.attrs) == Keep && CleanAll(n.attrs) && InertAll(n.kids)
  }

  predicate InertAll(kids: seq<Node>)
    decreases kids
  {
    kids == [] || (Inert(kids[0]) && InertAll(kids[1..]))
  }

  lemma {:induction false} HtmlOkIsInert(kids: seq<Node>, depth: nat)
    requires HtmlKidsOk(kids, depth)
    ensures InertAll(kids)
    decreases kids
  {
    hide Judge, JudgeSvg, CleanAll;
    if kids != [] {
      var c := kids[0];
      assert HtmlKidOk(c, depth);
      if c.Element? {
        assert if c.name == "svg" then SvgNodeOk(c, depth + 1) else HtmlNodeOk(c, depth + 1);
      }
      if c.Element? && depth < MAX_DEPTH {
        if c.name == "svg" { SvgOkIsInert(c.kids, depth + 1); } else { HtmlOkIsInert(c.kids, depth + 1); }
      }
      assert c.Element? && depth >= MAX_DEPTH ==> c.kids == [];
      assert Inert(c);
      HtmlOkIsInert(kids[1..], depth);
    }
  }

  lemma {:induction false} SvgOkIsInert(kids: seq<Node>, depth: nat)
    requires SvgKidsOk(kids, depth)
    ensures InertAll(kids)
    decreases kids
  {
    if kids != [] {
      var c := kids[0];
      assert SvgKidOk(c, depth);
      if c.Element? {
        assert if c.ns == "" then HtmlNodeOk(c, depth + 1) else SvgNodeOk(c, depth + 1);
      }
      if c.Element? && depth < MAX_DEPTH {
        if c.ns == "" { HtmlOkIsInert(c.kids, depth + 1); } else { SvgOkIsInert(c.kids, depth + 1); }
      }
      assert c.Element? && depth >= MAX_DEPTH ==> c.kids == [];
      assert Inert(c);
      SvgOkIsInert(kids[1..], depth);
    }
  }

  /** Nothing active is left anywhere in a sanitized document, promoted children included. */
  lemma NothingActiveRemains(doc: Document)
    ensures InertAll(Sanitize(doc).kids)
  {
    HtmlKidsAreOk(doc.kids, 0);
    HtmlOkIsInert(Sanitize(doc).kids, 0);
  }

  // ---------------------------------------------------------------- what is kept, and in which order

  lemma {:induction false} HtmlKidsConcat(a: seq<Node>, b: seq<Node>, depth: nat)
    ensures HtmlKids(a + b, depth) == HtmlKids(a, depth) + HtmlKids(b, depth)
    decreases SizeAll(a)
  {
    hide Judge, HtmlChild, HtmlKids;
    if a == [] {
      HtmlCons(Text(""), [], depth);
      assert a + b == b;
    } else {
      var c, rest := a[0], a[1..];
      assert a == [c] + rest && a + b == [c] + (rest + b);
      HtmlCons(c, rest, depth);
      HtmlCons(c, rest + b, depth);
      if c.Element? && Judge(c.name, c.attrs) == Unwrap {
        UnwrapShrinks(c, rest);
        HtmlKidsConcat(c.kids + rest, b, depth);
        assert c.kids + (rest + b) == c.kids + rest + b;
      } else {
        HtmlKidsConcat(rest, b, depth);
      }
    }
  }

  lemma {:induction false} SvgKidsConcat(a: seq<Node>, b: seq<Node>, depth: nat)
    ensures SvgKids(a + b, depth) == SvgKids(a, depth) + SvgKids(b, depth)
    decreases SizeAll(a)
  {
    hide JudgeSvg, SvgChild, SvgKids;
    if a == [] {
      SvgCons(Text(""), [], depth);
      assert a + b == b;
    } else {
      var c, rest := a[0], a[1..];
      assert a == [c] + rest && a + b == [c] + (rest + b);
      SvgCons(c, rest, depth);
      SvgCons(c, rest + b, depth);
      if c.Element? && JudgeSvg(c.name, c.attrs) == Unwrap {
        UnwrapShrinks(c, rest);
        SvgKidsConcat(c.kids + rest, b, depth);
        assert c.kids + (rest + b) == c.kids + rest + b;
      } else {
        SvgKidsConcat(rest, b, depth);
      }
    }
  }

  /** An unwrapped element is replaced, in place, by its sanitized children. */
  lemma UnwrapPromotes(before: seq<Node>, c: Node, after: seq<Node>, depth: nat)
    requires c.Element? && Judge(c.name, c.attrs) == Unwrap
    ensures HtmlKids(before + [c] + after, depth)
         == HtmlKids(before, depth) + HtmlKids(c.kids, depth) + HtmlKids(after, depth)
  {
    HtmlKidsConcat(before + [c], after, depth);
    HtmlKidsConcat(before, [c], depth);
    assert [c][1..] == [] && c.kids + [] == c.kids;
  }

  /** All text below a list of nodes, in document order. */
  function TextOf(n: Node): string
    decreases n
  {
    match n
    case Text(data) => data
    case Comment(_) => ""
    case Element(_, _, _, kids) => TextOfAll(kids)
  }

  function TextOfAll(kids: seq<Node>): string
    decreases kids
  {
    if kids == [] then "" else TextOf(kids[0]) + TextOfAll(kids[1..])
  }

  /** The text that survives: that of every node not under a dropped element or past the depth limit. */
  function KeptText(c: Node, depth: nat, svg: bool): string
    decreases c
  {
    match c
    case Text(data) => data
    case Comment(_) => ""
    case Element(ns, name, attrs, kids) =>
      match if svg then JudgeSvg(name, attrs) else Judge(name, attrs)
      case Drop => ""
      case Unwrap => KeptTextAll(kids, depth, svg)
      case Keep =>
        if depth + 1 > MAX_DEPTH then ""
        else KeptTextAll(kids, depth + 1, if svg then ns != "" else name == "svg")
  }

  function KeptTextAll(kids: seq<Node>, depth: nat, svg: bool): string
    decreases kids
  {
    if kids == [] then "" else KeptText(kids[0], depth, svg) + KeptTextAll(kids[1..], depth, svg)
  }

  lemma {:induction false} KeptTextConcat(a: seq<Node>, b: seq<Node>, depth: nat, svg: bool)
    ensures KeptTextAll(a + b, depth, svg) == KeptTextAll(a, depth, svg) + KeptTextAll(b, depth, svg)
    decreases |a|
  {
    if a == [] {
      assert a + b == b;
    } else {
      assert (a + b)[1..] == a[1..] + b;
      KeptTextConcat(a[1..], b, depth, svg);
    }
  }

  /** One child in front of the text of the rest. */
  lemma TextCons(c: Node, rest: seq<Node>)
    ensures TextOfAll([c] + rest) == TextOf(c) + TextOfAll(rest)
  {
    assert ([c] + rest)[1..] == rest;
  }

  lemma {:induction false} HtmlKeepsText(todo: seq<Node>, depth: nat)
    ensures TextOfAll(HtmlKids(todo, depth)) == KeptTextAll(todo, depth, false)
    decreases SizeAll(todo), 1
  {
    if todo != [] {
      var c, rest := todo[0], todo[1..];
      if c.Element? && Judge(c.name, c.attrs) == Unwrap {
        UnwrapShrinks(c, rest);
        HtmlKeepsText(c.kids + rest, depth);
        KeptTextConcat(c.kids, rest, depth, false);
      } else {
        HtmlKeepsText(rest, depth);
        if !(c.Element? && Judge(c.name, c.attrs) == Drop) {
          HtmlChildText(c, depth);
          TextCons(HtmlKids(todo, depth)[0], HtmlKids(rest, depth));
        }
      }
    }
  }

  lemma {:induction false} HtmlChildText(c: Node, depth: nat)
    requires c.Element? ==> Judge(c.name, c.attrs) == Keep
    ensures TextOf(if !c.Element? then HtmlNode(c, depth + 1)
                   else if c.name == "svg" then SvgNode(c, depth + 1) else HtmlNode(Clean(c), depth + 1))
         == KeptText(c, depth, false)
    decreases Size(c), 0
  {
    if c.Element? && depth + 1 <= MAX_DEPTH {
      if c.name == "svg" { SvgKeepsText(c.kids, depth + 1); } else { HtmlKeepsText(c.kids, depth + 1); }
    }
  }

  lemma {:induction false} SvgKeepsText(todo: seq<Node>, depth: nat)
    ensures TextOfAll(SvgKids(todo, depth)) == KeptTextAll(todo, depth, true)
    decreases SizeAll(todo), 1
  {
    if todo != [] {
      var c, rest := todo[0], todo[1..];
      if c.Element? && JudgeSvg(c.name, c.attrs) == Unwrap {
        UnwrapShrinks(c, rest);
        SvgKeepsText(c.kids + rest, depth);
        KeptTextConcat(c.kids, rest, depth, true);
      } else {
        SvgKeepsText(rest, depth);
        if !(c.Element? && JudgeSvg(c.name, c.attrs) == Drop) {
          SvgChildText(c, depth);
          TextCons(SvgKids(todo, depth)[0], SvgKids(rest, depth));
        }
      }
    }
  }

  lemma {:induction false} SvgChildText(c: Node, depth: nat)
    requires c.Element? ==> JudgeSvg(c.name, c.attrs) == Keep
    ensures TextOf(if !c.Element? then c
                   else if c.ns == "" then HtmlNode(Clean(c), depth + 1) else SvgNode(c, depth + 1))
         == KeptText(c, depth, true)
    decreases Size(c), 0
  {
    if c.Element? && depth + 1 <= MAX_DEPTH {
      if c.ns == "" { HtmlKeepsText(c.kids, depth + 1); } else { SvgKeepsText(c.kids, depth + 1); }
    }
  }

  /** Sanitizing keeps exactly the text outside dropped elements, in document order. */
  lemma SanitizeKeepsText(doc: Document)
    ensures TextOfAll(Sanitize(doc).kids) == KeptTextAll(doc.kids, 0, false)
  {
    HtmlKeepsText(doc.kids, 0);
  }

  // ---------------------------------------------------------------- depth

  function Height(n: Node): nat
    decreases n
  {
    if n.Element? then HeightAll(n.kids) else 0
  }

  function HeightAll(kids: seq<Node>): nat
    decreases kids
  {
    if kids == [] then 0
    else
      var first, rest := 1 + Height(kids[0]), HeightAll(kids[1..]);
      if first < rest then rest else first
  }

  lemma {:induction false} HtmlNodeIsShallow(n: Node, depth: nat)
    requires HtmlNodeOk(n, depth) && depth <= MAX_DEPTH + 1
    ensures Height(n) + depth <= MAX_DEPTH + 1
    decreases n, 0
  {
    if n.Element? && depth <= MAX_DEPTH {
      HtmlKidsAreShallow(n.kids, depth);
    }
  }

  lemma {:induction false} HtmlKidsAreShallow(kids: seq<Node>, depth: nat)
    requires HtmlKidsOk(kids, depth) && depth <= MAX_DEPTH
    ensures HeightAll(kids) + depth <= MAX_DEPTH + 1
    decreases kids, 1
  {
    if kids != [] {
      var c := kids[0];
      if c.Element? && c.name == "svg" {
        SvgNodeIsShallow(c, depth + 1);
      } else {
        HtmlNodeIsShallow(c, depth + 1);
      }
      HtmlKidsAreShallow(kids[1..], depth);
    }
  }

  lemma {:induction false} SvgNodeIsShallow(n: Node, depth: nat)
    requires n.Element? && SvgNodeOk(n, depth) && depth <= MAX_DEPTH + 1
    ensures Height(n) + depth <= MAX_DEPTH + 1
    decreases n, 0
  {
    if depth <= MAX_DEPTH {
      SvgKidsAreShallow(n.kids, depth);
    }
  }

  lemma {:induction false} SvgKidsAreShallow(kids: seq<Node>, depth: nat)
    requires SvgKidsOk(kids, depth) && depth <= MAX_DEPTH
    ensures HeightAll(kids) + depth <= MAX_DEPTH + 1
    decreases kids, 1
  {
    if kids != [] {
      var c := kids[0];
      if c.Element? && c.ns != "" {
        SvgNodeIsShallow(c, depth + 1);
      } else if c.Element? {
        HtmlNodeIsShallow(c, depth + 1);
      }
      SvgKidsAreShallow(kids[1..], depth);
    }
  }

  /** No node of a sanitized document lies deeper than the limit plus one. */
  lemma DepthIsBounded(doc: Document)
    ensures HeightAll(Sanitize(doc).kids) <= MAX_DEPTH + 1
  {
    HtmlKidsAreOk(doc.kids, 0);
    HtmlKidsAreShallow(Sanitize(doc).kids, 0);
  }

  // ---------------------------------------------------------------- the policy in plain words

  /** The link's first `rel` lists the word `stylesheet`. */
  ghost predicate IsStylesheet(attrs: seq<Attr>) {
    exists i :: 0 <= i < |attrs| && FirstRel(attrs, i) && HasToken(attrs[i].value, "stylesheet")
  }

  ghost predicate FirstRel(attrs: seq<Attr>, i: nat)
    requires i < |attrs|
  {
    AsciiLower(attrs[i].key) == "rel" && forall j :: 0 <= j < i ==> AsciiLower(attrs[j].key) != "rel"
  }

  lemma {:induction false} StylesheetIsKept(attrs: seq<Attr>)
    ensures NoStylesheet(attrs) <==> !IsStylesheet(attrs)
  {
    hide AsciiLower, HasToken;
    if attrs != [] {
      var rest := attrs[1..];
      StylesheetIsKept(rest);
      if AsciiLower(attrs[0].key) == "rel" {
        assert FirstRel(attrs, 0);
      } else {
        forall i | 0 <= i < |rest| ensures FirstRel(rest, i) <==> FirstRel(attrs, i + 1) {
          assert FirstRel(attrs, i + 1) ==> forall j :: 0 <= j < i ==> rest[j] == attrs[j + 1];
        }
        if IsStylesheet(attrs) {
          var i :| 0 <= i < |attrs| && FirstRel(attrs, i) && HasToken(attrs[i].value, "stylesheet");
          assert FirstRel(rest, i - 1);
        }
      }
    }
  }

  ghost predicate Refreshes(attrs: seq<Attr>) {
    exists i :: 0 <= i < |attrs| && AsciiLower(attrs[i].key) == "http-equiv"
  }

  lemma {:induction false} RefreshIsDropped(attrs: seq<Attr>)
    ensures HasHttpEquiv(attrs) <==> Refreshes(attrs)
  {
    hide AsciiLower;
    if attrs != [] {
      RefreshIsDropped(attrs[1..]);
      if Refreshes(attrs) {
        var i :| 0 <= i < |attrs| && AsciiLower(attrs[i].key) == "http-equiv";
        assert i > 0 ==> AsciiLower(attrs[1..][i - 1].key) == "http-equiv";
      }
    }
  }

  ghost predicate Removed(name: string, attrs: seq<Attr>) {
    || name in {"script", "noscript", "base"}
    || (name == "link" && !IsStylesheet(attrs))
    || (name == "meta" && Refreshes(attrs))
  }

  ghost predicate Unwrapped(name: string) {
    name in {"iframe", "object", "embed", "applet", "form", "input", "textarea", "select", "button"}
  }

  lemma NamesAreApart(name: string)
    ensures Unwrapped(name) ==> name != "link" && name != "meta" && name !in {"script", "noscript", "base"}
  {
  }

  lemma VerdictIs(name: string, attrs: seq<Attr>)
    ensures Judge(name, attrs) == if Removed(name, attrs) then Drop else if Unwrapped(name) then Unwrap else Keep
  {
    StylesheetIsKept(attrs);
    RefreshIsDropped(attrs);
    NamesAreApart(name);
    hide NoStylesheet, HasHttpEquiv, IsStylesheet, Refreshes;
    assert STRIP_ENTIRELY == {"script", "noscript", "base"};
    assert name in STRIP_ELEMENT <==> Unwrapped(name);
    hide Unwrapped, STRIP_ELEMENT, STRIP_ENTIRELY;
  }

  /** The element itself stays, without its harmful attributes, and the walker that owns it now takes
      its children. */
  ghost predicate KeptAs(c: Node, kept: Node, svg: bool, depth: nat)
    requires c.Element?
  {
    && kept.Element? && kept.ns == c.ns && kept.name == c.name && kept.attrs == CleanAttrs(c.attrs)
    && kept.kids == if depth >= 500 then [] else if svg then SvgKids(c.kids, depth + 1) else HtmlKids(c.kids, depth + 1)
  }

  /** What the HTML walker makes of a child: removed with all it holds, replaced by what it holds, or
      kept. */
  lemma ElementFate(before: seq<Node>, c: Node, after: seq<Node>, depth: nat) returns (mid: seq<Node>)
    requires c.Element?
    ensures HtmlKids(before + [c] + after, depth) == HtmlKids(before, depth) + mid + HtmlKids(after, depth)
    ensures if Removed(c.name, c.attrs) then mid == []
            else if Unwrapped(c.name) then mid == HtmlKids(c.kids, depth)
            else |mid| == 1 && KeptAs(c, mid[0], c.name == "svg", depth)
  {
    hide Removed, Unwrapped, Judge, HtmlKids, SvgKids;
    VerdictIs(c.name, c.attrs);
    HtmlKidsConcat(before + [c], after, depth);
    HtmlKidsConcat(before, [c], depth);
    HtmlCons(c, [], depth);
    assert [c] + [] == [c] && c.kids + [] == c.kids && HtmlChild(c, depth) + [] == HtmlChild(c, depth);
    mid := HtmlKids([c], depth);
  }

  /** Scripts and foreign objects in any letter case, and animations of a URL attribute. */
  ghost predicate RemovedFromSvg(name: string, attrs: seq<Attr>) {
    || Lower(name) in {"script", "foreignobject"}
    || (Lower(name) in {"animate", "set", "animatetransform", "animatemotion"} && AnimatesUrl(attrs))
  }

  ghost predicate AnimatesUrl(attrs: seq<Attr>) {
    exists i :: 0 <= i < |attrs| && NamesUrl(attrs[i])
  }

  predicate NamesUrl(a: Attr) {
    && AsciiLower(a.key) == "attributename"
    && C.TrimSpace(Runes(Lower(a.value))) in {Runes("href"), Runes("xlink:href")}
  }

  lemma {:induction false} AnimationIsDropped(attrs: seq<Attr>)
    ensures TargetsUrl(attrs) <==> AnimatesUrl(attrs)
  {
    if attrs != [] {
      AnimationIsDropped(attrs[1..]);
      assert TargetsUrl(attrs) <==> NamesUrl(attrs[0]) || TargetsUrl(attrs[1..]);
      hide TargetsUrl, NamesUrl;
      if AnimatesUrl(attrs) {
        var i :| 0 <= i < |attrs| && NamesUrl(attrs[i]);
        assert i > 0 ==> NamesUrl(attrs[1..][i - 1]);
      }
    }
  }

  lemma SvgVerdictIs(name: string, attrs: seq<Attr>)
    ensures JudgeSvg(name, attrs) == if RemovedFromSvg(name, attrs) then Drop else Judge(name, attrs)
  {
    AnimationIsDropped(attrs);
    hide Judge, Lower, TargetsUrl, AnimatesUrl;
  }

  /** What the SVG walker makes of a child; HTML children go back to the HTML walker. */
  lemma SvgElementFate(before: seq<Node>, c: Node, after: seq<Node>, depth: nat) returns (mid: seq<Node>)
    requires c.Element?
    ensures SvgKids(before + [c] + after, depth) == SvgKids(before, depth) + mid + SvgKids(after, depth)
    ensures if RemovedFromSvg(c.name, c.attrs) || Removed(c.name, c.attrs) then mid == []
            else if Unwrapped(c.name) then mid == SvgKids(c.kids, depth)
            else |mid| == 1 && KeptAs(c, mid[0], c.ns != "", depth)
  {
    hide Removed, RemovedFromSvg, Unwrapped, Judge, JudgeSvg, HtmlKids, SvgKids;
    VerdictIs(c.name, c.attrs);
    SvgVerdictIs(c.name, c.attrs);
    SvgKidsConcat(before + [c], after, depth);
    SvgKidsConcat(before, [c], depth);
    SvgCons(c, [], depth);
    assert [c] + [] == [c] && c.kids + [] == c.kids && SvgChild(c, depth) + [] == SvgChild(c, depth);
    mid := SvgKids([c], depth);
  }

  // ---------------------------------------------------------------- the attribute policy in plain words

  lemma {:induction false} PrefixIsPrefix(s: string, prefix: string)
    ensures HasPrefix(s, prefix) <==> prefix <= s
  {
    if prefix != "" && s != "" && s[0] == prefix[0] {
      PrefixIsPrefix(s[1..], prefix[1..]);
      assert s == [s[0]] + s[1..] && prefix == [prefix[0]] + prefix[1..];
    }
  }

  lemma {:induction false} NormalizeConcat(a: string, b: string)
    ensures NormalizeUri(a + b) == NormalizeUri(a) + NormalizeUri(b)
  {
    hide Ignored, AsciiLowerChar;
    if a == "" {
      assert a + b == b;
    } else {
      assert (a + b)[1..] == a[1..] + b;
      NormalizeConcat(a[1..], b);
    }
  }

  /** Controls, spaces and characters outside ASCII hide nothing from the check, wherever they stand. */
  lemma IgnoredHidesNothing(a: string, c: char, b: string)
    requires c <= ' ' || c >= '\U{007F}'
    ensures NormalizeUri(a + [c] + b) == NormalizeUri(a + b)
  {
    NormalizeConcat(a + [c], b);
    NormalizeConcat(a, [c]);
    NormalizeConcat(a, b);
  }

  /** Neither does the case of the letters. */
  lemma {:induction false} CaseHidesNothing(value: string)
    ensures NormalizeUri(AsciiLower(value)) == NormalizeUri(value)
  {
    if value != "" {
      CaseHidesNothing(value[1..]);
      assert AsciiLower(value)[1..] == AsciiLower(value[1..]);
    }
  }

  const SCRIPT_SCHEMES := {
    "javascript:", "vbscript:", "data:text/html", "data:application/xhtml+xml", "data:application/xml",
    "data:text/javascript", "data:application/javascript"}

  lemma SchemesAreListed(scheme: string)
    ensures scheme in SCRIPT_SCHEMES <==> exists i :: 0 <= i < |DANGEROUS_PREFIXES| && DANGEROUS_PREFIXES[i] == scheme
  {
    assert DANGEROUS_PREFIXES[0] == "javascript:" && DANGEROUS_PREFIXES[1] == "vbscript:";
    assert DANGEROUS_PREFIXES[2] == "data:text/html" && DANGEROUS_PREFIXES[3] == "data:application/xhtml+xml";
    assert DANGEROUS_PREFIXES[4] == "data:application/xml" && DANGEROUS_PREFIXES[5] == "data:text/javascript";
    assert DANGEROUS_PREFIXES[6] == "data:application/javascript" && |DANGEROUS_PREFIXES| == 7;
  }

  /** A value runs script when its normal form starts with one of the schemes. */
  ghost predicate RunsScript(value: string) {
    exists scheme :: scheme in SCRIPT_SCHEMES && scheme <= NormalizeUri(value)
  }

  lemma ScriptIsDangerous(value: string)
    ensures Dangerous(value) <==> RunsScript(value)
  {
    hide SCRIPT_SCHEMES, DANGEROUS_PREFIXES, NormalizeUri;
    forall i | 0 <= i < |DANGEROUS_PREFIXES|
      ensures DANGEROUS_PREFIXES[i] in SCRIPT_SCHEMES
      ensures HasPrefix(NormalizeUri(value), DANGEROUS_PREFIXES[i]) <==> DANGEROUS_PREFIXES[i] <= NormalizeUri(value)
    {
      SchemesAreListed(DANGEROUS_PREFIXES[i]);
      PrefixIsPrefix(NormalizeUri(value), DANGEROUS_PREFIXES[i]);
    }
    if RunsScript(value) {
      var scheme :| scheme in SCRIPT_SCHEMES && scheme <= NormalizeUri(value);
      SchemesAreListed(scheme);
    }
  }

  /** Printable text without capitals is its own normal form. */
  lemma {:induction false} PlainIsNormal(s: string)
    requires forall i :: 0 <= i < |s| ==> ' ' < s[i] < '\U{007F}' && !('A' <= s[i] <= 'Z')
    ensures NormalizeUri(s) == s
  {
    if s != "" {
      PlainIsNormal(s[1..]);
      assert s == [s[0]] + s[1..];
    }
  }

  ghost predicate Harmful(a: Attr) {
    || "on" <= Lower(a.key)
    || (Lower(a.key) in {"href", "src", "action", "xlink:href"} && RunsScript(a.value))
  }

  lemma {:induction false} CleanConcat(a: seq<Attr>, b: seq<Attr>)
    ensures CleanAttrs(a + b) == CleanAttrs(a) + CleanAttrs(b)
  {
    if a == [] {
      assert a + b == b;
    } else {
      assert (a + b)[1..] == a[1..] + b;
      CleanConcat(a[1..], b);
    }
  }

  /** Event handlers and URI attributes that run script are removed; every other attribute stays, in
      its place and unchanged. */
  lemma AttributeFate(before: seq<Attr>, a: Attr, after: seq<Attr>)
    ensures CleanAttrs(before + [a] + after)
         == CleanAttrs(before) + (if Harmful(a) then [] else [a]) + CleanAttrs(after)
  {
    hide Lower;
    CleanConcat(before + [a], after);
    CleanConcat(before, [a]);
    PrefixIsPrefix(Lower(a.key), "on");
    ScriptIsDangerous(a.value);
    hide Dangerous, RunsScript, HasPrefix;
    assert BadAttr(a) <==> Harmful(a);
    assert CleanAttrs([a]) == (if BadAttr(a) then [] else [a]) + CleanAttrs([]);
  }
}
