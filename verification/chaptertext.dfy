/** From a parsed chapter to the text both sides index: `chapterPlainText` of internal/epub/search.go
    sanitizes the tree and extracts its text; the frame indexes the DOM of the same sanitized body. */
module ChapterTexts {

  import S = Sanitizing
  import E = Extraction
  import opened Collapsing
  import opened Utf8
  import opened Wrappers

  function TagOf(name: string): E.Tag {
    if name == "head" then E.Head else if name == "script" then E.Script else if name == "style" then E.Style
    else if name == "noscript" then E.Noscript else if name == "template" then E.Template else if name == "br" then E.Br
    else if name == "address" then E.Address else if name == "article" then E.Article else if name == "aside" then E.Aside
    else if name == "blockquote" then E.Blockquote else if name == "caption" then E.Caption else if name == "dd" then E.Dd
    else if name == "div" then E.Div else if name == "dl" then E.Dl else if name == "dt" then E.Dt
    else if name == "figcaption" then E.Figcaption else if name == "figure" then E.Figure
    else if name == "footer" then E.Footer else if name == "h1" then E.H1 else if name == "h2" then E.H2
    else if name == "h3" then E.H3 else if name == "h4" then E.H4 else if name == "h5" then E.H5
    else if name == "h6" then E.H6 else if name == "header" then E.Header else if name == "hr" then E.Hr
    else if name == "li" then E.Li else if name == "main" then E.MainPart else if name == "nav" then E.Nav
    else if name == "ol" then E.Ol else if name == "p" then E.P else if name == "pre" then E.Pre
    else if name == "section" then E.Section else if name == "table" then E.Table else if name == "tbody" then E.Tbody
    else if name == "td" then E.Td else if name == "tfoot" then E.Tfoot else if name == "th" then E.Th
    else if name == "thead" then E.Thead else if name == "tr" then E.Tr else if name == "ul" then E.Ul
    else E.Named(name)
  }

  /** What the extractors see of a sanitized node: its name, its text and its children. */
  function View(n: S.Node): E.Node
    decreases n
  {
    match n
    case Text(data) => E.Text(S.Runes(data))
    case Comment(_) => E.Other([])
    case Element(ns, name, _, kids) => if ns == "" then E.Html(TagOf(name), ViewAll(kids)) else E.Foreign(name, ViewAll(kids))
  }

  function ViewAll(kids: seq<S.Node>): seq<E.Node>
    decreases kids
  {
    if kids == [] then [] else [View(kids[0])] + ViewAll(kids[1..])
  }

  lemma {:induction false} ViewKeepsShape(kids: seq<S.Node>)
    ensures E.HeightAll(ViewAll(kids)) == S.HeightAll(kids) && E.ChildlessAll(ViewAll(kids))
    decreases kids
  {
    hide TagOf;
    if kids != [] {
      if kids[0].Element? {
        ViewKeepsShape(kids[0].kids);
      }
      ViewKeepsShape(kids[1..]);
      assert ViewAll(kids)[1..] == ViewAll(kids[1..]);
    }
  }

  /** What the parser may leave around the elements of a page: doctypes, comments and white space. */
  predicate Filler(nodes: seq<S.Node>) {
    forall i :: 0 <= i < |nodes| ==> nodes[i].Comment? || (nodes[i].Text? && AllSpace(S.Runes(nodes[i].data)))
  }

  predicate AllSpace(t: seq<Rune>) {
    forall i :: 0 <= i < |t| ==> IsSpace(t[i])
  }

  /** The page around the contents of its head and body: attributes, and the filler in each gap. */
  datatype Frame = Frame(
    before: seq<S.Node>,
    attrs: seq<S.Attr>,
    lead: seq<S.Node>,
    headAttrs: seq<S.Attr>,
    between: seq<S.Node>,
    bodyAttrs: seq<S.Attr>,
    trail: seq<S.Node>,
    after: seq<S.Node>
  )

  predicate FrameOk(f: Frame) {
    Filler(f.before) && Filler(f.lead) && Filler(f.between) && Filler(f.trail) && Filler(f.after)
  }

  function HtmlOf(f: Frame, head: seq<S.Node>, body: seq<S.Node>): S.Node {
    S.Element("", "html", f.attrs,
              f.lead + [S.Element("", "head", f.headAttrs, head)] + f.between + [S.Element("", "body", f.bodyAttrs, body)] + f.trail)
  }

  /** A parsed chapter: one `html` element with a head and a body. */
  function Page(f: Frame, head: seq<S.Node>, body: seq<S.Node>): S.Document {
    S.Document(f.before + [HtmlOf(f, head, body)] + f.after)
  }

  function CleanFrame(f: Frame): Frame {
    f.(attrs := S.CleanAttrs(f.attrs), headAttrs := S.CleanAttrs(f.headAttrs), bodyAttrs := S.CleanAttrs(f.bodyAttrs))
  }

  lemma KeepsElement(name: string, attrs: seq<S.Attr>, kids: seq<S.Node>, depth: nat)
    requires S.Judge(name, attrs) == S.Keep && name != "svg" && depth + 1 <= S.MAX_DEPTH
    ensures S.HtmlChild(S.Element("", name, attrs, kids), depth)
         == [S.Element("", name, S.CleanAttrs(attrs), S.HtmlKids(kids, depth + 1))]
  {
  }

  lemma OneChild(c: S.Node, depth: nat)
    requires c.Element? && S.Judge(c.name, c.attrs) == S.Keep
    ensures S.HtmlKids([c], depth) == S.HtmlChild(c, depth)
  {
    S.HtmlCons(c, [], depth);
    assert [c] == [c] + [];
  }

  lemma FrameIsKept(attrs: seq<S.Attr>)
    ensures S.Judge("html", attrs) == S.Keep && S.Judge("head", attrs) == S.Keep && S.Judge("body", attrs) == S.Keep
  {
    assert "html"[0] != "base"[0] && "html"[0] != "link"[0] && "html"[0] != "form"[0] && "html"[0] != "meta"[0];
    assert "head"[0] != "base"[0] && "head"[0] != "link"[0] && "head"[0] != "form"[0] && "head"[0] != "meta"[0];
    assert "body"[1] != "base"[1] && "body"[0] != "link"[0] && "body"[0] != "form"[0] && "body"[0] != "meta"[0];
  }

  lemma {:induction false} FillerIsKept(nodes: seq<S.Node>, depth: nat)
    requires Filler(nodes)
    ensures S.HtmlKids(nodes, depth) == nodes
  {
    hide AllSpace;
    if nodes == [] {
      S.HtmlCons(S.Text(""), [], depth);
    } else {
      assert nodes == [nodes[0]] + nodes[1..];
      S.HtmlCons(nodes[0], nodes[1..], depth);
      FillerIsKept(nodes[1..], depth);
    }
  }

  /** An element between two lists of siblings. */
  lemma KidsAround(a: seq<S.Node>, c: S.Node, b: seq<S.Node>, depth: nat)
    requires c.Element? && S.Judge(c.name, c.attrs) == S.Keep
    ensures S.HtmlKids(a + [c] + b, depth) == S.HtmlKids(a, depth) + S.HtmlChild(c, depth) + S.HtmlKids(b, depth)
  {
    hide S.Judge, S.HtmlKids, S.HtmlChild;
    S.HtmlKidsConcat(a + [c], b, depth);
    S.HtmlKidsConcat(a, [c], depth);
    OneChild(c, depth);
  }

  lemma HtmlStays(f: Frame, head: seq<S.Node>, body: seq<S.Node>)
    requires FrameOk(f)
    ensures S.HtmlChild(HtmlOf(f, head, body), 0)
         == [HtmlOf(CleanFrame(f), S.HtmlKids(head, 2), S.HtmlKids(body, 2))]
  {
    hide S.Judge, S.HtmlKids, S.HtmlChild, S.CleanAttrs, Filler;
    var h, b := S.Element("", "head", f.headAttrs, head), S.Element("", "body", f.bodyAttrs, body);
    FrameIsKept(f.attrs); FrameIsKept(f.headAttrs); FrameIsKept(f.bodyAttrs);
    FillerIsKept(f.lead, 1); FillerIsKept(f.between, 1); FillerIsKept(f.trail, 1);
    KeepsElement("head", f.headAttrs, head, 1);
    KeepsElement("body", f.bodyAttrs, body, 1);
    KidsAround(f.lead, h, f.between, 1);
    KidsAround(f.lead + [h] + f.between, b, f.trail, 1);
    KeepsElement("html", f.attrs, f.lead + [h] + f.between + [b] + f.trail, 0);
  }

  /** Sanitizing keeps the frame of a page and works inside its head and body. */
  lemma PageStaysPage(f: Frame, head: seq<S.Node>, body: seq<S.Node>)
    requires FrameOk(f)
    ensures S.Sanitize(Page(f, head, body)) == Page(CleanFrame(f), S.HtmlKids(head, 2), S.HtmlKids(body, 2))
  {
    hide S.Judge, S.HtmlKids, S.HtmlChild, S.CleanAttrs, Filler, HtmlOf;
    var html := HtmlOf(f, head, body);
    HtmlIsKept(f, head, body);
    FillerIsKept(f.before, 0); FillerIsKept(f.after, 0);
    KidsAround(f.before, html, f.after, 0);
    HtmlStays(f, head, body);
  }

  lemma HtmlIsKept(f: Frame, head: seq<S.Node>, body: seq<S.Node>)
    ensures var html := HtmlOf(f, head, body); html.Element? && S.Judge(html.name, html.attrs) == S.Keep
  {
    FrameIsKept(f.attrs);
  }

  // ---------------------------------------------------------------- the text of a page

  /** The text below a list of nodes, before white space is collapsed. */
  function TextOf(kids: seq<S.Node>): seq<Rune> {
    E.FlattenAll(ViewAll(kids))
  }

  lemma {:induction false} TextConcat(a: seq<S.Node>, b: seq<S.Node>)
    ensures TextOf(a + b) == TextOf(a) + TextOf(b)
  {
    hide View, E.Flatten;
    if a == [] {
      assert a + b == b && ViewAll(a) == [];
      assert [] + TextOf(b) == TextOf(b);
    } else {
      assert (a + b)[1..] == a[1..] + b;
      TextCons(a[0], a[1..]);
      TextCons(a[0], a[1..] + b);
      assert a == [a[0]] + a[1..] && a + b == [a[0]] + (a[1..] + b);
      TextConcat(a[1..], b);
    }
  }

  lemma TextCons(n: S.Node, rest: seq<S.Node>)
    ensures TextOf([n] + rest) == E.Flatten(View(n)) + TextOf(rest)
  {
    assert ([n] + rest)[1..] == rest;
    assert ViewAll([n] + rest)[1..] == ViewAll(rest);
  }

  lemma {:induction false} FillerIsBlank(nodes: seq<S.Node>)
    requires Filler(nodes)
    ensures AllSpace(TextOf(nodes))
  {
    if nodes != [] {
      TextCons(nodes[0], nodes[1..]);
      assert nodes == [nodes[0]] + nodes[1..];
      FillerIsBlank(nodes[1..]);
      FillerNode(nodes[0]);
    }
  }

  lemma FillerNode(n: S.Node)
    requires n.Comment? || (n.Text? && AllSpace(S.Runes(n.data)))
    ensures AllSpace(E.Flatten(View(n)))
  {
  }

  /** A body between blank text. */
  lemma TextAround(a: seq<S.Node>, n: S.Node, b: seq<S.Node>)
    ensures TextOf(a + [n] + b) == TextOf(a) + E.Flatten(View(n)) + TextOf(b)
  {
    hide TextOf, View, E.Flatten;
    TextConcat(a + [n], b);
    TextConcat(a, [n]);
    TextCons(n, []);
    assert [n] + [] == [n] && TextOf([]) == [] by { NoText(); }
    assert E.Flatten(View(n)) + [] == E.Flatten(View(n));
  }

  lemma NoText()
    ensures TextOf([]) == []
  {
  }

  lemma HeadIsSilent(attrs: seq<S.Attr>, kids: seq<S.Node>)
    ensures E.Flatten(View(S.Element("", "head", attrs, kids))) == []
  {
    FrameTags();
  }

  lemma PlainElement(name: string, attrs: seq<S.Attr>, kids: seq<S.Node>)
    requires name == "html" || name == "body"
    ensures E.Flatten(View(S.Element("", name, attrs, kids))) == TextOf(kids)
  {
    FrameTags();
    hide TagOf;
    E.FlattenPlain(name, ViewAll(kids));
  }

  lemma HtmlText(f: Frame, head: seq<S.Node>, body: seq<S.Node>)
    ensures E.Flatten(View(HtmlOf(f, head, body))) == TextOf(f.lead) + TextOf(f.between) + TextOf(body) + TextOf(f.trail)
  {
    hide TextOf, View, E.Flatten;
    var h, b := S.Element("", "head", f.headAttrs, head), S.Element("", "body", f.bodyAttrs, body);
    PlainElement("html", f.attrs, f.lead + [h] + f.between + [b] + f.trail);
    PlainElement("body", f.bodyAttrs, body);
    HeadIsSilent(f.headAttrs, head);
    TextAround(f.lead + [h] + f.between, b, f.trail);
    TextAround(f.lead, h, f.between);
    assert TextOf(f.lead) + [] == TextOf(f.lead);
  }

  /** The text of a page is that of its body between white space. */
  lemma PageText(f: Frame, head: seq<S.Node>, body: seq<S.Node>)
    requires FrameOk(f)
    ensures Collapse(TextOf(Page(f, head, body).kids)) == Collapse(TextOf(body))
  {
    hide TextOf, View, E.Flatten, HtmlOf, Collapse, Filler;
    TextAround(f.before, HtmlOf(f, head, body), f.after);
    HtmlText(f, head, body);
    FillerIsBlank(f.before); FillerIsBlank(f.lead); FillerIsBlank(f.between); FillerIsBlank(f.trail); FillerIsBlank(f.after);
    var front, back := TextOf(f.before) + TextOf(f.lead) + TextOf(f.between), TextOf(f.trail) + TextOf(f.after);
    assert TextOf(Page(f, head, body).kids) == front + TextOf(body) + back;
    BlankEnds(front, TextOf(body), back);
  }

  /** The two extractors agree on every chapter the sanitizer lets through, whatever it was before. */
  lemma SanitizedTextsAgree(f: Frame, head: seq<S.Node>, body: seq<S.Node>)
    requires FrameOk(f)
    ensures var clean := S.Sanitize(Page(f, head, body));
            var served := ViewAll(S.HtmlKids(body, 2));
            E.GoText(E.Other(ViewAll(clean.kids))) == E.TsText(E.Content(served), None)
  {
    hide E.GoText, E.TsText, E.Flatten, E.FlattenAll, E.Height, E.HeightAll, S.HtmlKids, Collapse, Page;
    var page := Page(f, head, body);
    var clean := S.Sanitize(page);
    var kept := S.HtmlKids(body, 2);
    PageStaysPage(f, head, body);
    S.DepthIsBounded(page);
    ViewKeepsShape(clean.kids);
    RootHeight(ViewAll(clean.kids));
    E.GoTextCollapses(E.Other(ViewAll(clean.kids)));
    PageText(CleanFrame(f), S.HtmlKids(head, 2), kept);
    RootText(clean.kids);
    S.HtmlKidsAreOk(body, 2);
    S.HtmlKidsAreShallow(kept, 2);
    ViewKeepsShape(kept);
    BareHeight(ViewAll(kept));
    E.ExtractorsAgree([], ViewAll(kept));
  }

  lemma RootHeight(kids: seq<E.Node>)
    ensures E.Height(E.Other(kids)) == E.HeightAll(kids)
  {
  }

  lemma RootText(kids: seq<S.Node>)
    ensures E.Flatten(E.Other(ViewAll(kids))) == TextOf(kids)
  {
  }

  lemma HeightOne(n: E.Node)
    ensures E.HeightAll([n]) == 1 + E.Height(n)
  {
    hide E.Height;
    assert [n][1..] == [];
  }

  lemma HeightTwo(m: E.Node, n: E.Node)
    ensures E.HeightAll([m, n]) == if E.Height(m) < E.Height(n) then 1 + E.Height(n) else 1 + E.Height(m)
  {
    hide E.Height;
    assert [m, n][1..] == [n];
    HeightOne(n);
  }

  lemma ElementHeight(tag: E.Tag, kids: seq<E.Node>)
    ensures E.Height(E.Html(tag, kids)) == E.HeightAll(kids)
  {
    hide E.HeightAll;
  }

  lemma BareHeight(body: seq<E.Node>)
    ensures E.Height(E.Document([], body)) == 2 + E.HeightAll(body)
  {
    hide E.Height, E.HeightAll;
    var h, b := E.Html(E.Head, []), E.Html(E.Named("body"), body);
    ElementHeight(E.Head, []);
    ElementHeight(E.Named("body"), body);
    ElementHeight(E.Named("html"), [h, b]);
    HeightTwo(h, b);
    HeightOne(E.Html(E.Named("html"), [h, b]));
    RootHeight([E.Html(E.Named("html"), [h, b])]);
    NoHeight();
  }

  lemma NoHeight()
    ensures E.HeightAll([]) == 0
  {
  }

  lemma FrameTags()
    ensures TagOf("head") == E.Head && TagOf("html") == E.Named("html") && TagOf("body") == E.Named("body")
  {
  }
}
