/** Editing one attribute of a start tag in place: `replaceAttrValue` of internal/epub/edit.go.
    The bytes of a tag are read as sections 2.4 and 3.1 of XML 1.0 lay them out; names match by their
    local part. */
module TagAttributes {

  import opened ByteStrings
  import U = Utf8
  import opened Wrappers

  const LT: Byte := 0x3C
  const GT: Byte := 0x3E
  const SLASH: Byte := 0x2F
  const EQUALS: Byte := 0x3D
  const COLON: Byte := 0x3A
  const QUOTE: Byte := 0x22
  const APOSTROPHE: Byte := 0x27
  const AMPERSAND: Byte := 0x26

  predicate IsXMLSpace(b: Byte) {
    b == 0x20 || b == 0x09 || b == 0x0A || b == 0x0D
  }

  predicate EndsTag(b: Byte) {
    b == GT || b == SLASH
  }

  /** A byte of an attribute name, as the scan takes it. */
  predicate InName(b: Byte) {
    b != EQUALS && !IsXMLSpace(b) && !EndsTag(b)
  }

  /** A byte of the element name, with its leading `<`. */
  predicate InTagName(b: Byte) {
    !IsXMLSpace(b) && !EndsTag(b)
  }

  datatype Class = Space | Name | TagName | Not(quote: Byte)

  predicate Is(b: Byte, c: Class) {
    match c
    case Space => IsXMLSpace(b)
    case Name => InName(b)
    case TagName => InTagName(b)
    case Not(quote) => b != quote
  }

  /** The length of the leading run of a class. */
  function Run(s: Bytes, c: Class): (n: nat)
    ensures n <= |s|
    ensures forall i :: 0 <= i < n ==> Is(s[i], c)
    ensures n < |s| ==> !Is(s[n], c)
  {
    if s == [] || !Is(s[0], c) then 0 else 1 + Run(s[1..], c)
  }

  // ---------------------------------------------------------------- one attribute at a time

  /** What the scan finds next: nothing more, a name without a value, or an attribute whose value lies
      between `from` and `to`, followed by its closing quote. */
  datatype Step = Done | Skip(next: nat) | Found(name: Bytes, from: nat, to: nat)

  /** Where the name of the next attribute starts and ends, and where its `=` should be. */
  function NameStart(s: Bytes): (n: nat)
    ensures n <= |s|
  {
    Run(s, Space)
  }

  function NameEnd(s: Bytes): (n: nat)
    ensures NameStart(s) <= n <= |s|
  {
    NameStart(s) + Run(s[NameStart(s)..], Name)
  }

  function EqualsAt(s: Bytes): (n: nat)
    ensures NameEnd(s) <= n <= |s|
  {
    NameEnd(s) + Run(s[NameEnd(s)..], Space)
  }

  /** The value from `from` to `to` stands between two quotes of the same kind and holds none of them. */
  predicate Quoted(s: Bytes, from: nat, to: nat)
    requires 0 < from <= to < |s|
  {
    && (s[from - 1] == QUOTE || s[from - 1] == APOSTROPHE) && s[to] == s[from - 1]
    && Run(s[from..], Not(s[from - 1])) == to - from
  }

  /** The scan after the name and the space behind it. */
  function ValueStep(s: Bytes, at: nat, name: Bytes): (r: Step)
    requires at <= |s|
    ensures r.Skip? ==> r.next == at
    ensures r.Found? ==> r.name == name && at < r.from <= r.to < |s| && Quoted(s, r.from, r.to)
  {
    if at == |s| || s[at] != EQUALS then Skip(at)
    else
      var open := at + 1 + Run(s[at + 1..], Space);
      if open == |s| || (s[open] != QUOTE && s[open] != APOSTROPHE) then Done
      else
        var to := open + 1 + Run(s[open + 1..], Not(s[open]));
        if to == |s| then Done else Found(name, open + 1, to)
  }

  function NextStep(s: Bytes): (r: Step)
    ensures r.Skip? ==> 0 < r.next <= |s|
    ensures r.Found? ==> 0 < r.from <= r.to < |s| && Quoted(s, r.from, r.to)
  {
    if NameStart(s) == |s| || EndsTag(s[NameStart(s)]) then Done
    else ValueStep(s, EqualsAt(s), s[NameStart(s)..NameEnd(s)])
  }

  datatype Attribute = Attribute(name: Bytes, value: Bytes)

  /** The attributes the scan sees, in order. */
  function Attributes(s: Bytes): seq<Attribute>
    decreases |s|
  {
    match NextStep(s)
    case Done => []
    case Skip(next) => Attributes(s[next..])
    case Found(name, from, to) => [Attribute(name, s[from..to])] + Attributes(s[to + 1..])
  }

  /** The text with the value of attribute number `k` replaced. */
  function WithValue(s: Bytes, k: nat, v: Bytes): Bytes
    decreases |s|
  {
    match NextStep(s)
    case Done => s
    case Skip(next) => s[..next] + WithValue(s[next..], k, v)
    case Found(_, from, to) =>
      if k == 0 then s[..from] + v + s[to..] else s[..to + 1] + WithValue(s[to + 1..], k - 1, v)
  }

  // ---------------------------------------------------------------- what the scan looks at

  /** A run depends only on the bytes up to the one that ends it. */
  lemma {:induction false} RunIsLocal(s: Bytes, t: Bytes, c: Class, m: nat)
    requires m <= |s| && m <= |t| && s[..m] == t[..m] && Run(s, c) < m
    ensures Run(t, c) == Run(s, c)
  {
    assert s[..m][0] == t[..m][0];
    if Is(s[0], c) {
      assert s[1..][..m - 1] == s[..m][1..] && t[1..][..m - 1] == t[..m][1..];
      RunIsLocal(s[1..], t[1..], c, m - 1);
    }
  }

  /** The same from an inner position on. */
  lemma RunIsLocalFrom(s: Bytes, t: Bytes, c: Class, at: nat, m: nat)
    requires at <= m <= |s| && m <= |t| && s[..m] == t[..m] && at + Run(s[at..], c) < m
    ensures Run(t[at..], c) == Run(s[at..], c)
  {
    assert s[at..][..m - at] == s[..m][at..] && t[at..][..m - at] == t[..m][at..];
    RunIsLocal(s[at..], t[at..], c, m - at);
  }

  lemma Agree(s: Bytes, t: Bytes, m: nat, i: nat)
    requires m <= |s| && m <= |t| && s[..m] == t[..m] && i < m
    ensures s[i] == t[i]
  {
    assert s[..m][i] == t[..m][i];
  }

  lemma HeadIsLocal(s: Bytes, t: Bytes, m: nat)
    requires m <= |s| && m <= |t| && s[..m] == t[..m] && EqualsAt(s) < m
    ensures NameStart(t) == NameStart(s) && NameEnd(t) == NameEnd(s) && EqualsAt(t) == EqualsAt(s)
    ensures s[NameStart(s)..NameEnd(s)] == t[NameStart(s)..NameEnd(s)]
  {
    hide Run;
    RunIsLocal(s, t, Space, m);
    RunIsLocalFrom(s, t, Name, NameStart(s), m);
    RunIsLocalFrom(s, t, Space, NameEnd(s), m);
    assert s[NameStart(s)..NameEnd(s)] == s[..m][NameStart(s)..NameEnd(s)];
    assert t[NameStart(s)..NameEnd(s)] == t[..m][NameStart(s)..NameEnd(s)];
  }

  lemma ValueIsLocal(s: Bytes, t: Bytes, at: nat, name: Bytes)
    requires at < |s| && ValueStep(s, at, name).Found?
    requires ValueStep(s, at, name).to < |t|
    requires s[..ValueStep(s, at, name).to + 1] == t[..ValueStep(s, at, name).to + 1]
    ensures ValueStep(t, at, name) == ValueStep(s, at, name)
  {
    hide Run;
    var m := ValueStep(s, at, name).to + 1;
    var open := at + 1 + Run(s[at + 1..], Space);
    Agree(s, t, m, at);
    RunIsLocalFrom(s, t, Space, at + 1, m);
    Agree(s, t, m, open);
    RunIsLocalFrom(s, t, Not(s[open]), open + 1, m);
  }

  /** A found attribute is found in every text that agrees up to its closing quote. */
  lemma FoundIsLocal(s: Bytes, t: Bytes)
    requires NextStep(s).Found? && NextStep(s).to < |t| && s[..NextStep(s).to + 1] == t[..NextStep(s).to + 1]
    ensures NextStep(t) == NextStep(s)
  {
    hide ValueStep, Run;
    var m := NextStep(s).to + 1;
    HeadIsLocal(s, t, m);
    Agree(s, t, m, NameStart(s));
    ValueIsLocal(s, t, EqualsAt(s), s[NameStart(s)..NameEnd(s)]);
  }

  // ---------------------------------------------------------------- scanning the result again

  lemma {:induction false} RunExactly(s: Bytes, c: Class, n: nat)
    requires n < |s| && !Is(s[n], c) && forall i :: 0 <= i < n ==> Is(s[i], c)
    ensures Run(s, c) == n
  {
    if n > 0 {
      RunExactly(s[1..], c, n - 1);
    }
  }

  /** Neither kind of quote. */
  predicate NoQuotes(v: Bytes) {
    forall i :: 0 <= i < |v| ==> v[i] != QUOTE && v[i] != APOSTROPHE
  }

  lemma ValueStepReplaced(s: Bytes, t: Bytes, at: nat, name: Bytes, v: Bytes)
    requires at < |s| && ValueStep(s, at, name).Found? && NoQuotes(v)
    requires var r := ValueStep(s, at, name); t == s[..r.from] + v + s[r.to..]
    ensures var r := ValueStep(s, at, name); ValueStep(t, at, name) == Found(name, r.from, r.from + |v|)
  {
    hide Run;
    var r := ValueStep(s, at, name);
    var open := r.from - 1;
    NewValueRun(s, t, r.from, r.to, v);
    Agree(s, t, r.from, at);
    Agree(s, t, r.from, open);
    RunIsLocalFrom(s, t, Space, at + 1, r.from);
  }

  /** The new value runs up to the old closing quote. */
  lemma NewValueRun(s: Bytes, t: Bytes, from: nat, to: nat, v: Bytes)
    requires 0 < from <= to < |s| && Quoted(s, from, to) && NoQuotes(v)
    requires t == s[..from] + v + s[to..]
    ensures t[..from] == s[..from] && from + |v| < |t|
    ensures Run(t[from..], Not(s[from - 1])) == |v|
  {
    var tail := t[from..];
    assert tail == v + s[to..];
    RunExactly(tail, Not(s[from - 1]), |v|);
  }

  /** With its value replaced, the same attribute is found at the same place. */
  lemma FoundReplaced(s: Bytes, v: Bytes)
    requires NextStep(s).Found? && NoQuotes(v)
    ensures var r := NextStep(s);
            NextStep(s[..r.from] + v + s[r.to..]) == Found(r.name, r.from, r.from + |v|)
  {
    hide ValueStep, Run;
    var r := NextStep(s);
    var t := s[..r.from] + v + s[r.to..];
    assert t[..r.from] == s[..r.from];
    HeadIsLocal(s, t, r.from);
    Agree(s, t, r.from, NameStart(s));
    ValueStepReplaced(s, t, EqualsAt(s), s[NameStart(s)..NameEnd(s)], v);
  }

  lemma SkipIsLocal(s: Bytes, u: Bytes)
    requires NextStep(s).Skip? && SameFirst(s[NextStep(s).next..], u)
    ensures NextStep(s[..NextStep(s).next] + u) == NextStep(s)
  {
    hide Run;
    var next := NextStep(s).next;
    var t := s[..next] + u;
    if next < |s| {
      assert t[..next + 1] == s[..next + 1];
      HeadIsLocal(s, t, next + 1);
      Agree(s, t, next + 1, NameStart(s));
    } else {
      assert t == s;
    }
  }

  /** Both empty, or with the same first byte. */
  predicate SameFirst(s: Bytes, u: Bytes) {
    if s == [] then u == [] else u != [] && u[0] == s[0]
  }

  lemma {:induction false} WithValueKeepsFirst(s: Bytes, k: nat, v: Bytes)
    ensures SameFirst(s, WithValue(s, k, v))
  {
    assert s != [] ==> s[..1][0] == s[0];
  }

  lemma UnfoldSkip(s: Bytes, k: nat, v: Bytes)
    requires NextStep(s).Skip?
    ensures Attributes(s) == Attributes(s[NextStep(s).next..])
    ensures WithValue(s, k, v) == s[..NextStep(s).next] + WithValue(s[NextStep(s).next..], k, v)
  {
    hide NextStep;
  }

  lemma UnfoldDone(s: Bytes, k: nat, v: Bytes)
    requires NextStep(s).Done?
    ensures Attributes(s) == [] && WithValue(s, k, v) == s
  {
    hide NextStep;
  }

  lemma UnfoldFound(s: Bytes, k: nat, v: Bytes)
    requires NextStep(s).Found?
    ensures var r := NextStep(s);
            && Attributes(s) == [Attribute(r.name, s[r.from..r.to])] + Attributes(s[r.to + 1..])
            && WithValue(s, k, v) == if k == 0 then s[..r.from] + v + s[r.to..]
                                     else s[..r.to + 1] + WithValue(s[r.to + 1..], k - 1, v)
  {
    hide NextStep;
  }

  lemma UnfoldHere(s: Bytes, v: Bytes)
    requires NextStep(s).Found?
    ensures WithValue(s, 0, v) == s[..NextStep(s).from] + v + s[NextStep(s).to..]
  {
    hide NextStep;
  }

  lemma UnfoldPast(s: Bytes, k: nat, v: Bytes)
    requires NextStep(s).Found?
    ensures WithValue(s, k + 1, v) == s[..NextStep(s).to + 1] + WithValue(s[NextStep(s).to + 1..], k, v)
  {
    hide NextStep;
  }

  /** The middle and the end of three pieces. */
  lemma Pieces(x: Bytes, y: Bytes, z: Bytes)
    requires z != []
    ensures (x + y + z)[|x|..|x| + |y|] == y && (x + y + z)[|x| + |y| + 1..] == z[1..]
  {
  }

  lemma RescanFirst(s: Bytes, v: Bytes)
    requires NextStep(s).Found? && NoQuotes(v)
    ensures var r := NextStep(s);
            && Attributes(s) == [Attribute(r.name, s[r.from..r.to])] + Attributes(s[r.to + 1..])
            && Attributes(WithValue(s, 0, v)) == [Attribute(r.name, v)] + Attributes(s[r.to + 1..])
  {
    hide NextStep, Attributes, WithValue, Quoted, NoQuotes;
    var r := NextStep(s);
    UnfoldFound(s, 0, v);
    UnfoldHere(s, v);
    FoundReplaced(s, v);
    RescanOne(s[..r.from] + v + s[r.to..], r.name, s[..r.from], v, s[r.to..]);
    assert s[r.to..][1..] == s[r.to + 1..];
  }

  lemma RescanOne(t: Bytes, name: Bytes, x: Bytes, v: Bytes, z: Bytes)
    requires t == x + v + z && z != [] && |x| > 0 && NextStep(t) == Found(name, |x|, |x| + |v|)
    ensures Attributes(t) == [Attribute(name, v)] + Attributes(z[1..])
  {
    hide NextStep, Attributes, WithValue, Quoted;
    UnfoldFound(t, 0, []);
    Pieces(x, v, z);
  }

  lemma RescanLater(s: Bytes, u: Bytes)
    requires NextStep(s).Found?
    ensures var r := NextStep(s);
            Attributes(s[..r.to + 1] + u) == [Attribute(r.name, s[r.from..r.to])] + Attributes(u)
  {
    hide NextStep, Attributes, WithValue;
    var r := NextStep(s);
    var t := s[..r.to + 1] + u;
    assert t[..r.to + 1] == s[..r.to + 1] && t[r.to + 1..] == u;
    FoundIsLocal(s, t);
    UnfoldFound(t, 0, []);
    assert t[r.from..r.to] == t[..r.to + 1][r.from..r.to] == s[r.from..r.to];
  }

  lemma RescanSkip(s: Bytes, u: Bytes)
    requires NextStep(s).Skip? && SameFirst(s[NextStep(s).next..], u)
    ensures Attributes(s[..NextStep(s).next] + u) == Attributes(u)
  {
    hide NextStep, Attributes;
    var next := NextStep(s).next;
    SkipIsLocal(s, u);
    UnfoldSkip(s[..next] + u, 0, []);
    assert (s[..next] + u)[next..] == u;
  }

  lemma UpdateCons(x: Attribute, rest: seq<Attribute>, k: nat, y: Attribute)
    requires k < |rest|
    ensures ([x] + rest)[k + 1 := y] == [x] + rest[k := y] && ([x] + rest)[k + 1] == rest[k]
    ensures ([x] + rest)[0 := y] == [y] + rest
  {
  }

  /** The attributes after one more in front, when the rest has one value replaced. */
  lemma RescanTail(s: Bytes, k: nat, v: Bytes)
    requires NextStep(s).Found? && k > 0
    ensures var rest := s[NextStep(s).to + 1..];
            var first := Attribute(NextStep(s).name, s[NextStep(s).from..NextStep(s).to]);
            && Attributes(s) == [first] + Attributes(rest)
            && Attributes(WithValue(s, k, v)) == [first] + Attributes(WithValue(rest, k - 1, v))
  {
    hide NextStep, Attributes, WithValue;
    UnfoldFound(s, k, v);
    RescanLater(s, WithValue(s[NextStep(s).to + 1..], k - 1, v));
  }

  /** Scanning the edited text again yields the same attributes, but for the one value. */
  lemma {:induction false} Rescan(s: Bytes, k: nat, v: Bytes)
    requires k < |Attributes(s)| && NoQuotes(v)
    ensures Attributes(WithValue(s, k, v)) == Attributes(s)[k := Attribute(Attributes(s)[k].name, v)]
    decreases |s|
  {
    hide NextStep, WithValue, NoQuotes, Attributes;
    match NextStep(s)
    case Done => UnfoldDone(s, 0, []);
    case Skip(next) =>
      UnfoldSkip(s, k, v);
      Rescan(s[next..], k, v);
      WithValueKeepsFirst(s[next..], k, v);
      RescanSkip(s, WithValue(s[next..], k, v));
    case Found(name, from, to) =>
      var rest := s[to + 1..];
      if k == 0 {
        RescanFirst(s, v);
      } else {
        RescanTail(s, k, v);
        Rescan(rest, k - 1, v);
        UpdateCons(Attribute(name, s[from..to]), Attributes(rest), k - 1, Attribute(Attributes(rest)[k - 1].name, v));
      }
  }

  // ---------------------------------------------------------------- the edit

  function Text(s: string): Bytes
    requires forall i :: 0 <= i < |s| ==> s[i] as int < 256
  {
    seq(|s|, i requires 0 <= i < |s| => s[i] as int)
  }

  /** `xml.EscapeText` for one code point; what XML 1.0 does not allow in a document becomes U+FFFD. */
  function EscapeRune(r: U.Rune): Bytes {
    if r == QUOTE then Text("&#34;")
    else if r == APOSTROPHE then Text("&#39;")
    else if r == AMPERSAND then Text("&amp;")
    else if r == LT then Text("&lt;")
    else if r == GT then Text("&gt;")
    else if r == 0x09 then Text("&#x9;")
    else if r == 0x0A then Text("&#xA;")
    else if r == 0x0D then Text("&#xD;")
    else if IsXMLChar(r) then U.EncodeRune(r)
    else U.EncodeRune(U.RUNE_ERROR)
  }

  /** `isInCharacterRange`: production 2 in section 2.2 of XML 1.0. */
  predicate IsXMLChar(r: U.Rune) {
    r == 0x09 || r == 0x0A || r == 0x0D || 0x20 <= r <= 0xD7FF || 0xE000 <= r <= 0xFFFD || r >= 0x10000
  }

  function EscapeAll(t: seq<U.Rune>): Bytes {
    if t == [] then [] else EscapeRune(t[0]) + EscapeAll(t[1..])
  }

  /** `escapeXMLText`, on any bytes: a malformed byte decodes to U+FFFD and stays it. */
  function Escape(v: Bytes): Bytes {
    EscapeAll(U.Decode(v))
  }

  lemma EscapedRuneHasNoQuotes(r: U.Rune)
    ensures NoQuotes(EscapeRune(r))
  {
    var b := U.EncodeRune(r);
    assert r >= 0x80 ==> b[0] >= 0x80;
    assert forall i :: 0 <= i < |b| ==> i == 0 || b[i] >= 0x80;
  }

  lemma {:induction false} EscapeAllHasNoQuotes(t: seq<U.Rune>)
    ensures NoQuotes(EscapeAll(t))
  {
    hide EscapeRune;
    if t != [] {
      EscapedRuneHasNoQuotes(t[0]);
      EscapeAllHasNoQuotes(t[1..]);
    }
  }

  lemma EscapeHasNoQuotes(v: Bytes)
    ensures NoQuotes(Escape(v))
  {
    EscapeAllHasNoQuotes(U.Decode(v));
  }

  predicate HasColon(name: Bytes) {
    name != [] && (name[0] == COLON || HasColon(name[1..]))
  }

  /** What follows the first colon. */
  function AfterColon(name: Bytes): Bytes
    requires HasColon(name)
  {
    if name[0] == COLON then name[1..] else AfterColon(name[1..])
  }

  /** `attrLocalMatches`: the whole name, or what follows its prefix. */
  predicate LocalMatches(name: Bytes, local: Bytes) {
    name == local || (HasColon(name) && AfterColon(name) == local)
  }

  function LastMatch(attrs: seq<Attribute>, local: Bytes): (r: Option<nat>)
    ensures r.Some? ==> r.value < |attrs| && LocalMatches(attrs[r.value].name, local)
    ensures r.Some? ==> forall i :: r.value < i < |attrs| ==> !LocalMatches(attrs[i].name, local)
    ensures r.None? ==> forall i :: 0 <= i < |attrs| ==> !LocalMatches(attrs[i].name, local)
  {
    if attrs == [] then None
    else if LocalMatches(attrs[|attrs| - 1].name, local) then Some(|attrs| - 1)
    else LastMatch(attrs[..|attrs| - 1], local)
  }

  /** Where the attributes start: after the element name. */
  function BodyStart(tag: Bytes): (n: nat)
    ensures n <= |tag|
  {
    if tag != [] && tag[0] == LT then 1 + Run(tag[1..], TagName) else Run(tag, TagName)
  }

  function AttributesOf(tag: Bytes): seq<Attribute> {
    Attributes(tag[BodyStart(tag)..])
  }

  /** The edited tag, and whether the attribute was found. */
  function Edited(tag: Bytes, local: Bytes, newVal: Bytes): (Bytes, bool) {
    var start := BodyStart(tag);
    match LastMatch(AttributesOf(tag), local)
    case None => (tag, false)
    case Some(k) => (tag[..start] + WithValue(tag[start..], k, Escape(newVal)), true)
  }

  /** An edited value keeps its quotes. */
  lemma {:induction false} WithValueIsLong(s: Bytes, k: nat, v: Bytes)
    ensures |WithValue(s, k, v)| >= if |s| < 2 then |s| else 2
    decreases |s|
  {
    hide NextStep;
    var r := NextStep(s);
    if r.Skip? {
      WithValueIsLong(s[r.next..], k, v);
    } else if r.Found? && k > 0 {
      WithValueIsLong(s[r.to + 1..], k - 1, v);
    }
  }

  lemma {:induction false} EditedIsLong(tag: Bytes, local: Bytes, newVal: Bytes)
    ensures |Edited(tag, local, newVal).0| >= if |tag| < 2 then |tag| else 2
  {
    var start := BodyStart(tag);
    match LastMatch(AttributesOf(tag), local)
    case None =>
    case Some(k) => WithValueIsLong(tag[start..], k, Escape(newVal));
  }

  predicate SameEnd(a: Bytes, b: Bytes) {
    |a| >= 2 && |b| >= 2 && a[|a| - 2] == b[|b| - 2] && a[|a| - 1] == b[|b| - 1]
  }

  predicate IsQuote(b: Byte) {
    b == QUOTE || b == APOSTROPHE
  }

  lemma SameEndSelf(s: Bytes)
    ensures |s| >= 2 ==> SameEnd(s, s)
  {
  }

  lemma EndBehind(front: Bytes, x: Bytes, y: Bytes)
    requires SameEnd(x, y)
    ensures SameEnd(front + x, y)
  {
  }

  lemma EndOfRest(s: Bytes, n: nat, x: Bytes)
    requires n + 2 <= |s| && SameEnd(x, s[n..])
    ensures SameEnd(x, s)
  {
  }

  /** A front that stays, and a rest that keeps its end or is too short to change. */
  lemma EndOfSplit(s: Bytes, n: nat, x: Bytes)
    requires n <= |s| && if |s| - n < 2 then x == s[n..] else SameEnd(x, s[n..])
    ensures if |s| < 2 then s[..n] + x == s else SameEnd(s[..n] + x, s)
  {
    if |s| - n < 2 {
      assert s[..n] + s[n..] == s;
    } else {
      EndOfRest(s, n, x);
      EndBehind(s[..n], x, s);
    }
  }

  lemma {:induction false} WithValueKeepsEnd(s: Bytes, k: nat, v: Bytes)
    requires |s| >= 2 ==> !IsQuote(s[|s| - 2]) && !IsQuote(s[|s| - 1])
    ensures if |s| < 2 then WithValue(s, k, v) == s else SameEnd(WithValue(s, k, v), s)
    decreases |s|
  {
    hide NextStep, WithValue, SameEnd, Run;
    match NextStep(s)
    case Done => UnfoldDone(s, k, v); SameEndSelf(s);
    case Skip(next) =>
      UnfoldSkip(s, k, v);
      WithValueKeepsEnd(s[next..], k, v);
      EndOfSplit(s, next, WithValue(s[next..], k, v));
    case Found(_, from, to) =>
      UnfoldFound(s, k, v);
      assert IsQuote(s[to]);
      if k > 0 {
        WithValueKeepsEnd(s[to + 1..], k - 1, v);
        EndOfSplit(s, to + 1, WithValue(s[to + 1..], k - 1, v));
      } else {
        SameEndSelf(s[to..]);
        EndOfRest(s, to, s[to..]);
        EndBehind(s[..from] + v, s[to..], s);
      }
  }

  lemma EditedKeepsEnd(tag: Bytes, start: nat, k: nat, v: Bytes)
    requires start <= |tag| && |tag| >= 2 && !IsQuote(tag[|tag| - 2]) && !IsQuote(tag[|tag| - 1])
    ensures SameEnd(tag[..start] + WithValue(tag[start..], k, v), tag)
  {
    hide WithValue, SameEnd;
    WithValueKeepsEnd(tag[start..], k, v);
    EndOfSplit(tag, start, WithValue(tag[start..], k, v));
  }

  /** A self-closing tag stays one: it still ends with its `/>`. */
  lemma EditKeepsSelfClose(tag: Bytes, local: Bytes, newVal: Bytes)
    requires |tag| >= 2 && tag[|tag| - 2] == SLASH && tag[|tag| - 1] == GT
    ensures SameEnd(Edited(tag, local, newVal).0, tag)
  {
    hide WithValue, Escape, Attributes;
    match LastMatch(AttributesOf(tag), local)
    case None =>
    case Some(k) => EditedKeepsEnd(tag, BodyStart(tag), k, Escape(newVal));
  }

  /** Editing the body leaves the element name, so the attributes start at the same place. */
  lemma BodyStays(tag: Bytes, u: Bytes)
    requires SameFirst(tag[BodyStart(tag)..], u)
    ensures BodyStart(tag[..BodyStart(tag)] + u) == BodyStart(tag)
  {
    hide Run;
    var start := BodyStart(tag);
    var t := tag[..start] + u;
    if start == |tag| {
      assert t == tag;
    } else {
      assert t[..start + 1] == tag[..start + 1];
      Agree(tag, t, start + 1, 0);
      if tag[0] == LT {
        RunIsLocalFrom(tag, t, TagName, 1, start + 1);
      } else {
        RunIsLocal(tag, t, TagName, start + 1);
      }
    }
  }

  /** Scanning the edited tag yields the same attribute list, except that the last attribute with the
      local name now holds the escaped value; a tag without one comes back unchanged. */
  lemma EditChangesOneValue(tag: Bytes, local: Bytes, newVal: Bytes)
    ensures var (edited, found) := Edited(tag, local, newVal);
            match LastMatch(AttributesOf(tag), local)
            case None => !found && edited == tag
            case Some(k) =>
              found && AttributesOf(edited)
                       == AttributesOf(tag)[k := Attribute(AttributesOf(tag)[k].name, Escape(newVal))]
  {
    var start := BodyStart(tag);
    var last := LastMatch(AttributesOf(tag), local);
    if last.Some? {
      var u := WithValue(tag[start..], last.value, Escape(newVal));
      EscapeHasNoQuotes(newVal);
      Rescan(tag[start..], last.value, Escape(newVal));
      WithValueKeepsFirst(tag[start..], last.value, Escape(newVal));
      BodyStays(tag, u);
      assert (tag[..start] + u)[start..] == u;
    }
  }

  // ---------------------------------------------------------------- the scan over indices

  method SkipRun(tag: Bytes, i: nat, c: Class) returns (j: nat)
    requires i <= |tag|
    ensures j == i + Run(tag[i..], c)
  {
    j := i;
    while j < |tag| && Is(tag[j], c)
      invariant i <= j <= |tag|
      invariant i + Run(tag[i..], c) == j + Run(tag[j..], c)
    {
      assert tag[j..][1..] == tag[j + 1..];
      j := j + 1;
    }
  }

  lemma Suffixes(tag: Bytes, i: nat, j: nat)
    requires i <= j <= |tag|
    ensures tag[j..] == tag[i..][j - i..] && (j < |tag| ==> tag[j] == tag[i..][j - i])
  {
  }

  /** The part of a round after the name: `j` is where the `=` should be. */
  method ScanValue(tag: Bytes, i: nat, j: nat, name: Bytes) returns (r: Step)
    requires i <= j <= |tag|
    ensures r == ValueStep(tag[i..], j - i, name)
  {
    hide Run;
    if j >= |tag| {
      return Skip(j - i);
    }
    ValuePositions(tag, i, j);
    if tag[j] != EQUALS {
      return Skip(j - i);
    }
    var open := SkipRun(tag, j + 1, Space);
    if open >= |tag| {
      return Done;
    }
    var quote := tag[open];
    if quote != QUOTE && quote != APOSTROPHE {
      return Done;
    }
    var valEnd := SkipRun(tag, open + 1, Not(quote));
    if valEnd >= |tag| {
      return Done;
    }
    return Found(name, open + 1 - i, valEnd - i);
  }

  lemma ValuePositions(tag: Bytes, i: nat, j: nat)
    requires i <= j < |tag|
    ensures tag[i..][j - i] == tag[j] && tag[i..][j - i + 1..] == tag[j + 1..]
    ensures var open := j + 1 + Run(tag[j + 1..], Space);
            open < |tag| ==> tag[i..][open - i] == tag[open] && tag[i..][open - i + 1..] == tag[open + 1..]
  {
    hide Run;
    var open := j + 1 + Run(tag[j + 1..], Space);
    Suffixes(tag, i, j + 1);
    if open < |tag| {
      Suffixes(tag, i, open + 1);
    }
  }

  /** One round of the loop, at index `i`. */
  method ScanOne(tag: Bytes, i: nat) returns (r: Step)
    requires i <= |tag|
    ensures r == NextStep(tag[i..])
  {
    hide Run, ValueStep, NameStart, NameEnd, EqualsAt;
    var nameStart := SkipRun(tag, i, Space);
    ScanPositions(tag, i);
    if nameStart >= |tag| || tag[nameStart] == GT || tag[nameStart] == SLASH {
      return Done;
    }
    var nameEnd := SkipRun(tag, nameStart, Name);
    var j := SkipRun(tag, nameEnd, Space);
    var name := tag[nameStart..nameEnd];
    r := ScanValue(tag, i, j, name);
  }

  /** The positions of one round, counted from the start of the tag. */
  lemma ScanPositions(tag: Bytes, i: nat)
    requires i <= |tag|
    ensures var s := tag[i..];
            var nameStart, nameEnd, j := i + NameStart(s), i + NameEnd(s), i + EqualsAt(s);
            && nameStart == i + Run(tag[i..], Space) && nameEnd == nameStart + Run(tag[nameStart..], Name)
            && j == nameEnd + Run(tag[nameEnd..], Space)
            && (nameStart < |tag| ==> s[NameStart(s)] == tag[nameStart])
            && s[NameStart(s)..NameEnd(s)] == tag[nameStart..nameEnd]
  {
    hide Run;
    Suffixes(tag, i, i + NameStart(tag[i..]));
    Suffixes(tag, i, i + NameEnd(tag[i..]));
  }

  predicate ReachedAt(tag: Bytes, start: nat, i: nat, count: nat, v: Bytes, k: nat)
    requires start <= i <= |tag|
  {
    tag[..start] + WithValue(tag[start..], count + k, v) == tag[..i] + WithValue(tag[i..], k, v)
  }

  /** Replacing attribute number `count + k` from the start is replacing number `k` from here. */
  ghost predicate Reached(tag: Bytes, start: nat, i: nat, count: nat, v: Bytes)
    requires start <= i <= |tag|
  {
    forall k: nat :: ReachedAt(tag, start, i, count, v, k)
  }

  /** Moving a boundary inside the rest of the tag. */
  lemma MoveOn(tag: Bytes, i: nat, n: nat, u: Bytes, w: Bytes)
    requires i + n <= |tag| && w == tag[i..][..n] + u
    ensures tag[..i] + w == tag[..i + n] + u && tag[i..][n..] == tag[i + n..]
  {
  }

  lemma ReachedSkip(tag: Bytes, start: nat, i: nat, count: nat, v: Bytes)
    requires start <= i <= |tag| && Reached(tag, start, i, count, v) && NextStep(tag[i..]).Skip?
    ensures var j := i + NextStep(tag[i..]).next;
            Reached(tag, start, j, count, v) && Attributes(tag[i..]) == Attributes(tag[j..])
  {
    hide NextStep, ReachedAt, Attributes, WithValue;
    var j := i + NextStep(tag[i..]).next;
    forall k: nat ensures ReachedAt(tag, start, j, count, v, k) {
      assert ReachedAt(tag, start, i, count, v, k);
      ReachedSkipAt(tag, start, i, count, v, k);
    }
    UnfoldSkip(tag[i..], 0, v);
    Suffixes(tag, i, j);
  }

  lemma ReachedSkipAt(tag: Bytes, start: nat, i: nat, count: nat, v: Bytes, k: nat)
    requires start <= i <= |tag| && ReachedAt(tag, start, i, count, v, k) && NextStep(tag[i..]).Skip?
    ensures ReachedAt(tag, start, i + NextStep(tag[i..]).next, count, v, k)
  {
    hide NextStep, WithValue, Attributes;
    var n := NextStep(tag[i..]).next;
    UnfoldSkip(tag[i..], k, v);
    MoveOn(tag, i, n, WithValue(tag[i..][n..], k, v), WithValue(tag[i..], k, v));
  }

  lemma ReachedLater(tag: Bytes, start: nat, i: nat, count: nat, v: Bytes)
    requires start <= i <= |tag| && Reached(tag, start, i, count, v) && NextStep(tag[i..]).Found?
    ensures Reached(tag, start, i + NextStep(tag[i..]).to + 1, count + 1, v)
  {
    hide NextStep, ReachedAt;
    var j, next := i + NextStep(tag[i..]).to + 1, count + 1;
    forall k: nat ensures ReachedAt(tag, start, j, next, v, k) {
      assert ReachedAt(tag, start, i, count, v, k + 1);
      ReachedLaterAt(tag, start, i, count, v, k);
    }
  }

  lemma ReachedLaterAt(tag: Bytes, start: nat, i: nat, count: nat, v: Bytes, k: nat)
    requires start <= i <= |tag| && ReachedAt(tag, start, i, count, v, k + 1) && NextStep(tag[i..]).Found?
    ensures ReachedAt(tag, start, i + NextStep(tag[i..]).to + 1, count + 1, v, k)
  {
    hide NextStep, WithValue, Quoted;
    var n := NextStep(tag[i..]).to + 1;
    UnfoldPast(tag[i..], k, v);
    MoveOn(tag, i, n, WithValue(tag[i..][n..], k, v), WithValue(tag[i..], k + 1, v));
    assert count + (k + 1) == count + 1 + k;
  }

  lemma ReplaceHere(tag: Bytes, i: nat, from: nat, to: nat, v: Bytes, w: Bytes)
    requires from <= to && i + to <= |tag|
    requires w == tag[i..][..from] + v + tag[i..][to..]
    ensures tag[..i] + w == tag[..i + from] + v + tag[i + to..]
  {
    assert tag[i..][to..] == tag[i + to..] && tag[..i] + tag[i..][..from] == tag[..i + from];
  }

  lemma ReachedFound(tag: Bytes, start: nat, i: nat, count: nat, v: Bytes)
    requires start <= i <= |tag| && Reached(tag, start, i, count, v) && NextStep(tag[i..]).Found?
    ensures var r := NextStep(tag[i..]);
            tag[..start] + WithValue(tag[start..], count, v) == tag[..i + r.from] + v + tag[i + r.to..]
  {
    hide NextStep, WithValue, Attributes, Run, Reached, Quoted;
    var r := NextStep(tag[i..]);
    ReachedNow(tag, start, i, count, v);
    UnfoldHere(tag[i..], v);
    ReplaceHere(tag, i, r.from, r.to, v, WithValue(tag[i..], 0, v));
  }

  lemma ReachedNow(tag: Bytes, start: nat, i: nat, count: nat, v: Bytes)
    requires start <= i <= |tag| && Reached(tag, start, i, count, v)
    ensures tag[..start] + WithValue(tag[start..], count, v) == tag[..i] + WithValue(tag[i..], 0, v)
  {
    hide WithValue;
    assert ReachedAt(tag, start, i, count, v, 0);
  }

  lemma FoundHere(tag: Bytes, i: nat)
    requires i <= |tag| && NextStep(tag[i..]).Found?
    ensures var r := NextStep(tag[i..]);
            Attributes(tag[i..]) == [Attribute(r.name, tag[i + r.from..i + r.to])] + Attributes(tag[i + r.to + 1..])
  {
    hide NextStep, Attributes, WithValue, Run;
    var r := NextStep(tag[i..]);
    UnfoldFound(tag[i..], 0, []);
    SlicesHere(tag, i, r.from, r.to);
  }

  lemma SlicesHere(tag: Bytes, i: nat, from: nat, to: nat)
    requires from <= to && i + to < |tag|
    ensures tag[i..][from..to] == tag[i + from..i + to] && tag[i..][to + 1..] == tag[i + to + 1..]
  {
  }

  /** What the loop knows at index `i`: the attributes `seen` so far, and the value range of the last
      one that matches. */
  ghost predicate Progress(tag: Bytes, local: Bytes, v: Bytes, start: nat, i: nat, seen: seq<Attribute>,
                           found: bool, matchStart: nat, matchEnd: nat) {
    && start <= i <= |tag| && Reached(tag, start, i, |seen|, v)
    && Attributes(tag[start..]) == seen + Attributes(tag[i..])
    && (found <==> LastMatch(seen, local).Some?)
    && (found ==> matchStart <= matchEnd <= |tag|
                  && tag[..matchStart] + v + tag[matchEnd..]
                     == tag[..start] + WithValue(tag[start..], LastMatch(seen, local).value, v))
  }

  lemma ProgressStarts(tag: Bytes, local: Bytes, v: Bytes, start: nat)
    requires start <= |tag|
    ensures Progress(tag, local, v, start, start, [], false, 0, 0)
  {
    hide WithValue, Attributes;
    StartIsReached(tag, start, v);
  }

  lemma ProgressSkips(tag: Bytes, local: Bytes, v: Bytes, start: nat, i: nat, seen: seq<Attribute>,
                      found: bool, matchStart: nat, matchEnd: nat)
    requires Progress(tag, local, v, start, i, seen, found, matchStart, matchEnd) && NextStep(tag[i..]).Skip?
    ensures Progress(tag, local, v, start, i + NextStep(tag[i..]).next, seen, found, matchStart, matchEnd)
  {
    hide NextStep, WithValue, Attributes, Reached, LastMatch;
    ReachedSkip(tag, start, i, |seen|, v);
  }

  lemma ProgressFinds(tag: Bytes, local: Bytes, v: Bytes, start: nat, i: nat, seen: seq<Attribute>,
                      found: bool, matchStart: nat, matchEnd: nat)
    requires Progress(tag, local, v, start, i, seen, found, matchStart, matchEnd) && NextStep(tag[i..]).Found?
    ensures var r := NextStep(tag[i..]);
            var matches := LocalMatches(r.name, local);
            Progress(tag, local, v, start, i + r.to + 1, seen + [Attribute(r.name, tag[i + r.from..i + r.to])],
                     found || matches, if matches then i + r.from else matchStart, if matches then i + r.to else matchEnd)
  {
    hide NextStep, WithValue, Attributes, LocalMatches, Reached, LastMatch;
    var r := NextStep(tag[i..]);
    ReachedFound(tag, start, i, |seen|, v);
    ReachedLater(tag, start, i, |seen|, v);
    FoundHere(tag, i);
    LastMatchSnoc(seen, Attribute(r.name, tag[i + r.from..i + r.to]), local);
  }

  lemma ProgressEnds(tag: Bytes, local: Bytes, v: Bytes, start: nat, i: nat, seen: seq<Attribute>,
                     found: bool, matchStart: nat, matchEnd: nat)
    requires Progress(tag, local, v, start, i, seen, found, matchStart, matchEnd)
    requires i == |tag| || NextStep(tag[i..]).Done?
    ensures seen == Attributes(tag[start..])
  {
    hide NextStep, WithValue, Attributes, Reached, LastMatch;
    NothingMore(tag, i);
  }

  /** `replaceAttrValue`: it ends on every byte string, and edits the last matching attribute. */
  method ReplaceAttrValue(tag: Bytes, local: Bytes, newVal: Bytes) returns (out: Bytes, found: bool)
    ensures (out, found) == Edited(tag, local, newVal)
  {
    hide NextStep, WithValue, Attributes, Escape, LocalMatches, Reached, LastMatch, Run, Progress;
    var matchStart: nat, matchEnd: nat := 0, 0;
    found := false;
    var i: nat := 0;
    if i < |tag| && tag[i] == LT {
      i := 1;
    }
    i := SkipRun(tag, i, TagName);
    assert tag[0..] == tag;
    ghost var start := i;
    assert start == BodyStart(tag);
    var v := Escape(newVal);
    ghost var seen: seq<Attribute> := [];
    ProgressStarts(tag, local, v, start);
    while i < |tag|
      invariant i <= |tag| && Progress(tag, local, v, start, i, seen, found, matchStart, matchEnd)
      decreases |tag| - i
    {
      var r := ScanOne(tag, i);
      if r.Done? {
        break;
      }
      if r.Skip? {
        ProgressSkips(tag, local, v, start, i, seen, found, matchStart, matchEnd);
        i := i + r.next;
        continue;
      }
      ProgressFinds(tag, local, v, start, i, seen, found, matchStart, matchEnd);
      seen := seen + [Attribute(r.name, tag[i + r.from..i + r.to])];
      if LocalMatches(r.name, local) {
        matchStart, matchEnd, found := i + r.from, i + r.to, true;
      }
      i := i + r.to + 1;
    }
    ProgressEnds(tag, local, v, start, i, seen, found, matchStart, matchEnd);
    EditedAtMatch(tag, local, newVal, start, i, seen, found, matchStart, matchEnd);
    if !found {
      return tag, false;
    }
    out := tag[..matchStart] + v + tag[matchEnd..];
  }

  lemma EditedAtMatch(tag: Bytes, local: Bytes, newVal: Bytes, start: nat, i: nat, seen: seq<Attribute>,
                found: bool, matchStart: nat, matchEnd: nat)
    requires Progress(tag, local, Escape(newVal), start, i, seen, found, matchStart, matchEnd)
    requires start == BodyStart(tag) && seen == Attributes(tag[start..])
    ensures found ==> matchStart <= matchEnd <= |tag|
    ensures Edited(tag, local, newVal)
         == if found then (tag[..matchStart] + Escape(newVal) + tag[matchEnd..], true) else (tag, false)
  {
    hide WithValue, Attributes, Escape, Reached, LastMatch;
  }

  lemma StartIsReached(tag: Bytes, start: nat, v: Bytes)
    requires start <= |tag|
    ensures Reached(tag, start, start, 0, v)
  {
    hide WithValue;
  }

  lemma LastMatchSnoc(seen: seq<Attribute>, attr: Attribute, local: Bytes)
    ensures LastMatch(seen + [attr], local)
         == if LocalMatches(attr.name, local) then Some(|seen|) else LastMatch(seen, local)
  {
    assert (seen + [attr])[..|seen|] == seen;
  }

  lemma NothingMore(tag: Bytes, i: nat)
    requires i <= |tag| && (i == |tag| || NextStep(tag[i..]).Done?)
    ensures Attributes(tag[i..]) == []
  {
  }
}
