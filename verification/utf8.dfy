/** UTF-8 (RFC 3629, section 3) as the source's strings use it: encoding, decoding with one replacement
    character per malformed byte, and the fact the search relies on: a byte match of one encoded text
    inside another is a match of code points. */
module Utf8 {

  import opened ByteStrings
  import opened Wrappers

  /** Unicode scalar values. */
  type Rune = x: int | 0 <= x < 0x110000 && !(0xD800 <= x < 0xE000)

  const RUNE_ERROR: Rune := 0xFFFD

  predicate IsContinuation(b: Byte) {
    0x80 <= b < 0xC0
  }

  function EncodeRune(r: Rune): (b: Bytes)
    ensures 1 <= |b| <= 4 && !IsContinuation(b[0]) && Width(b[0]) == |b|
    ensures forall i :: 1 <= i < |b| ==> IsContinuation(b[i])
  {
    if r < 0x80 then [r]
    else if r < 0x800 then [0xC0 + r / 0x40, 0x80 + r % 0x40]
    else if r < 0x10000 then [0xE0 + r / 0x1000, 0x80 + r / 0x40 % 0x40, 0x80 + r % 0x40]
    else [0xF0 + r / 0x40000, 0x80 + r / 0x1000 % 0x40, 0x80 + r / 0x40 % 0x40, 0x80 + r % 0x40]
  }

  /** The length a first byte announces. */
  function Width(lead: Byte): nat {
    if lead < 0xC0 then 1 else if lead < 0xE0 then 2 else if lead < 0xF0 then 3 else 4
  }

  /** The number the payload bits of the first `Width` bytes spell. */
  function Payload(s: Bytes): int
    requires s != [] && Width(s[0]) <= |s|
  {
    var b0: int := s[0];
    if Width(s[0]) == 1 then b0
    else
      var b1: int := s[1];
      if Width(s[0]) == 2 then (b0 - 0xC0) * 0x40 + (b1 - 0x80)
      else
        var b2: int := s[2];
        if Width(s[0]) == 3 then (b0 - 0xE0) * 0x1000 + (b1 - 0x80) * 0x40 + (b2 - 0x80)
        else
          var b3: int := s[3];
          (b0 - 0xF0) * 0x40000 + (b1 - 0x80) * 0x1000 + (b2 - 0x80) * 0x40 + (b3 - 0x80)
  }

  predicate IsRune(n: int) {
    0 <= n < 0x110000 && !(0xD800 <= n < 0xE000)
  }

  /** The bytes start with the shortest encoding of a scalar value. */
  predicate WellFormed(s: Bytes) {
    && s != [] && Width(s[0]) <= |s|
    && IsRune(Payload(s)) && EncodeRune(Payload(s)) == s[..Width(s[0])]
  }

  lemma EncodeDecodes(r: Rune, rest: Bytes)
    ensures WellFormed(EncodeRune(r) + rest) && Payload(EncodeRune(r) + rest) == r
    ensures (EncodeRune(r) + rest)[..|EncodeRune(r)|] == EncodeRune(r)
  {
    PayloadOfRune(r);
    assert (EncodeRune(r) + rest)[..|EncodeRune(r)|] == EncodeRune(r);
  }

  lemma PayloadOfRune(r: Rune)
    ensures Payload(EncodeRune(r)) == r
  {
    assert r == r / 0x40 * 0x40 + r % 0x40;
    assert r / 0x40 == r / 0x40 / 0x40 * 0x40 + r / 0x40 % 0x40;
    assert r / 0x40 / 0x40 == r / 0x1000;
    assert r / 0x1000 == r / 0x1000 / 0x40 * 0x40 + r / 0x1000 % 0x40;
    assert r / 0x1000 / 0x40 == r / 0x40000;
  }

  function Encode(t: seq<Rune>): Bytes {
    if t == [] then [] else EncodeRune(t[0]) + Encode(t[1..])
  }

  /** How far one step of a `range` loop goes. */
  function StepWidth(s: Bytes): (w: nat)
    requires s != []
    ensures 1 <= w <= |s|
  {
    if WellFormed(s) then Width(s[0]) else 1
  }

  /** What one step of a `range` loop yields. */
  function HeadRune(s: Bytes): Rune
    requires s != []
  {
    if WellFormed(s) then Payload(s) else RUNE_ERROR
  }

  function Decode(s: Bytes): seq<Rune> {
    if s == [] then [] else [HeadRune(s)] + Decode(s[StepWidth(s)..])
  }

  /** A malformed byte string decodes too; encoding a text and decoding it gives the text back. */
  lemma {:induction false} DecodeEncode(t: seq<Rune>)
    ensures Decode(Encode(t)) == t
  {
    if t != [] {
      var rest := Encode(t[1..]);
      EncodeDecodes(t[0], rest);
      assert Encode(t)[|EncodeRune(t[0])|..] == rest;
      DecodeEncode(t[1..]);
    }
  }

  lemma {:induction false} EncodeConcat(a: seq<Rune>, b: seq<Rune>)
    ensures Encode(a + b) == Encode(a) + Encode(b)
  {
    if a == [] {
      assert a + b == b;
    } else {
      assert (a + b)[1..] == a[1..] + b;
      EncodeConcat(a[1..], b);
    }
  }

  /** The byte position of code point `k`. */
  function Offset(t: seq<Rune>, k: nat): nat
    requires k <= |t|
  {
    |Encode(t[..k])|
  }

  lemma SplitAt(t: seq<Rune>, k: nat)
    requires k <= |t|
    ensures Offset(t, k) <= |Encode(t)|
    ensures Encode(t)[Offset(t, k)..] == Encode(t[k..]) && Encode(t)[..Offset(t, k)] == Encode(t[..k])
  {
    assert t == t[..k] + t[k..];
    EncodeConcat(t[..k], t[k..]);
  }

  lemma OffsetsAdd(t: seq<Rune>, j: nat, k: nat)
    requires j <= k <= |t|
    ensures Offset(t, k) == Offset(t, j) + Offset(t[j..], k - j) && Offset(t, k) <= |Encode(t)|
    ensures Encode(t)[Offset(t, j)..Offset(t, k)] == Encode(t[j..k])
  {
    OffsetRises(t, j, k);
    SplitAt(t, k);
    assert t[j..][..k - j] == t[j..k];
    assert Encode(t)[Offset(t, j)..Offset(t, k)] == Encode(t[..k])[Offset(t, j)..];
  }

  lemma OffsetRises(t: seq<Rune>, j: nat, k: nat)
    requires j <= k <= |t|
    ensures Encode(t[..k]) == Encode(t[..j]) + Encode(t[j..k])
    ensures Offset(t, k) >= Offset(t, j) + (k - j)
  {
    assert t[..k] == t[..j] + t[j..k];
    EncodeConcat(t[..j], t[j..k]);
    EncodeIsLong(t[j..k]);
  }

  lemma {:induction false} EncodeIsLong(t: seq<Rune>)
    ensures |Encode(t)| >= |t|
  {
    if t != [] { EncodeIsLong(t[1..]); }
  }

  // ---------------------------------------------------------------- byte matches are code-point matches

  predicate OccursAt<T(==)>(s: seq<T>, q: seq<T>, i: nat) {
    i + |q| <= |s| && s[i..i + |q|] == q
  }

  lemma SameFirstRune(r: Rune, a: Bytes, s: Rune, b: Bytes)
    requires EncodeRune(r) + a == EncodeRune(s) + b
    ensures r == s && a == b
  {
    EncodeDecodes(r, a);
    EncodeDecodes(s, b);
    assert a == (EncodeRune(r) + a)[|EncodeRune(r)|..];
    assert b == (EncodeRune(s) + b)[|EncodeRune(s)|..];
  }

  /** UTF-8 is prefix-free: an encoded prefix is the encoding of a prefix. */
  lemma {:induction false} PrefixDecodes(t: seq<Rune>, q: seq<Rune>, tail: Bytes)
    requires Encode(t) == Encode(q) + tail
    ensures OccursAt(t, q, 0)
  {
    if q != [] {
      assert Encode(q) + tail == EncodeRune(q[0]) + (Encode(q[1..]) + tail);
      SameFirstRune(t[0], Encode(t[1..]), q[0], Encode(q[1..]) + tail);
      PrefixDecodes(t[1..], q[1..], tail);
      assert t == [t[0]] + t[1..] && q == [q[0]] + q[1..];
    }
  }

  /** A match cannot start inside the first code point: its first byte would be a continuation byte. */
  lemma NotInside(t: seq<Rune>, q: seq<Rune>, b: nat)
    requires t != [] && q != [] && 0 < b < |EncodeRune(t[0])|
    ensures !OccursAt(Encode(t), Encode(q), b)
  {
    assert Encode(t)[b] == EncodeRune(t[0])[b];
    assert Encode(q)[0] == EncodeRune(q[0])[0];
  }

  lemma ShiftMatch(a: Bytes, s: Bytes, q: Bytes, b: nat)
    requires |a| <= b && OccursAt(a + s, q, b)
    ensures OccursAt(s, q, b - |a|)
  {
    assert (a + s)[b..b + |q|] == s[b - |a|..b - |a| + |q|];
  }

  /** Every byte match of an encoded query starts between two code points. */
  lemma {:induction false} MatchOnBoundary(t: seq<Rune>, q: seq<Rune>, b: nat) returns (k: nat)
    requires q != [] && OccursAt(Encode(t), Encode(q), b)
    ensures OccursAt(t, q, k) && b == Offset(t, k)
  {
    if b == 0 {
      k := 0;
      PrefixDecodes(t, q, Encode(t)[|Encode(q)|..]);
    } else {
      var w := |EncodeRune(t[0])|;
      if b < w {
        NotInside(t, q, b);
      }
      ShiftMatch(EncodeRune(t[0]), Encode(t[1..]), Encode(q), b);
      var k' := MatchOnBoundary(t[1..], q, b - w);
      k := k' + 1;
      assert t[..k][1..] == t[1..][..k'];
      assert t[k..k + |q|] == t[1..][k'..k' + |q|];
    }
  }

  lemma MatchEncodes(t: seq<Rune>, q: seq<Rune>, k: nat)
    requires OccursAt(t, q, k)
    ensures OccursAt(Encode(t), Encode(q), Offset(t, k))
  {
    hide EncodeRune;
    SplitAt(t, k + |q|);
    OffsetRises(t, k, k + |q|);
    assert Encode(t)[..Offset(t, k + |q|)] == Encode(t[..k]) + Encode(q);
  }

  // ---------------------------------------------------------------- first matches

  /** The first occurrence at or after `from`: `strings.Index`, on bytes or on code points. */
  function First<T(==)>(s: seq<T>, q: seq<T>, from: nat): (r: Option<nat>)
    ensures r.Some? ==> from <= r.value && OccursAt(s, q, r.value)
    ensures r.Some? ==> forall i: nat :: from <= i < r.value ==> !OccursAt(s, q, i)
    ensures r.None? ==> forall i: nat :: from <= i ==> !OccursAt(s, q, i)
    decreases |s| - from
  {
    if from + |q| > |s| then None
    else if OccursAt(s, q, from) then Some(from)
    else First(s, q, from + 1)
  }

  /** The first byte match in the rest of an encoded text is the first code-point match. */
  lemma FirstByteIsFirstRune(t: seq<Rune>, q: seq<Rune>)
    requires q != []
    ensures match First(Encode(t), Encode(q), 0)
            case None => First(t, q, 0).None?
            case Some(b) => First(t, q, 0).Some? && b == Offset(t, First(t, q, 0).value)
  {
    var byRune, byByte := First(t, q, 0), First(Encode(t), Encode(q), 0);
    if byRune.Some? {
      MatchEncodes(t, q, byRune.value);
    }
    if byByte.Some? {
      var k := MatchOnBoundary(t, q, byByte.value);
      if k != byRune.value {
        OffsetRises(t, byRune.value, k);
      }
    }
  }
}
