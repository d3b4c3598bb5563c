/** The title order of the library list: `compareASCIIFold` of internal/storage/bookcache.go, and the
    byte order of IDs that breaks its ties. */
module AsciiFold {

  import opened ByteStrings

  /** ASCII upper case folds to lower case; every other byte stays. */
  function Fold(b: Byte): Byte {
    if 'A' as int <= b <= 'Z' as int then b + 32 else b
  }

  function Sign(n: int): int {
    if n < 0 then -1 else if n > 0 then 1 else 0
  }

  /** The comparison from byte `i` on; an equal NUL byte ends it, and the whole lengths decide. */
  function CompareFrom(a: Bytes, b: Bytes, i: nat): int
    requires i <= |a| && i <= |b|
    decreases |a| - i
  {
    if i == |a| || i == |b| then Sign(|a| - |b|)
    else if Fold(a[i]) != Fold(b[i]) then (if Fold(a[i]) < Fold(b[i]) then -1 else 1)
    else if Fold(a[i]) == 0 then Sign(|a| - |b|)
    else CompareFrom(a, b, i + 1)
  }

  function Compare(a: Bytes, b: Bytes): int {
    CompareFrom(a, b, 0)
  }

  method CompareASCIIFold(a: Bytes, b: Bytes) returns (r: int)
    ensures r == Compare(a, b)
  {
    var n := if |a| < |b| then |a| else |b|;
    for i := 0 to n
      invariant Compare(a, b) == CompareFrom(a, b, i)
    {
      var x, y := a[i], b[i];
      if 'A' as int <= x <= 'Z' as int {
        x := x + 32;
      }
      if 'A' as int <= y <= 'Z' as int {
        y := y + 32;
      }
      if x != y {
        if x < y {
          return -1;
        }
        return 1;
      }
      if x == 0 {
        return if |a| < |b| then -1 else if |a| > |b| then 1 else 0;
      }
    }
    return if |a| < |b| then -1 else if |a| > |b| then 1 else 0;
  }

  // ---------------------------------------------------------------- the order it stands for

  /** The part of a title the comparison looks at: folded bytes up to and including the first NUL. */
  function Key(a: Bytes): Bytes {
    if a == [] then [] else if Fold(a[0]) == 0 then [0] else [Fold(a[0])] + Key(a[1..])
  }

  /** Byte-wise lexicographic order: `strings.Compare`. */
  function Lex(a: Bytes, b: Bytes): int {
    if a == [] && b == [] then 0
    else if a == [] then -1
    else if b == [] then 1
    else if a[0] != b[0] then (if a[0] < b[0] then -1 else 1)
    else Lex(a[1..], b[1..])
  }

  function Then(first: int, second: int): int {
    if first != 0 then first else second
  }

  lemma {:induction false} CompareFromIsKeyOrder(a: Bytes, b: Bytes, i: nat)
    requires i <= |a| && i <= |b|
    ensures CompareFrom(a, b, i) == Then(Lex(Key(a[i..]), Key(b[i..])), Sign(|a| - |b|))
    decreases |a| - i
  {
    if i < |a| && i < |b| && Fold(a[i]) == Fold(b[i]) != 0 {
      assert a[i..][1..] == a[i + 1..] && b[i..][1..] == b[i + 1..];
      assert Key(a[i..])[1..] == Key(a[i + 1..]) && Key(b[i..])[1..] == Key(b[i + 1..]);
      CompareFromIsKeyOrder(a, b, i + 1);
    }
  }

  /** The loop computes the lexicographic order of the keys, then of the lengths. */
  lemma CompareIsKeyOrder(a: Bytes, b: Bytes)
    ensures Compare(a, b) == Then(Lex(Key(a), Key(b)), Sign(|a| - |b|))
  {
    assert a[0..] == a && b[0..] == b;
    CompareFromIsKeyOrder(a, b, 0);
  }

  lemma {:induction false} LexAntisymmetric(a: Bytes, b: Bytes)
    ensures Lex(a, b) == -Lex(b, a)
    ensures Lex(a, b) == 0 <==> a == b
  {
    if a != [] && b != [] && a[0] == b[0] {
      LexAntisymmetric(a[1..], b[1..]);
      assert a == [a[0]] + a[1..] && b == [b[0]] + b[1..];
    }
  }

  lemma {:induction false} LexTransitive(a: Bytes, b: Bytes, c: Bytes)
    requires Lex(a, b) <= 0 && Lex(b, c) <= 0
    ensures Lex(a, c) <= 0 && (Lex(a, b) < 0 || Lex(b, c) < 0 ==> Lex(a, c) < 0)
  {
    if a != [] && b != [] && c != [] && a[0] == b[0] == c[0] {
      LexTransitive(a[1..], b[1..], c[1..]);
    }
  }

  /** Comparing the other way round flips the sign, so any two titles are comparable. */
  lemma CompareAntisymmetric(a: Bytes, b: Bytes)
    ensures Compare(a, b) == -Compare(b, a)
    ensures Compare(a, b) == 0 <==> |a| == |b| && Key(a) == Key(b)
  {
    CompareIsKeyOrder(a, b);
    CompareIsKeyOrder(b, a);
    LexAntisymmetric(Key(a), Key(b));
  }

  lemma CompareTransitive(a: Bytes, b: Bytes, c: Bytes)
    requires Compare(a, b) <= 0 && Compare(b, c) <= 0
    ensures Compare(a, c) <= 0 && (Compare(a, b) < 0 || Compare(b, c) < 0 ==> Compare(a, c) < 0)
  {
    CompareIsKeyOrder(a, b);
    CompareIsKeyOrder(b, c);
    CompareIsKeyOrder(a, c);
    LexTransitive(Key(a), Key(b), Key(c));
  }

  // ---------------------------------------------------------------- which titles come first

  /** The same byte, or the same ASCII letter in another case. */
  predicate SameLetter(x: Byte, y: Byte) {
    x == y || (0x41 <= x <= 0x5A && y == x + 0x20) || (0x41 <= y <= 0x5A && x == y + 0x20)
  }

  /** The titles read alike up to `i`, and neither has ended with a NUL byte. */
  predicate AlikeTo(a: Bytes, b: Bytes, i: nat)
    requires i <= |a| && i <= |b|
  {
    forall j :: 0 <= j < i ==> SameLetter(a[j], b[j]) && a[j] != 0
  }

  lemma {:induction false} SkipAlike(a: Bytes, b: Bytes, i: nat, k: nat)
    requires k <= i <= |a| && i <= |b| && AlikeTo(a, b, i)
    ensures CompareFrom(a, b, k) == CompareFrom(a, b, i)
    decreases i - k
  {
    if k < i {
      assert SameLetter(a[k], b[k]);
      SkipAlike(a, b, i, k + 1);
    }
  }

  /** The first place where two titles differ by more than case decides, by the lower-case bytes; if one
      title ends there, or both have a NUL byte there, the shorter title comes first. */
  lemma FirstDifferenceDecides(a: Bytes, b: Bytes, i: nat)
    requires i <= |a| && i <= |b| && AlikeTo(a, b, i)
    ensures i < |a| && i < |b| && !SameLetter(a[i], b[i]) ==>
              var x := if 0x41 <= a[i] <= 0x5A then a[i] + 0x20 else a[i];
              var y := if 0x41 <= b[i] <= 0x5A then b[i] + 0x20 else b[i];
              x != y && Compare(a, b) == if x < y then -1 else 1
    ensures i == |a| || i == |b| || (a[i] == 0 && b[i] == 0) ==>
              Compare(a, b) == if |a| < |b| then -1 else if |a| > |b| then 1 else 0
  {
    SkipAlike(a, b, i, 0);
  }

  /** The first differing byte of two IDs decides; if there is none, the shorter ID comes first. */
  lemma {:induction false} LexFirstDifference(a: Bytes, b: Bytes, i: nat)
    requires i <= |a| && i <= |b| && a[..i] == b[..i]
    ensures i < |a| && i < |b| && a[i] != b[i] ==> Lex(a, b) == if a[i] < b[i] then -1 else 1
    ensures i == |a| || i == |b| ==> Lex(a, b) == if |a| < |b| then -1 else if |a| > |b| then 1 else 0
  {
    if i > 0 {
      assert a[..i][0] == b[..i][0];
      assert a[1..][..i - 1] == a[..i][1..] && b[1..][..i - 1] == b[..i][1..];
      LexFirstDifference(a[1..], b[1..], i - 1);
    }
  }

  // ---------------------------------------------------------------- titles with ties broken by ID

  function Rank(title: Bytes, id: Bytes, title': Bytes, id': Bytes): int {
    Then(Compare(title, title'), Lex(id, id'))
  }

  /** Two different books never tie. */
  lemma RankAntisymmetric(title: Bytes, id: Bytes, title': Bytes, id': Bytes)
    ensures Rank(title, id, title', id') == -Rank(title', id', title, id)
    ensures id != id' ==> Rank(title, id, title', id') != 0
    ensures Rank(title, id, title, id) == 0
  {
    CompareAntisymmetric(title, title');
    CompareAntisymmetric(title, title);
    LexAntisymmetric(id, id');
    LexAntisymmetric(id, id);
  }

  lemma RankTransitive(t: Bytes, i: Bytes, t': Bytes, i': Bytes, t'': Bytes, i'': Bytes)
    requires Rank(t, i, t', i') <= 0 && Rank(t', i', t'', i'') <= 0
    ensures Rank(t, i, t'', i'') <= 0
    ensures Rank(t, i, t', i') < 0 || Rank(t', i', t'', i'') < 0 ==> Rank(t, i, t'', i'') < 0
  {
    CompareTransitive(t, t', t'');
    if Lex(i, i') <= 0 && Lex(i', i'') <= 0 {
      LexTransitive(i, i', i'');
    }
  }

  /** The title decides, and the ID only between titles that tie. */
  lemma TitleThenId(title: Bytes, id: Bytes, title': Bytes, id': Bytes)
    ensures Compare(title, title') != 0 ==> Rank(title, id, title', id') == Compare(title, title')
    ensures Compare(title, title') == 0 ==> Rank(title, id, title', id') == Lex(id, id')
  {
  }
}
