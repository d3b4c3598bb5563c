/** The count- and byte-bounded LRU cache of internal/epub/store.go.  The recency list `order` holds the
    key/value/size pairs, most recently used first, and `items` is the index into it. */
module LruCache {

  // Every method is proved against a function on the recency list; the theorems in the middle of the
  // module are about those functions, for one operation and for arbitrary operation sequences.

  import opened Basics
  import opened Wrappers

  datatype Entry<K, V> = Entry(key: K, val: V, size: nat)

  /** The limits fixed at construction.  `sized` is false for a cache without a size function. */
  datatype Limits = Limits(cap: nat, sized: bool, byteCap: nat)

  ghost predicate ValidLimits(l: Limits) {
    l.cap >= 1 && (l.sized ==> l.byteCap >= 1)
  }

  ghost predicate Distinct<K, V>(s: seq<Entry<K, V>>) {
    forall i, j :: 0 <= i < j < |s| ==> s[i].key != s[j].key
  }

  /** The position of `key`, or -1. */
  function IndexOf<K(==), V>(s: seq<Entry<K, V>>, key: K): (r: int)
    ensures -1 <= r < |s|
    ensures r >= 0 ==> s[r].key == key
    ensures forall i :: 0 <= i < |s| && (i < r || r < 0) ==> s[i].key != key
  {
    if s == [] then -1
    else if s[0].key == key then 0
    else
      var r := IndexOf(s[1..], key);
      assert forall i :: 1 <= i < |s| ==> s[i] == s[1..][i - 1];
      if r < 0 then -1 else r + 1
  }

  /** `s` without the entry for `key`. */
  function Without<K(==), V>(s: seq<Entry<K, V>>, key: K): seq<Entry<K, V>> {
    var i := IndexOf(s, key);
    if i < 0 then s else RemoveAt(s, i)
  }

  ghost function Total<K, V>(s: seq<Entry<K, V>>): nat {
    if s == [] then 0 else Total(s[..|s| - 1]) + s[|s| - 1].size
  }

  ghost predicate Fits<K, V>(l: Limits, s: seq<Entry<K, V>>) {
    |s| <= l.cap && (l.sized ==> Total(s) <= l.byteCap)
  }

  /** Drops least recently used entries, one at a time, until both limits hold. */
  ghost function Shrink<K, V>(l: Limits, s: seq<Entry<K, V>>): seq<Entry<K, V>> {
    if Fits(l, s) || s == [] then s else Shrink(l, s[..|s| - 1])
  }

  ghost function Kept<K, V>(s: seq<Entry<K, V>>, keep: K -> bool): seq<Entry<K, V>> {
    if s == [] then []
    else if keep(s[0].key) then [s[0]] + Kept(s[1..], keep)
    else Kept(s[1..], keep)
  }

  ghost function AfterGet<K, V>(s: seq<Entry<K, V>>, key: K): seq<Entry<K, V>> {
    var i := IndexOf(s, key);
    if i < 0 then s else [s[i]] + RemoveAt(s, i)
  }

  ghost predicate Admitted(l: Limits, size: nat) {
    l.sized ==> size <= l.byteCap
  }

  ghost function AfterPut<K, V>(l: Limits, s: seq<Entry<K, V>>, e: Entry<K, V>): seq<Entry<K, V>> {
    if Admitted(l, e.size) then Shrink(l, [e] + Without(s, e.key)) else Without(s, e.key)
  }

  // ---------------------------------------------------------------- basic facts

  lemma {:induction false} TotalSplit<K, V>(a: seq<Entry<K, V>>, b: seq<Entry<K, V>>)
    ensures Total(a + b) == Total(a) + Total(b)
  {
    if b == [] {
      assert a + b == a;
    } else {
      assert (a + b)[..|a + b| - 1] == a + b[..|b| - 1];
      TotalSplit(a, b[..|b| - 1]);
    }
  }

  lemma TotalOfOne<K, V>(e: Entry<K, V>)
    ensures Total([e]) == e.size
  {
    assert [e][..0] == [];
  }

  lemma TotalPush<K, V>(e: Entry<K, V>, s: seq<Entry<K, V>>)
    ensures Total([e] + s) == e.size + Total(s)
  {
    TotalSplit([e], s);
    TotalOfOne(e);
  }

  lemma {:induction false} TotalRemoveAt<K, V>(s: seq<Entry<K, V>>, i: nat)
    requires i < |s|
    ensures Total(s) == s[i].size + Total(RemoveAt(s, i))
  {
    var n := |s| - 1;
    if i == n {
      assert RemoveAt(s, i) == s[..n];
    } else {
      TotalRemoveAt(s[..n], i);
      assert RemoveAt(s, i)[..n - 1] == RemoveAt(s[..n], i);
    }
  }

  lemma TotalOfPrefix<K, V>(s: seq<Entry<K, V>>, m: nat, n: nat)
    requires m <= n <= |s|
    ensures Total(s[..m]) <= Total(s[..n])
  {
    assert s[..n] == s[..m] + s[m..n];
    TotalSplit(s[..m], s[m..n]);
  }

  lemma RemoveAtDistinct<K, V>(s: seq<Entry<K, V>>, i: nat)
    requires i < |s| && Distinct(s)
    ensures Distinct(RemoveAt(s, i))
    ensures IndexOf(RemoveAt(s, i), s[i].key) < 0
  {
    var r := RemoveAt(s, i);
  }

  lemma PushDistinct<K, V>(e: Entry<K, V>, s: seq<Entry<K, V>>)
    requires Distinct(s) && IndexOf(s, e.key) < 0
    ensures Distinct([e] + s)
  {
    var all := [e] + s;
    forall i, j | 0 <= i < j < |all| ensures all[i].key != all[j].key {
      assert all[j] == s[j - 1];
    }
  }

  lemma WithoutFacts<K, V>(l: Limits, s: seq<Entry<K, V>>, key: K)
    requires Distinct(s)
    ensures Distinct(Without(s, key)) && IndexOf(Without(s, key), key) < 0
    ensures Fits(l, s) ==> Fits(l, Without(s, key))
  {
    var i := IndexOf(s, key);
    if i >= 0 {
      RemoveAtDistinct(s, i);
      TotalRemoveAt(s, i);
    }
  }

  /** `Shrink` returns a prefix; it fits, and the next longer prefix does not. */
  lemma {:induction false} ShrinkIsAPrefix<K, V>(l: Limits, s: seq<Entry<K, V>>)
    ensures Shrink(l, s) <= s
    ensures Fits(l, Shrink(l, s)) || Shrink(l, s) == []
    ensures |Shrink(l, s)| < |s| ==> !Fits(l, s[..|Shrink(l, s)| + 1])
  {
    if !(Fits(l, s) || s == []) {
      var t := s[..|s| - 1];
      ShrinkIsAPrefix(l, t);
      var n := |Shrink(l, s)|;
      if n < |t| {
        assert t[..n + 1] == s[..n + 1];
      } else {
        assert s[..n + 1] == s;
      }
    }
  }

  // ---------------------------------------------------------------- the theorem about `Put`

  /** After an admitted `Put`, the cache holds exactly the longest most-recently-used prefix that
      fits both budgets, and the entry just stored is its first element: neither of the two
      defensive breaks of the eviction loop can be reached. */
  lemma PutKeepsLongestPrefix<K, V>(l: Limits, s: seq<Entry<K, V>>, e: Entry<K, V>)
    requires ValidLimits(l) && Admitted(l, e.size)
    ensures var all := [e] + Without(s, e.key); var r := AfterPut(l, s, e);
            && r <= all && Fits(l, r) && |r| >= 1 && r[0] == e
            && forall n :: 0 <= n <= |all| && Fits(l, all[..n]) ==> n <= |r|
  {
    var all, r := [e] + Without(s, e.key), AfterPut(l, s, e);
    ShrinkIsAPrefix(l, all);
    assert all[..1] == [e];
    TotalOfOne(e);
    assert Fits(l, all[..1]);
    assert r != [];
    forall n | 0 <= n <= |all| && Fits(l, all[..n])
      ensures n <= |r|
    {
      if n > |r| {
        TotalOfPrefix(all, |r| + 1, n);
        assert Fits(l, all[..|r| + 1]);
      }
    }
  }

  // ---------------------------------------------------------------- runs

  datatype Op<!K, V> =
    | Get(key: K)
    | Put(key: K, val: V)
    | Delete(key: K)
    | DeleteFunc(keep: K -> bool)
    | Clear

  ghost function Apply<K, V>(l: Limits, sizeOf: V -> nat, s: seq<Entry<K, V>>, op: Op<K, V>): seq<Entry<K, V>> {
    match op
    case Get(key) => AfterGet(s, key)
    case Put(key, val) => AfterPut(l, s, Entry(key, val, if l.sized then sizeOf(val) else 0))
    case Delete(key) => Without(s, key)
    case DeleteFunc(keep) => Kept(s, keep)
    case Clear => []
  }

  ghost function Run<K, V>(l: Limits, sizeOf: V -> nat, ops: seq<Op<K, V>>): seq<Entry<K, V>> {
    if ops == [] then [] else Apply(l, sizeOf, Run(l, sizeOf, ops[..|ops| - 1]), ops[|ops| - 1])
  }

  /** The value of the last `Put` for `key`, forgotten when the key was deleted explicitly since. */
  ghost function LastPut<K, V>(ops: seq<Op<K, V>>, key: K): Option<V> {
    if ops == [] then None
    else
      var op := ops[|ops| - 1];
      var before := LastPut(ops[..|ops| - 1], key);
      match op
      case Get(_) => before
      case Put(k, v) => if k == key then Some(v) else before
      case Delete(k) => if k == key then None else before
      case DeleteFunc(keep) => if keep(key) then before else None
      case Clear => None
  }

  /** What holds of every entry after the operations `ops`. */
  ghost predicate Truthful<K, V>(l: Limits, sizeOf: V -> nat, ops: seq<Op<K, V>>, e: Entry<K, V>) {
    && e.size == (if l.sized then sizeOf(e.val) else 0)
    && LastPut(ops, e.key) == Some(e.val)
  }

  ghost predicate AllTruthful<K, V>(l: Limits, sizeOf: V -> nat, ops: seq<Op<K, V>>, s: seq<Entry<K, V>>) {
    forall e :: e in s ==> Truthful(l, sizeOf, ops, e)
  }

  lemma {:induction false} KeptElements<K, V>(s: seq<Entry<K, V>>, keep: K -> bool)
    ensures forall e :: e in Kept(s, keep) ==> e in s && keep(e.key)
  {
    if s != [] {
      KeptElements(s[1..], keep);
    }
  }

  lemma {:induction false} KeptDistinct<K, V>(s: seq<Entry<K, V>>, keep: K -> bool)
    requires Distinct(s)
    ensures Distinct(Kept(s, keep))
  {
    if s != [] {
      var t := s[1..];
      KeptDistinct(t, keep);
      KeptElements(t, keep);
      if keep(s[0].key) {
        PushDistinct(s[0], Kept(t, keep));
      }
    }
  }

  /** One step of a walk from the back that drops what `keep` refuses. */
  lemma KeptStep<K, V>(s: seq<Entry<K, V>>, keep: K -> bool, el: nat)
    requires el < |s|
    ensures var before := s[..el + 1] + Kept(s[el + 1..], keep); var after := s[..el] + Kept(s[el..], keep);
            && before[el] == s[el]
            && after == if keep(s[el].key) then before else RemoveAt(before, el)
  {
    assert s[el..][1..] == s[el + 1..];
    assert s[..el + 1] == s[..el] + [s[el]];
  }

  lemma {:induction false} KeptFits<K, V>(s: seq<Entry<K, V>>, keep: K -> bool)
    ensures |Kept(s, keep)| <= |s| && Total(Kept(s, keep)) <= Total(s)
  {
    if s != [] {
      KeptFits(s[1..], keep);
      assert s == [s[0]] + s[1..];
      TotalPush(s[0], s[1..]);
      TotalPush(s[0], Kept(s[1..], keep));
    }
  }

  lemma StepGet<K, V>(l: Limits, s: seq<Entry<K, V>>, key: K)
    requires Distinct(s) && Fits(l, s)
    ensures Distinct(AfterGet(s, key)) && Fits(l, AfterGet(s, key))
    ensures Total(AfterGet(s, key)) == Total(s) && |AfterGet(s, key)| == |s|
  {
    var i := IndexOf(s, key);
    if i >= 0 {
      RemoveAtDistinct(s, i);
      PushDistinct(s[i], RemoveAt(s, i));
      TotalRemoveAt(s, i);
      TotalPush(s[i], RemoveAt(s, i));
    }
  }

  lemma GetElements<K, V>(s: seq<Entry<K, V>>, key: K)
    ensures forall x :: x in AfterGet(s, key) ==> x in s
  {
    var i := IndexOf(s, key);
    forall x | x in AfterGet(s, key) ensures x in s {
      if i >= 0 && x != s[i] {
        assert x in RemoveAt(s, i);
      }
    }
  }

  lemma StepPut<K, V>(l: Limits, s: seq<Entry<K, V>>, e: Entry<K, V>)
    requires ValidLimits(l) && Distinct(s) && Fits(l, s)
    ensures Distinct(AfterPut(l, s, e)) && Fits(l, AfterPut(l, s, e))
  {
    WithoutFacts(l, s, e.key);
    PushDistinct(e, Without(s, e.key));
    if Admitted(l, e.size) {
      PutKeepsLongestPrefix(l, s, e);
    }
  }

  lemma WithoutElements<K, V>(s: seq<Entry<K, V>>, key: K)
    requires Distinct(s)
    ensures forall x :: x in Without(s, key) ==> x in s && x.key != key
  {
    var i := IndexOf(s, key);
    forall x | x in Without(s, key) ensures x in s && x.key != key {
      if i >= 0 {
        var k :| 0 <= k < |s| - 1 && RemoveAt(s, i)[k] == x;
      }
    }
  }

  lemma PutElements<K, V>(l: Limits, s: seq<Entry<K, V>>, e: Entry<K, V>)
    requires Distinct(s)
    ensures forall x :: x in AfterPut(l, s, e) ==> (Admitted(l, e.size) && x == e) || (x in s && x.key != e.key)
  {
    WithoutElements(s, e.key);
    ShrinkIsAPrefix(l, [e] + Without(s, e.key));
    forall x | x in AfterPut(l, s, e)
      ensures (Admitted(l, e.size) && x == e) || (x in s && x.key != e.key)
    {
      assert Admitted(l, e.size) ==> x in [e] + Without(s, e.key);
    }
  }

  /** Whatever the history of the cache: keys are distinct, both budgets hold, every stored size
      is the size of the stored value, and every stored value is the one last put for its key.
      So a `Get` answers with the last value put for the key, or misses. */
  lemma {:induction false} RunInvariant<K, V>(l: Limits, sizeOf: V -> nat, ops: seq<Op<K, V>>)
    requires ValidLimits(l)
    ensures var s := Run(l, sizeOf, ops);
            Distinct(s) && Fits(l, s) && AllTruthful(l, sizeOf, ops, s)
  {
    if ops != [] {
      var prior, op := ops[..|ops| - 1], ops[|ops| - 1];
      RunInvariant(l, sizeOf, prior);
      var s := Run(l, sizeOf, prior);
      match op
      case Get(key) =>
        StepGet(l, s, key);
        GetElements(s, key);
      case Put(key, val) =>
        StepPut(l, s, Entry(key, val, if l.sized then sizeOf(val) else 0));
        PutElements(l, s, Entry(key, val, if l.sized then sizeOf(val) else 0));
      case Delete(key) =>
        WithoutFacts(l, s, key);
        WithoutElements(s, key);
      case DeleteFunc(keep) =>
        KeptElements(s, keep);
        KeptDistinct(s, keep);
        KeptFits(s, keep);
      case Clear =>
    }
  }

  // ---------------------------------------------------------------- what each operation leaves

  /** The entries of the other keys, in their order. */
  ghost function Others<K, V>(s: seq<Entry<K, V>>, key: K): seq<Entry<K, V>> {
    if s == [] then [] else (if s[0].key == key then [] else [s[0]]) + Others(s[1..], key)
  }

  lemma {:induction false} OthersOfAbsent<K, V>(s: seq<Entry<K, V>>, key: K)
    requires forall i :: 0 <= i < |s| ==> s[i].key != key
    ensures Others(s, key) == s
  {
    if s != [] {
      OthersOfAbsent(s[1..], key);
      assert s == [s[0]] + s[1..];
    }
  }

  lemma {:induction false} WithoutIsOthers<K, V>(s: seq<Entry<K, V>>, key: K)
    requires Distinct(s)
    ensures Without(s, key) == Others(s, key)
  {
    if s != [] {
      if s[0].key == key {
        OthersOfAbsent(s[1..], key);
        assert RemoveAt(s, 0) == s[1..];
      } else {
        WithoutIsOthers(s[1..], key);
        var i := IndexOf(s[1..], key);
        assert i >= 0 ==> RemoveAt(s, i + 1) == [s[0]] + RemoveAt(s[1..], i);
        assert s == [s[0]] + s[1..];
      }
    }
  }

  /** A hit moves its entry to the front, a miss changes nothing, a deletion and a refused `Put` take away
      the entry of the key, and an admitted `Put` puts the new one in front of the others and keeps the
      longest stretch that fits.  No other entry changes or moves. */
  lemma OperationsAreExact<K, V>(l: Limits, sizeOf: V -> nat, s: seq<Entry<K, V>>, key: K, val: V)
    requires ValidLimits(l) && Distinct(s)
    ensures var r := Apply(l, sizeOf, s, Get(key));
            && (IndexOf(s, key) < 0 ==> r == s)
            && (forall i :: 0 <= i < |s| && s[i].key == key ==> r == [s[i]] + Others(s, key))
    ensures Apply(l, sizeOf, s, Delete(key)) == Others(s, key)
    ensures var size := if l.sized then sizeOf(val) else 0;
            var r := Apply(l, sizeOf, s, Put(key, val));
            if l.sized && size > l.byteCap then r == Others(s, key)
            else
              var all := [Entry(key, val, size)] + Others(s, key);
              r <= all && Fits(l, r) && |r| >= 1 && forall n :: 0 <= n <= |all| && Fits(l, all[..n]) ==> n <= |r|
  {
    WithoutIsOthers(s, key);
    forall i | 0 <= i < |s| && s[i].key == key ensures Apply(l, sizeOf, s, Get(key)) == [s[i]] + Others(s, key) {
      assert IndexOf(s, key) == i;
    }
    var e := Entry(key, val, if l.sized then sizeOf(val) else 0);
    if Admitted(l, e.size) { PutKeepsLongestPrefix(l, s, e); }
  }

  /** `DeleteFunc` filters: it decides entry by entry, and keeps the order. */
  lemma {:induction false} KeptIsFilter<K, V>(a: seq<Entry<K, V>>, b: seq<Entry<K, V>>, keep: K -> bool)
    ensures Kept(a + b, keep) == Kept(a, keep) + Kept(b, keep)
    ensures |a| == 1 ==> Kept(a, keep) == if keep(a[0].key) then a else []
  {
    if a == [] {
      assert a + b == b;
    } else {
      assert (a + b)[1..] == a[1..] + b;
      KeptIsFilter(a[1..], b, keep);
    }
  }

  // ---------------------------------------------------------------- recency

  /** The number of the last operation that asked for the key or stored it. */
  ghost function LastUse<K, V>(ops: seq<Op<K, V>>, key: K): nat {
    if ops == [] then 0
    else
      match ops[|ops| - 1]
      case Get(k) => if k == key then |ops| else LastUse(ops[..|ops| - 1], key)
      case Put(k, _) => if k == key then |ops| else LastUse(ops[..|ops| - 1], key)
      case _ => LastUse(ops[..|ops| - 1], key)
  }

  ghost predicate ByUse<K, V>(ops: seq<Op<K, V>>, s: seq<Entry<K, V>>) {
    forall i, j :: 0 <= i < j < |s| ==> LastUse(ops, s[i].key) > LastUse(ops, s[j].key)
  }

  lemma {:induction false} UsedBefore<K, V>(ops: seq<Op<K, V>>, key: K)
    ensures LastUse(ops, key) <= |ops|
  {
    if ops != [] { UsedBefore(ops[..|ops| - 1], key); }
  }

  lemma {:induction false} OthersMembers<K, V>(s: seq<Entry<K, V>>, key: K, x: Entry<K, V>)
    ensures x in Others(s, key) <==> x in s && x.key != key
  {
    if s != [] { OthersMembers(s[1..], key, x); }
  }

  lemma {:induction false} OthersByUse<K, V>(ops: seq<Op<K, V>>, s: seq<Entry<K, V>>, key: K)
    requires ByUse(ops, s)
    ensures ByUse(ops, Others(s, key))
  {
    if s != [] {
      var rest := Others(s[1..], key);
      OthersByUse(ops, s[1..], key);
      forall j | 0 <= j < |rest| && s[0].key != key ensures LastUse(ops, s[0].key) > LastUse(ops, rest[j].key) {
        OthersMembers(s[1..], key, rest[j]);
        var k :| 0 <= k < |s[1..]| && s[1..][k] == rest[j];
      }
    }
  }

  lemma {:induction false} KeptByUse<K, V>(ops: seq<Op<K, V>>, s: seq<Entry<K, V>>, keep: K -> bool)
    requires ByUse(ops, s)
    ensures ByUse(ops, Kept(s, keep))
  {
    if s != [] {
      var rest := Kept(s[1..], keep);
      KeptByUse(ops, s[1..], keep);
      KeptElements(s[1..], keep);
      forall j | 0 <= j < |rest| && keep(s[0].key) ensures LastUse(ops, s[0].key) > LastUse(ops, rest[j].key) {
        assert rest[j] in s[1..];
        var k :| 0 <= k < |s[1..]| && s[1..][k] == rest[j];
      }
    }
  }

  /** An operation on a key makes it the most recently used one, and leaves the others in order. */
  lemma UseComesFirst<K, V>(ops: seq<Op<K, V>>, op: Op<K, V>, key: K, e: Entry<K, V>, s: seq<Entry<K, V>>)
    requires ByUse(ops, s) && e.key == key && (op == Get(key) || (op.Put? && op.key == key))
    ensures ByUse(ops + [op], Others(s, key)) && ByUse(ops + [op], [e] + Others(s, key))
  {
    var rest := Others(s, key);
    assert (ops + [op])[..|ops|] == ops;
    OthersByUse(ops, s, key);
    forall i | 0 <= i < |rest|
      ensures LastUse(ops + [op], rest[i].key) == LastUse(ops, rest[i].key) < LastUse(ops + [op], key)
    {
      OthersMembers(s, key, rest[i]);
      UsedBefore(ops, rest[i].key);
    }
  }

  lemma OtherOpsKeepUse<K, V>(ops: seq<Op<K, V>>, op: Op<K, V>, s: seq<Entry<K, V>>)
    requires ByUse(ops, s)
    requires !op.Put? && (op.Get? ==> forall i :: 0 <= i < |s| ==> s[i].key != op.key)
    ensures ByUse(ops + [op], s)
  {
    assert (ops + [op])[..|ops|] == ops;
  }

  /** Whatever the history, the list runs from the most to the least recently used key, so that eviction
      takes the least recently used entries. */
  lemma {:induction false} ListIsByUse<K, V>(l: Limits, sizeOf: V -> nat, ops: seq<Op<K, V>>)
    requires ValidLimits(l)
    ensures ByUse(ops, Run(l, sizeOf, ops))
  {
    if ops != [] {
      var prior, op := ops[..|ops| - 1], ops[|ops| - 1];
      ListIsByUse(l, sizeOf, prior);
      RunInvariant(l, sizeOf, prior);
      assert ops == prior + [op];
      OperationKeepsUse(l, sizeOf, prior, op, Run(l, sizeOf, prior));
    }
  }

  lemma OperationKeepsUse<K, V>(l: Limits, sizeOf: V -> nat, ops: seq<Op<K, V>>, op: Op<K, V>, s: seq<Entry<K, V>>)
    requires ValidLimits(l) && Distinct(s) && ByUse(ops, s)
    ensures ByUse(ops + [op], Apply(l, sizeOf, s, op))
  {
    hide LastUse, Fits;
    match op
    case Get(key) =>
      OperationsAreExactGet(l, sizeOf, s, key);
      var i := IndexOf(s, key);
      if i < 0 { OtherOpsKeepUse(ops, op, s); } else { UseComesFirst(ops, op, key, s[i], s); }
    case Put(key, val) =>
      var e := Entry(key, val, if l.sized then sizeOf(val) else 0);
      WithoutIsOthers(s, key);
      UseComesFirst(ops, op, key, e, s);
      ShrinkIsAPrefix(l, [e] + Others(s, key));
    case Delete(key) =>
      WithoutIsOthers(s, key);
      OthersByUse(ops, s, key);
      OtherOpsKeepUse(ops, op, Others(s, key));
    case DeleteFunc(keep) =>
      KeptByUse(ops, s, keep);
      OtherOpsKeepUse(ops, op, Kept(s, keep));
    case Clear =>
  }

  lemma OperationsAreExactGet<K, V>(l: Limits, sizeOf: V -> nat, s: seq<Entry<K, V>>, key: K)
    requires Distinct(s)
    ensures var i := IndexOf(s, key);
            Apply(l, sizeOf, s, Get(key)) == if i < 0 then s else [s[i]] + Others(s, key)
  {
    WithoutIsOthers(s, key);
  }

  // ---------------------------------------------------------------- the cache

  /** `items` indexes exactly the entries of `order`, one entry per key. */
  ghost predicate Indexed<K, V>(order: seq<Entry<K, V>>, items: map<K, Entry<K, V>>) {
    if order == [] then items == map[]
    else
      var key := order[0].key;
      key in items && items[key] == order[0] && Indexed(order[1..], items - {key})
  }

  lemma {:induction false} IndexedLookup<K, V>(order: seq<Entry<K, V>>, items: map<K, Entry<K, V>>, key: K)
    requires Indexed(order, items)
    ensures key in items <==> IndexOf(order, key) >= 0
    ensures key in items ==> items[key] == order[IndexOf(order, key)]
  {
    if order != [] && order[0].key != key {
      IndexedLookup(order[1..], items - {order[0].key}, key);
    }
  }

  lemma {:induction false} IndexedDistinct<K, V>(order: seq<Entry<K, V>>, items: map<K, Entry<K, V>>)
    requires Indexed(order, items)
    ensures Distinct(order)
  {
    if order != [] {
      IndexedDistinct(order[1..], items - {order[0].key});
      IndexedLookup(order[1..], items - {order[0].key}, order[0].key);
      PushDistinct(order[0], order[1..]);
      assert order == [order[0]] + order[1..];
    }
  }

  lemma {:induction false} IndexedRemove<K, V>(order: seq<Entry<K, V>>, items: map<K, Entry<K, V>>, i: nat)
    requires Indexed(order, items) && i < |order|
    ensures Indexed(RemoveAt(order, i), items - {order[i].key})
  {
    var key, first := order[i].key, order[0].key;
    if i == 0 {
      assert RemoveAt(order, i) == order[1..];
    } else {
      IndexedDistinct(order, items);
      IndexedRemove(order[1..], items - {first}, i - 1);
      assert RemoveAt(order, i)[1..] == RemoveAt(order[1..], i - 1);
      assert items - {key} - {first} == items - {first} - {key};
    }
  }

  lemma IndexedPush<K, V>(order: seq<Entry<K, V>>, items: map<K, Entry<K, V>>, e: Entry<K, V>)
    requires Indexed(order, items) && IndexOf(order, e.key) < 0
    ensures Indexed([e] + order, items[e.key := e])
  {
    IndexedLookup(order, items, e.key);
    assert items[e.key := e] - {e.key} == items;
    assert ([e] + order)[1..] == order;
  }

  /** While the budgets are exceeded there is an entry behind the one just stored. */
  lemma NeverReachesTheNewEntry<K, V>(l: Limits, s: seq<Entry<K, V>>)
    requires ValidLimits(l) && |s| >= 1 && Admitted(l, s[0].size)
    requires !Fits(l, s)
    ensures |s| >= 2 && (Distinct(s) ==> s[|s| - 1].key != s[0].key)
    ensures RemoveAt(s, |s| - 1) == s[..|s| - 1]
    ensures Shrink(l, s) == Shrink(l, s[..|s| - 1])
  {
    if |s| == 1 {
      assert s == [s[0]];
      TotalOfOne(s[0]);
    }
  }

  class LRUCache<K(==), V(0)> {
    const limits: Limits
    const sizeOf: V -> nat
    var items: map<K, Entry<K, V>>
    var order: seq<Entry<K, V>>  // front (most recently used) first
    var bytes: int

    ghost predicate Valid()
      reads this
    {
      && ValidLimits(limits)
      && Indexed(order, items)
      && bytes == Total(order)
      && Fits(limits, order)
    }

    constructor (capacity: int, sized: bool, byteCap: int, sizeOf: V -> nat)
      ensures Valid() && order == []
      ensures limits == Limits(Max(capacity, 1), sized, if sized then Max(byteCap, 1) else 0)
      ensures this.sizeOf == sizeOf
    {
      limits := Limits(Max(capacity, 1), sized, if sized then Max(byteCap, 1) else 0);
      this.sizeOf := sizeOf;
      items, order, bytes := map[], [], 0;
    }

    function ValueSize(val: V): nat {
      if limits.sized then sizeOf(val) else 0
    }

    predicate OverBudget()
      reads this
    {
      |order| > limits.cap || (limits.sized && bytes > limits.byteCap)
    }

    /** Unlinks the entry at position `i` from both structures. */
    method Unlink(i: nat)
      requires i < |order| && Indexed(order, items) && bytes == Total(order)
      modifies this
      ensures order == old(RemoveAt(order, i)) && items == old(items - {order[i].key})
      ensures Indexed(order, items) && bytes == Total(order)
    {
      IndexedRemove(order, items, i);
      TotalRemoveAt(order, i);
      var item := order[i];
      bytes := bytes - item.size;
      order := RemoveAt(order, i);
      items := items - {item.key};
    }

    /** Links `e` at the front of the recency list. */
    method PushFront(e: Entry<K, V>)
      requires IndexOf(order, e.key) < 0 && Indexed(order, items) && bytes == Total(order)
      modifies this
      ensures order == [e] + old(order) && items == old(items)[e.key := e]
      ensures Indexed(order, items) && bytes == Total(order)
    {
      IndexedPush(order, items, e);
      TotalPush(e, order);
      order := [e] + order;
      items := items[e.key := e];
      bytes := bytes + e.size;
    }

    method Get(key: K) returns (val: V, ok: bool)
      requires Valid()
      modifies this
      ensures Valid() && order == AfterGet(old(order), key)
      ensures ok <==> old(IndexOf(order, key)) >= 0
      ensures ok ==> |order| > 0 && order[0].key == key && val == order[0].val
    {
      IndexedLookup(order, items, key);
      IndexedDistinct(order, items);
      if key !in items {
        var zero: V := *;
        return zero, false;
      }
      StepGet(limits, order, key);
      var i := IndexOf(order, key);
      var e := items[key];
      RemoveAtDistinct(order, i);
      Unlink(i);
      PushFront(e);
      return e.val, true;
    }

    method Put(key: K, val: V)
      requires Valid()
      modifies this
      ensures Valid() && order == AfterPut(limits, old(order), Entry(key, val, ValueSize(val)))
    {
      var size := ValueSize(val);
      var e := Entry(key, val, size);
      ghost var was := order;
      IndexedLookup(order, items, key);
      IndexedDistinct(order, items);
      WithoutFacts(limits, order, key);
      StepPut(limits, order, e);
      if key in items {
        Unlink(IndexOf(order, key));
      }
      assert order == Without(was, key);
      if limits.sized && size > limits.byteCap {
        return;
      }
      PushFront(e);
      EvictExcess(key);
    }

    /** The eviction loop of `Put`, entered with the entry for `key` just linked at the front. */
    method EvictExcess(key: K)
      requires ValidLimits(limits) && Indexed(order, items) && bytes == Total(order)
      requires |order| >= 1 && order[0].key == key && Admitted(limits, order[0].size)
      modifies this
      ensures order == Shrink(limits, old(order))
      ensures Indexed(order, items) && bytes == Total(order)
    {
      ghost var all := order;
      while OverBudget()
        invariant Indexed(order, items) && bytes == Total(order)
        invariant order <= all
        invariant Shrink(limits, order) == Shrink(limits, all)
        invariant |order| >= 1 && order[0] == all[0]
        decreases |order|
      {
        NeverReachesTheNewEntry(limits, order);
        IndexedDistinct(order, items);
        if |order| == 0 {
          assert false;
          break;
        }
        var back := |order| - 1;
        if order[back].key == key {
          assert false;
          break;
        }
        Unlink(back);
      }
    }

    method Delete(key: K) returns (val: V, ok: bool)
      requires Valid()
      modifies this
      ensures Valid() && order == Without(old(order), key)
      ensures ok <==> old(IndexOf(order, key)) >= 0
      ensures ok ==> val == old(order)[IndexOf(old(order), key)].val
    {
      IndexedLookup(order, items, key);
      IndexedDistinct(order, items);
      WithoutFacts(limits, order, key);
      if key !in items {
        var zero: V := *;
        return zero, false;
      }
      val, ok := items[key].val, true;
      Unlink(IndexOf(order, key));
    }

    method DeleteFunc(keep: K -> bool)
      requires Valid()
      modifies this
      ensures Valid() && order == Kept(old(order), keep)
    {
      ghost var was := order;
      KeptFits(was, keep);
      var el := |order|;
      while el > 0
        invariant 0 <= el <= |was|
        invariant Indexed(order, items) && bytes == Total(order)
        invariant order == was[..el] + Kept(was[el..], keep)
      {
        el := el - 1;
        KeptStep(was, keep, el);
        if !keep(order[el].key) {
          Unlink(el);
        }
      }
      assert was[0..] == was && was[..0] + Kept(was, keep) == Kept(was, keep);
    }

    method Clear()
      requires Valid()
      modifies this
      ensures Valid() && order == []
    {
      items, order, bytes := map[], [], 0;
    }
  }
}
