/** Where the code points of an index sit in the text nodes: `DOMSegment` and `isAllSpaceLike` of
    frontend/src/iframe/searchHighlight.ts, and what the index walk guarantees of the segments it records. */
module Segments {

  import opened Utf8
  import opened Collapsing
  import opened Wrappers

  /** `id` stands for the node's identity; the walk meets the nodes in ascending order. */
  datatype TextNode = TextNode(id: nat, data: seq<Rune>)

  /** A stretch of one text node, in UTF-16 code units. */
  datatype Segment = Segment(node: TextNode, start: nat, end: nat)

  function Utf16Width(r: Rune): nat {
    if r < 0x10000 then 1 else 2
  }

  function Utf16Length(s: seq<Rune>): nat {
    if s == [] then 0 else Utf16Length(s[..|s| - 1]) + Utf16Width(s[|s| - 1])
  }

  /** Code point `k` reaches into the stretch. */
  predicate Overlaps(data: seq<Rune>, k: nat, from: nat, to: nat)
    requires k < |data|
  {
    from < to && from < Utf16Length(data[..k + 1]) && Utf16Length(data[..k]) < to
  }

  /** The stretch is white space only.  Half a code point never is. */
  predicate Blank(data: seq<Rune>, from: nat, to: nat) {
    forall k :: 0 <= k < |data| && Overlaps(data, k, from, to) ==> IsSpace(data[k])
  }

  /** `isAllSpaceLike` on a slice. */
  method IsAllSpaceLike(data: seq<Rune>, from: nat, to: nat) returns (blank: bool)
    ensures blank <==> Blank(data, from, to)
  {
    var offset := 0;
    for k := 0 to |data|
      invariant offset == Utf16Length(data[..k])
      invariant forall j :: 0 <= j < k && Overlaps(data, j, from, to) ==> IsSpace(data[j])
    {
      assert data[..k + 1][..k] == data[..k];
      var start := offset;
      offset := offset + Utf16Width(data[k]);
      if from < to && from < offset && start < to && !IsSpace(data[k]) {
        assert Overlaps(data, k, from, to);
        return false;
      }
    }
    return true;
  }

  lemma {:induction false} LengthRises(data: seq<Rune>, i: nat, j: nat)
    requires i < j <= |data|
    ensures Utf16Length(data[..i]) < Utf16Length(data[..j])
    decreases j
  {
    assert data[..j][..j - 1] == data[..j - 1];
    if i < j - 1 {
      LengthRises(data, i, j - 1);
    }
  }

  /** One more blank code point. */
  lemma BlankExtends(data: seq<Rune>, from: nat, i: nat)
    requires i < |data| && IsSpace(data[i]) && Blank(data, from, Utf16Length(data[..i]))
    ensures Blank(data, from, Utf16Length(data[..i + 1]))
  {
    hide IsSpace, Utf16Length;
    forall k | 0 <= k < |data| && Overlaps(data, k, from, Utf16Length(data[..i + 1])) ensures IsSpace(data[k]) {
      if k > i + 1 {
        LengthRises(data, i + 1, k);
      } else if k < i {
        LengthRises(data, k, i);
        if k + 1 < i { LengthRises(data, k + 1, i); }
        assert Overlaps(data, k, from, Utf16Length(data[..i]));
      }
    }
  }

  // ---------------------------------------------------------------- the segments of an index

  /** The segments of an index range; collapsed white space has none. */
  function Present(index: seq<Option<Segment>>): seq<Segment> {
    if index == [] then []
    else
      var last := index[|index| - 1];
      Present(index[..|index| - 1]) + (if last.None? then [] else [last.value])
  }

  /** `b` lies in a later node, or behind `a` in the same one with nothing but white space between. */
  predicate Follows(a: Segment, b: Segment) {
    || a.node.id < b.node.id
    || (a.node == b.node && a.end <= b.start && Blank(b.node.data, a.end, b.start))
  }

  /** What the walk records: no segment is empty, and each follows the one before. */
  predicate Recorded(segs: seq<Segment>) {
    && (forall i :: 0 <= i < |segs| ==> segs[i].start < segs[i].end)
    && (forall i :: 0 < i < |segs| ==> Follows(segs[i - 1], segs[i]))
  }

  /** The walk has got to code point `i` of a node: since the last segment there was only white space. */
  predicate Reached(segs: seq<Segment>, node: TextNode, i: nat) {
    && i <= |node.data|
    && (segs == []
        || segs[|segs| - 1].node.id < node.id
        || (&& segs[|segs| - 1].node == node && segs[|segs| - 1].end <= Utf16Length(node.data[..i])
            && Blank(node.data, segs[|segs| - 1].end, Utf16Length(node.data[..i]))))
  }

  lemma PresentGrows(index: seq<Option<Segment>>, segment: Option<Segment>)
    ensures Present(index + [segment]) == if segment.None? then Present(index) else Present(index) + [segment.value]
  {
    assert (index + [segment])[..|index|] == index;
  }

  /** A blank code point is passed. */
  lemma PassBlank(segs: seq<Segment>, node: TextNode, i: nat)
    requires Reached(segs, node, i) && i < |node.data| && IsSpace(node.data[i])
    ensures Reached(segs, node, i + 1)
  {
    hide Blank, Utf16Length, IsSpace;
    LengthRises(node.data, i, i + 1);
    if segs != [] && segs[|segs| - 1].node == node && Blank(node.data, segs[|segs| - 1].end, Utf16Length(node.data[..i])) {
      BlankExtends(node.data, segs[|segs| - 1].end, i);
    }
  }

  /** Any other code point is recorded. */
  lemma RecordOne(segs: seq<Segment>, node: TextNode, i: nat)
    requires Recorded(segs) && Reached(segs, node, i) && i < |node.data|
    ensures var s := Segment(node, Utf16Length(node.data[..i]), Utf16Length(node.data[..i + 1]));
            Recorded(segs + [s]) && Reached(segs + [s], node, i + 1)
  {
    hide Utf16Length;
    LengthRises(node.data, i, i + 1);
  }

  lemma {:induction false} PresentConcat(a: seq<Option<Segment>>, b: seq<Option<Segment>>)
    ensures Present(a + b) == Present(a) + Present(b)
    decreases |b|
  {
    if b == [] {
      assert a + b == a;
    } else {
      hide Present;
      var init, last := b[..|b| - 1], b[|b| - 1];
      PresentConcat(a, init);
      assert b == init + [last] && a + b == (a + init) + [last];
      PresentGrows(init, last);
      PresentGrows(a + init, last);
    }
  }

  /** Any index range of what the walk recorded is recorded in the same way. */
  lemma RangeIsRecorded(index: seq<Option<Segment>>, start: nat, end: nat)
    requires start <= end <= |index| && Recorded(Present(index))
    ensures Recorded(Present(index[start..end]))
  {
    hide Follows, Present;
    var a, b, c := Present(index[..start]), Present(index[start..end]), Present(index[end..]);
    PresentConcat(index[..start], index[start..end]);
    PresentConcat(index[..start] + index[start..end], index[end..]);
    assert index == index[..start] + index[start..end] + index[end..];
    var all := a + b + c;
    forall i | 0 <= i < |b| ensures b[i].start < b[i].end && (i > 0 ==> Follows(b[i - 1], b[i])) {
      assert b[i] == all[|a| + i];
      assert i > 0 ==> b[i - 1] == all[|a| + i - 1];
    }
  }
}
