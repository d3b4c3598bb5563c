/** Which stretches of text nodes a match is highlighted in: the run merging of `wrapIndexRangeInMarks`
    in frontend/src/iframe/searchHighlight.ts. */
module Marks {

  import opened Segments
  import opened Wrappers

  /** The next segment extends a run: same node, behind it, and nothing but white space between. */
  predicate Joins(run: Segment, s: Segment) {
    run.node == s.node && run.end <= s.start && (run.end == s.start || Blank(s.node.data, run.end, s.start))
  }

  function Merge(runs: seq<Segment>, s: Segment): seq<Segment> {
    if runs != [] && Joins(runs[|runs| - 1], s) then
      runs[..|runs| - 1] + [Segment(s.node, runs[|runs| - 1].start, s.end)]
    else runs + [s]
  }

  function MergeAll(segs: seq<Segment>): seq<Segment> {
    if segs == [] then [] else Merge(MergeAll(segs[..|segs| - 1]), segs[|segs| - 1])
  }

  lemma OneMore(index: seq<Option<Segment>>, start: nat, i: nat)
    requires start <= i < |index|
    ensures MergeAll(Present(index[start..i + 1]))
         == if index[i].None? then MergeAll(Present(index[start..i]))
            else Merge(MergeAll(Present(index[start..i])), index[i].value)
  {
    var segs := Present(index[start..i]);
    assert index[start..i + 1] == index[start..i] + [index[i]];
    PresentGrows(index[start..i], index[i]);
    if index[i].Some? {
      assert (segs + [index[i].value])[..|segs|] == segs;
    }
  }

  lemma NoneYet(index: seq<Option<Segment>>, start: nat)
    requires start <= |index|
    ensures MergeAll(Present(index[start..start])) == []
  {
  }

  /** One segment: it extends the run before it, or starts a new one. */
  method AddSegment(runs: seq<Segment>, s: Segment) returns (r: seq<Segment>)
    ensures r == Merge(runs, s)
  {
    if |runs| > 0 {
      var previous := runs[|runs| - 1];
      if previous.node == s.node && previous.end <= s.start {
        var joins := previous.end == s.start;
        if !joins {
          joins := IsAllSpaceLike(s.node.data, previous.end, s.start);
        }
        if joins {
          return runs[..|runs| - 1] + [Segment(s.node, previous.start, s.end)];
        }
      }
    }
    return runs + [s];
  }

  /** The merging loop. */
  method MergeRuns(index: seq<Option<Segment>>, start: nat, end: nat) returns (runs: seq<Segment>)
    requires start <= end <= |index|
    ensures runs == MergeAll(Present(index[start..end]))
  {
    hide Present, MergeAll, Merge;
    runs := [];
    NoneYet(index, start);
    for i := start to end
      invariant runs == MergeAll(Present(index[start..i]))
    {
      OneMore(index, start, i);
      if index[i].Some? {
        runs := AddSegment(runs, index[i].value);
      }
    }
  }

  // ---------------------------------------------------------------- what the runs cover

  ghost predicate Proper(segs: seq<Segment>) {
    forall i :: 0 <= i < |segs| ==> segs[i].start < segs[i].end
  }

  /** The last run ends where the last segment does. */
  lemma {:induction false} LastRun(segs: seq<Segment>)
    requires Proper(segs) && segs != []
    ensures var runs := MergeAll(segs);
            && runs != [] && runs[|runs| - 1].node == segs[|segs| - 1].node
            && runs[|runs| - 1].end == segs[|segs| - 1].end && runs[|runs| - 1].start <= segs[|segs| - 1].start
            && runs[|runs| - 1].start < runs[|runs| - 1].end
  {
    if |segs| > 1 {
      LastRun(segs[..|segs| - 1]);
    }
  }

  predicate Within(s: Segment, run: Segment) {
    s.node == run.node && run.start <= s.start && s.end <= run.end
  }

  /** Merging only lets runs grow. */
  lemma MergeGrows(before: seq<Segment>, s: Segment, r: nat)
    requires r < |before| && s.start < s.end
    ensures r < |Merge(before, s)| && Within(before[r], Merge(before, s)[r])
  {
  }

  /** Every segment of the match lies in a run. */
  lemma {:induction false} EverySegmentIsMarked(segs: seq<Segment>, i: nat) returns (r: nat)
    requires Proper(segs) && i < |segs|
    ensures r < |MergeAll(segs)| && Within(segs[i], MergeAll(segs)[r])
  {
    if i == |segs| - 1 {
      LastRun(segs);
      r := |MergeAll(segs)| - 1;
    } else {
      hide Merge;
      r := EverySegmentIsMarked(segs[..|segs| - 1], i);
      MergeGrows(MergeAll(segs[..|segs| - 1]), segs[|segs| - 1], r);
    }
  }

  /** An offset inside a segment, or in white space between two neighbouring segments. */
  predicate AccountedAt(segs: seq<Segment>, node: TextNode, x: nat, i: nat) {
    && i < |segs| && segs[i].node == node
    && (|| segs[i].start <= x < segs[i].end
        || (&& i + 1 < |segs| && segs[i + 1].node == node && segs[i].end <= x < segs[i + 1].start
            && Blank(node.data, segs[i].end, segs[i + 1].start)))
  }

  /** What an offset inside a merged run can be: in the run before, in the new segment, or in the white
      space the merge bridged. */
  lemma MergeBridges(before: seq<Segment>, s: Segment, r: nat, x: nat)
    requires r < |Merge(before, s)| && s.start < s.end
    requires Merge(before, s)[r].start <= x < Merge(before, s)[r].end
    ensures var run := Merge(before, s)[r];
            || (r < |before| && before[r].node == run.node && before[r].start <= x < before[r].end)
            || (s.node == run.node && s.start <= x < s.end)
            || (r == |before| - 1 && s.node == run.node == before[r].node && before[r].end <= x < s.start
                && Blank(s.node.data, before[r].end, s.start))
  {
  }

  /** A run swallows nothing but segments of the match and white space between them. */
  lemma {:induction false} RunsHoldNothingElse(segs: seq<Segment>, r: nat, x: nat) returns (i: nat)
    requires Proper(segs) && r < |MergeAll(segs)|
    requires MergeAll(segs)[r].start <= x < MergeAll(segs)[r].end
    ensures AccountedAt(segs, MergeAll(segs)[r].node, x, i)
  {
    hide Merge;
    var init, s := segs[..|segs| - 1], segs[|segs| - 1];
    var before := MergeAll(init);
    MergeBridges(before, s, r, x);
    if s.node == MergeAll(segs)[r].node && s.start <= x < s.end {
      i := |segs| - 1;
    } else if r < |before| && before[r].start <= x < before[r].end {
      i := RunsHoldNothingElse(init, r, x);
    } else {
      LastRun(init);
      i := |segs| - 2;
    }
  }

  /** Segments of one node come in ascending order, as the index walk records them. */
  ghost predicate InOrder(segs: seq<Segment>) {
    forall i, j :: 0 <= i < j < |segs| && segs[i].node == segs[j].node ==> segs[i].end <= segs[j].start
  }

  /** Every run ends by a segment of its node. */
  lemma {:induction false} RunEndsAtSegment(segs: seq<Segment>, r: nat) returns (i: nat)
    requires Proper(segs) && r < |MergeAll(segs)|
    ensures i < |segs| && segs[i].node == MergeAll(segs)[r].node && segs[i].end == MergeAll(segs)[r].end
  {
    var init := segs[..|segs| - 1];
    if r == |MergeAll(segs)| - 1 {
      LastRun(segs);
      i := |segs| - 1;
    } else {
      i := RunEndsAtSegment(init, r);
    }
  }

  /** Merging moves no start, and adds at most one run. */
  lemma MergeShape(before: seq<Segment>, s: Segment)
    ensures |before| <= |Merge(before, s)| <= |before| + 1
    ensures forall r :: 0 <= r < |before| ==>
              Merge(before, s)[r].node == before[r].node && Merge(before, s)[r].start == before[r].start
    ensures forall r :: 0 <= r < |Merge(before, s)| - 1 ==> Merge(before, s)[r].end == before[r].end
    ensures |Merge(before, s)| > |before| ==> Merge(before, s)[|before|] == s
  {
    hide Blank;
  }

  /** Two marks never overlap, and later marks of a node come later. */
  lemma {:induction false} RunsAreDisjoint(segs: seq<Segment>, q: nat, r: nat)
    requires Proper(segs) && InOrder(segs) && q < r < |MergeAll(segs)|
    requires MergeAll(segs)[q].node == MergeAll(segs)[r].node
    ensures MergeAll(segs)[q].end <= MergeAll(segs)[r].start
  {
    hide Merge, Blank;
    var init, s := segs[..|segs| - 1], segs[|segs| - 1];
    var before := MergeAll(init);
    assert InOrder(init);
    MergeShape(before, s);
    if r < |before| {
      RunsAreDisjoint(init, q, r);
    } else {
      var i := RunEndsAtSegment(init, q);
      assert segs[i].end <= s.start;
    }
  }

  // ---------------------------------------------------------------- marks in an index the walk recorded

  /** Segments in walk order are ascending within each node. */
  lemma {:induction false} FollowersAscend(segs: seq<Segment>, i: nat, j: nat)
    requires Recorded(segs) && i < j < |segs|
    ensures segs[i].node.id <= segs[j].node.id
    ensures segs[i].node.id == segs[j].node.id ==> segs[i].node == segs[j].node && segs[i].end <= segs[j].start
    decreases j
  {
    hide Blank;
    assert Follows(segs[j - 1], segs[j]);
    if i < j - 1 {
      FollowersAscend(segs, i, j - 1);
    }
  }

  /** What the theorems above ask for holds of every index range the walk recorded. */
  lemma RecordedInOrder(index: seq<Option<Segment>>, start: nat, end: nat)
    requires start <= end <= |index| && Recorded(Present(index))
    ensures Proper(Present(index[start..end])) && InOrder(Present(index[start..end]))
  {
    hide Present, Follows;
    var segs := Present(index[start..end]);
    RangeIsRecorded(index, start, end);
    forall i, j | 0 <= i < j < |segs| && segs[i].node == segs[j].node ensures segs[i].end <= segs[j].start {
      FollowersAscend(segs, i, j);
    }
  }

  ghost predicate NodesAscend(runs: seq<Segment>) {
    forall q, r :: 0 <= q < r < |runs| ==> runs[q].node.id < runs[r].node.id
  }

  lemma MergeAscends(runs: seq<Segment>, last: Segment, s: Segment)
    requires NodesAscend(runs) && runs != [] && Follows(last, s)
    requires runs[|runs| - 1].node == last.node && runs[|runs| - 1].end == last.end
    ensures NodesAscend(Merge(runs, s))
  {
    hide Blank;
  }

  lemma {:induction false} RunsAscend(segs: seq<Segment>)
    requires Recorded(segs)
    ensures NodesAscend(MergeAll(segs))
  {
    if |segs| > 1 {
      hide Merge, Follows;
      var init, last, s := segs[..|segs| - 1], segs[|segs| - 2], segs[|segs| - 1];
      RunsAscend(init);
      assert Follows(last, s);
      LastRun(init);
      MergeAscends(MergeAll(init), last, s);
    } else if |segs| == 1 {
      assert MergeAll(segs[..0]) == [];
    }
  }

  /** A match is marked by exactly one run in each text node it touches, in document order, whatever
      white space the index collapsed: highlighting never leaves a gap inside a node. */
  lemma OneRunPerNode(index: seq<Option<Segment>>, start: nat, end: nat)
    requires start <= end <= |index| && Recorded(Present(index))
    ensures NodesAscend(MergeAll(Present(index[start..end])))
  {
    RangeIsRecorded(index, start, end);
    RunsAscend(Present(index[start..end]));
  }
}
