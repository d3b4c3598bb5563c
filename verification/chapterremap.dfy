/** Moving stored reading positions into a replacement file's chapter numbering:
    `ChapterRemap.Apply` and `remapPositionsTx` of internal/storage/bookreplace.go and
    `buildChapterRemap` of internal/api/bookreplace.go. */
module ChapterRemaps {

  import opened Wrappers

  type Href = string

  datatype ChapterMove = ChapterMove(index: int, keepAnchor: bool)

  datatype ChapterRemap = ChapterRemap(moves: seq<ChapterMove>, newCount: int)

  /** Percent is chapter-relative; the anchor addresses an element inside one chapter document. */
  datatype Position = Position(chapter: int, percent: real, cfi: Option<string>)

  const START := Position(0, 0.0, None)

  function Apply(m: ChapterRemap, pos: Position): Position {
    if m.newCount <= 0 then START
    else if 0 <= pos.chapter < |m.moves| && 0 <= m.moves[pos.chapter].index < m.newCount then
      var move := m.moves[pos.chapter];
      Position(move.index, pos.percent, if move.keepAnchor then pos.cfi else None)
    else if pos.chapter < 0 then START
    else if pos.chapter >= m.newCount then Position(m.newCount - 1, 1.0, None)
    else Position(pos.chapter, pos.percent, None)
  }

  /** The position a write is checked against before it is accepted. */
  predicate Valid(pos: Position, chapterCount: int) {
    0 <= pos.chapter < chapterCount && 0.0 <= pos.percent <= 1.0
  }

  /** A position moved into a non-empty replacement passes that file's validation, and keeps its
      percent unless its chapter index lies outside the new file. */
  lemma ApplyIsValid(m: ChapterRemap, pos: Position)
    requires m.newCount > 0 && 0.0 <= pos.percent <= 1.0
    ensures Valid(Apply(m, pos), m.newCount)
    ensures 0 <= pos.chapter < m.newCount ==> Apply(m, pos).percent == pos.percent
  {
  }

  // ---------------------------------------------------------------- building a remap

  function FirstIndex(spine: seq<Href>, href: Href): (r: int)
    ensures -1 <= r < |spine|
    ensures r >= 0 ==> spine[r] == href && forall j :: 0 <= j < r ==> spine[j] != href
    ensures r < 0 ==> href !in spine
  {
    if spine == [] then -1
    else if spine[0] == href then 0
    else
      var r := FirstIndex(spine[1..], href);
      assert forall j :: 1 <= j < |spine| ==> spine[j] == spine[1..][j - 1];
      if r < 0 then -1 else r + 1
  }

  /** Where chapter `i` of the old spine lives: at the first new entry with the same document. */
  function MoveOf(oldSpine: seq<Href>, newSpine: seq<Href>, i: nat): ChapterMove
    requires i < |oldSpine|
  {
    var j := FirstIndex(newSpine, oldSpine[i]);
    if j >= 0 then ChapterMove(j, true) else ChapterMove(-1, false)
  }

  function Remap(oldSpine: seq<Href>, newSpine: seq<Href>): ChapterRemap {
    ChapterRemap(seq(|oldSpine|, i requires 0 <= i < |oldSpine| => MoveOf(oldSpine, newSpine, i)), |newSpine|)
  }

  /** The source's three loops: index the new spine, match the old one, and fall back. */
  method BuildChapterRemap(oldSpine: seq<Href>, newSpine: seq<Href>) returns (remap: ChapterRemap)
    ensures remap == Remap(oldSpine, newSpine)
  {
    var newIndex: map<Href, int> := map[];
    for i := 0 to |newSpine|
      invariant forall h :: h in newIndex <==> h in newSpine[..i]
      invariant forall h :: h in newIndex ==> newIndex[h] == FirstIndex(newSpine, h)
    {
      assert newSpine[..i + 1] == newSpine[..i] + [newSpine[i]];
      if newSpine[i] !in newIndex {
        FirstIndexIs(newSpine, i);
        newIndex := newIndex[newSpine[i] := i];
      }
    }
    assert newSpine[..|newSpine|] == newSpine;
    var moves: seq<ChapterMove> := [];
    var matched := false;
    for i := 0 to |oldSpine|
      invariant |moves| == i
      invariant forall k :: 0 <= k < i ==> moves[k] == MoveOf(oldSpine, newSpine, k)
      invariant !matched ==> forall k :: 0 <= k < i ==> moves[k] == ChapterMove(-1, false)
    {
      if oldSpine[i] in newIndex {
        moves := moves + [ChapterMove(newIndex[oldSpine[i]], true)];
        matched := true;
      } else {
        moves := moves + [ChapterMove(-1, false)];
      }
    }
    if !matched {
      ghost var before := moves;
      for i := 0 to |moves|
        invariant moves == before
      {
        moves := moves[i := ChapterMove(-1, false)];
      }
    }
    remap := ChapterRemap(moves, |newSpine|);
  }

  lemma FirstIndexIs(spine: seq<Href>, i: nat)
    requires i < |spine| && spine[i] !in spine[..i]
    ensures FirstIndex(spine, spine[i]) == i
  {
    assert forall j :: 0 <= j < i ==> spine[..i][j] == spine[j];
  }

  /** Where every position goes: with its document to the first place that lists it, anchor and percent
      included; without one to the same chapter number, its anchor dropped; past the end of a shorter file
      to the end of its last chapter; and to the start if there is no such place. */
  lemma EveryPositionMoves(oldSpine: seq<Href>, newSpine: seq<Href>, pos: Position)
    ensures var r := Apply(Remap(oldSpine, newSpine), pos);
            if 0 <= pos.chapter < |oldSpine| && oldSpine[pos.chapter] in newSpine then
              && 0 <= r.chapter < |newSpine| && newSpine[r.chapter] == oldSpine[pos.chapter]
              && oldSpine[pos.chapter] !in newSpine[..r.chapter]
              && r.percent == pos.percent && r.cfi == pos.cfi
            else if newSpine == [] || pos.chapter < 0 then r == Position(0, 0.0, None)
            else if pos.chapter >= |newSpine| then r == Position(|newSpine| - 1, 1.0, None)
            else r == Position(pos.chapter, pos.percent, None)
  {
  }

  /** An anchor survives only into the very document it was taken from. */
  lemma AnchorKeepsItsDocument(oldSpine: seq<Href>, newSpine: seq<Href>, pos: Position)
    ensures var r := Apply(Remap(oldSpine, newSpine), pos);
            r.cfi.Some? ==> 0 <= pos.chapter < |oldSpine| && 0 <= r.chapter < |newSpine|
                            && newSpine[r.chapter] == oldSpine[pos.chapter] && r.cfi == pos.cfi
  {
  }

  /** Installing a file with the same spine leaves a position alone exactly when its chapter is the
      first one of its document (a spine may list a document twice). */
  lemma SameSpineMovesNothing(spine: seq<Href>, pos: Position)
    requires 0 <= pos.chapter < |spine|
    ensures Apply(Remap(spine, spine), pos) == pos <==> FirstIndex(spine, spine[pos.chapter]) == pos.chapter
  {
    assert spine[pos.chapter] in spine;
  }

  /** Replacing a file and replacing it back returns every position whose document both files have,
      anchor included. */
  lemma ReplaceRoundTrip(oldSpine: seq<Href>, newSpine: seq<Href>, pos: Position)
    requires 0 <= pos.chapter < |oldSpine|
    requires FirstIndex(oldSpine, oldSpine[pos.chapter]) == pos.chapter
    requires oldSpine[pos.chapter] in newSpine
    ensures Apply(Remap(newSpine, oldSpine), Apply(Remap(oldSpine, newSpine), pos)) == pos
  {
  }

  /** A serial that only gained chapters at its end moves nothing. */
  lemma AppendedChaptersMoveNothing(spine: seq<Href>, more: seq<Href>, pos: Position)
    requires 0 <= pos.chapter < |spine|
    requires FirstIndex(spine, spine[pos.chapter]) == pos.chapter
    ensures Apply(Remap(spine, spine + more), pos) == pos
  {
    var all := spine + more;
    assert all[pos.chapter] == spine[pos.chapter];
    assert all[..pos.chapter] == spine[..pos.chapter];
    assert spine[pos.chapter] !in spine[..pos.chapter] by {
      assert forall j :: 0 <= j < pos.chapter ==> spine[j] != spine[pos.chapter];
    }
    FirstIndexIs(all, pos.chapter);
  }

  // ---------------------------------------------------------------- the rows of a transaction

  /** A table of stored positions, by row key. */
  class PositionTable {
    var rows: map<string, Position>

    /** `remapPositionsTx`: the rows are read in full, then each one that moves is updated. */
    method RemapPositions(remap: ChapterRemap)
      modifies this
      ensures rows == map k | k in old(rows) :: Apply(remap, old(rows)[k])
    {
      ghost var before := rows;
      var all := rows;
      var todo := rows.Keys;
      while todo != {}
        invariant todo <= before.Keys && rows.Keys == before.Keys
        invariant forall k :: k in before ==> rows[k] == if k in todo then before[k] else Apply(remap, before[k])
        decreases todo
      {
        var key :| key in todo;
        todo := todo - {key};
        var next := Apply(remap, all[key]);
        if next == all[key] {
          continue;
        }
        rows := rows[key := next];
      }
    }
  }
}
