/** The whole way from the lines of two files to the reported edits. */
module DiffFile {
  import opened Marks
  import opened Interning
  import opened Compress
  import opened Shift
  import opened Hunks
  import opened Report
  import opened Matches
  import opened Verdict

  /** The marks are those of some longest common subsequence, shifted by a pass without scores. */
  ghost predicate ShiftedDiff(ids1: seq<int>, ids2: seq<int>, change1: seq<bool>, change2: seq<bool>)
  {
    exists before1, before2 ::
      Longest(ids1, ids2, before1, before2)
      && Shifted(ids1, NoScore, before1, change1) && Shifted(ids2, NoScore, before2, change2)
  }

  /**
    * What a diff of lines promises. The ids stand for the lines, the marks leave a longest match and
    * cannot be shifted, and the edits that they give, in groups, make of file 1 what agrees with file 2.
    */
  ghost predicate Diffed(eq: (Line, Line) -> bool, lines1: seq<Line>, lines2: seq<Line>, ignoreBlank: bool,
                         context: nat,
                         hunks: seq<seq<DiffOp>>, changed: bool,
                         ids1: seq<nat>, ids2: seq<nat>, change1: seq<bool>, change2: seq<bool>)
  {
    && |ids1| == |lines1| == |change1| && |ids2| == |lines2| == |change2|
    && SameIds(eq, lines1 + lines2, ids1 + ids2) && ZeroIsBlank(eq, ignoreBlank, lines1 + lines2, ids1 + ids2)
    && ShiftedDiff(ids1, ids2, change1, change2)
    && Settled(ids1, change1, |ids1|) && Settled(ids2, change2, |ids2|)
    && LongestMatch(eq, lines1, lines2, change1, change2)
    && |Kept(lines1, change1)| == MatchLength(eq, lines1, lines2)
    && hunks == HunksOf(Changes(ids1, ids2, change1, change2, 0, 0), context, |lines1|, |lines2|)
    && Reported(ids1, ids2, change1, change2, Flatten(hunks), |lines1|, |lines2|, changed)
    && Agree(eq, ignoreBlank, Patch(lines1, lines2, Flatten(hunks), |lines1|), lines2)
    && Judged(eq, ignoreBlank, lines1, lines2, change1, changed)
    && (!ignoreBlank ==> Matching(eq, Patch(lines1, lines2, Flatten(hunks), |lines1|), lines2))
    && (!ignoreBlank ==> (changed <==> !Matching(eq, lines1, lines2)))
  }

  method MarkLines(info1: LinesData, info2: LinesData, maxId1: nat, maxId2: nat)
    requires Fresh(info1, info2)
    requires AtMost(info1.ids[..], maxId1) && AtMost(info2.ids[..], maxId2)
    modifies info1, info2, info1.change, info2.change
    ensures Longest(info1.ids[..], info2.ids[..], info1.change[..], info2.change[..])
    ensures ShiftedDiff(info1.ids[..], info2.ids[..], info1.change[..], info2.change[..])
    ensures Settled(info1.ids[..], info1.change[..], info1.ids.Length)
    ensures Settled(info2.ids[..], info2.change[..], info2.ids.Length)
  {
    assert forall i :: 0 <= i < info1.ids.Length ==> info1.ids[i] == info1.ids[..][i];
    assert forall i :: 0 <= i < info2.ids.Length ==> info2.ids[i] == info2.ids[..][i];
    DiffLines(info1, info2, maxId1, maxId2);
    ghost var ids1, ids2, before1, before2 := info1.ids[..], info2.ids[..], info1.change[..], info2.change[..];
    ShiftBoundaries(info1.ids[..], info1.change, NoScore);
    ShiftBoundaries(info2.ids[..], info2.change, NoScore);
    assert ids1 == info1.ids[..] && ids2 == info2.ids[..];
    LongestOfSameKept(ids1, ids2, before1, before2, info1.change[..], info2.change[..]);
    assert ShiftedDiff(ids1, ids2, info1.change[..], info2.change[..]);
  }

  /** The diff of two files' lines. The ghost results are the ids and marks that the edits are made from. */
  method DiffFile(lines1: seq<Line>, lines2: seq<Line>, eq: (Line, Line) -> bool, hash: Line -> nat, ignoreBlank: bool,
                  context: nat)
    returns (chg: DiffChanger, changed: bool, ghost ids1: seq<nat>, ghost ids2: seq<nat>, ghost change1: seq<bool>,
             ghost change2: seq<bool>)
    requires Equivalence(eq) && Consistent(eq, hash)
    ensures Diffed(eq, lines1, lines2, ignoreBlank, context, chg.hunks, changed, ids1, ids2, change1, change2)
    ensures Agree(eq, ignoreBlank, Patch(lines1, lines2, Flatten(chg.hunks), |lines1|), lines2)
    ensures !changed ==> Agree(eq, ignoreBlank, lines1, lines2)
    ensures !ignoreBlank ==> (changed <==> !Matching(eq, lines1, lines2))
  {
    var a1, a2, maxId1, maxId2 := FindIds(lines1, lines2, eq, hash, ignoreBlank);
    ids1, ids2 := a1[..], a2[..];
    var info1 := new LinesData(a1);
    var info2 := new LinesData(a2);
    MarkLines(info1, info2, maxId1, maxId2);
    change1, change2 := info1.change[..], info2.change[..];
    LongestOfLines(eq, lines1, lines2, ids1, ids2, change1, change2);
    KeptIsMatchLength(eq, lines1, lines2, change1, change2);
    chg := new DiffChanger();
    changed := ReportDiff(chg, info1.ids[..], info2.ids[..], info1.change[..], info2.change[..], context);
    PatchAgrees(eq, ignoreBlank, lines1, lines2, ids1, ids2, change1, change2, Flatten(chg.hunks), changed);
    VerdictIff(eq, ignoreBlank, lines1, lines2, ids1, ids2, change1, change2, Flatten(chg.hunks), changed);
    if !ignoreBlank {
      PatchOfLines(eq, lines1, lines2, ids1, ids2, change1, change2, Flatten(chg.hunks), changed);
      ChangedIff(eq, lines1, lines2, ids1, ids2, change1, change2, Flatten(chg.hunks), changed);
    }
  }
}
