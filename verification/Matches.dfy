/** Lines and the ids that stand for them: what holds of the ids holds of the lines. */
module Matches {
  import opened Marks
  import opened Lcs
  import opened Interning
  import opened Hunks
  import opened Report

  /** Two line sequences of the same length with equivalent lines at each position. */
  ghost predicate Matching(eq: (Line, Line) -> bool, s: seq<Line>, t: seq<Line>)
  {
    |s| == |t| && forall i :: 0 <= i < |s| ==> eq(s[i], t[i])
  }

  /** The unmarked lines match, and no two markings whose unmarked lines match leave more. */
  ghost predicate LongestMatch(eq: (Line, Line) -> bool, lines1: seq<Line>, lines2: seq<Line>, change1: seq<bool>,
                               change2: seq<bool>)
  {
    && |lines1| == |change1| && |lines2| == |change2|
    && Matching(eq, Kept(lines1, change1), Kept(lines2, change2))
    && forall other1, other2 :: |lines1| == |other1| && |lines2| == |other2|
                                && Matching(eq, Kept(lines1, other1), Kept(lines2, other2)) ==>
         |Kept(lines1, other1)| <= |Kept(lines1, change1)|
  }

  /** x is the id of every line equivalent to l, among all lines. */
  ghost predicate Stands(eq: (Line, Line) -> bool, lines: seq<Line>, ids: seq<nat>, l: Line, x: int)
  {
    && |lines| == |ids| && x in ids
    && forall q :: 0 <= q < |lines| ==> (ids[q] == x <==> eq(l, lines[q]))
  }

  /** The ids stand for the lines, position by position. */
  ghost predicate StandFor(eq: (Line, Line) -> bool, lines: seq<Line>, ids: seq<nat>, s: seq<Line>, t: seq<int>)
  {
    |s| == |t| && forall i :: 0 <= i < |s| ==> Stands(eq, lines, ids, s[i], t[i])
  }

  lemma {:induction false} KeptStands(eq: (Line, Line) -> bool, lines: seq<Line>, ids: seq<nat>, s: seq<Line>,
                                      t: seq<int>, m: seq<bool>)
    requires StandFor(eq, lines, ids, s, t) && |m| == |s|
    ensures StandFor(eq, lines, ids, Kept(s, m), Kept(t, m))
  {
    if s != [] {
      var n := |s| - 1;
      KeptStands(eq, lines, ids, s[..n], t[..n], m[..n]);
      if !m[n] {
        StandForAppend(eq, lines, ids, Kept(s[..n], m[..n]), Kept(t[..n], m[..n]), [s[n]], [t[n]]);
      }
    }
  }

  lemma StandForAppend(eq: (Line, Line) -> bool, lines: seq<Line>, ids: seq<nat>, s: seq<Line>, t: seq<int>,
                       s': seq<Line>, t': seq<int>)
    requires StandFor(eq, lines, ids, s, t) && StandFor(eq, lines, ids, s', t')
    ensures StandFor(eq, lines, ids, s + s', t + t')
  {
  }

  lemma {:induction false} PatchStands(eq: (Line, Line) -> bool, lines: seq<Line>, ids: seq<nat>,
                                       s1: seq<Line>, t1: seq<int>, s2: seq<Line>, t2: seq<int>,
                                       ops: seq<DiffOp>, i: int)
    requires StandFor(eq, lines, ids, s1, t1) && StandFor(eq, lines, ids, s2, t2)
    ensures StandFor(eq, lines, ids, Patch(s1, s2, ops, i), Patch(t1, t2, ops, i))
    decreases |ops|
  {
    if ops != [] {
      var n := |ops| - 1;
      var e := ops[n];
      PatchStands(eq, lines, ids, s1, t1, s2, t2, ops[..n], if e.op.Same? then i else e.start1);
      if !e.op.Same? {
        var s, t := Patch(s1, s2, ops[..n], e.start1), Patch(t1, t2, ops[..n], e.start1);
        StandForAppend(eq, lines, ids, s, t, Slice(s2, e.start2, e.end2), Slice(t2, e.start2, e.end2));
        StandForAppend(eq, lines, ids, s + Slice(s2, e.start2, e.end2), t + Slice(t2, e.start2, e.end2),
                       Slice(s1, e.end1, i), Slice(t1, e.end1, i));
      }
    }
  }

  /** Lines with the same ids match, and the other way round. */
  lemma StandsMatching(eq: (Line, Line) -> bool, lines: seq<Line>, ids: seq<nat>, s1: seq<Line>, t1: seq<int>,
                       s2: seq<Line>, t2: seq<int>)
    requires Equivalence(eq) && StandFor(eq, lines, ids, s1, t1) && StandFor(eq, lines, ids, s2, t2)
    ensures Matching(eq, s1, s2) <==> t1 == t2
  {
    if |s1| == |s2| {
      forall i | 0 <= i < |s1|
        ensures eq(s1[i], s2[i]) <==> t1[i] == t2[i]
      {
        StandsSame(eq, lines, ids, s1[i], t1[i], s2[i], t2[i]);
      }
    }
  }

  lemma StandsSame(eq: (Line, Line) -> bool, lines: seq<Line>, ids: seq<nat>, l1: Line, x1: int, l2: Line, x2: int)
    requires Equivalence(eq) && Stands(eq, lines, ids, l1, x1) && Stands(eq, lines, ids, l2, x2)
    ensures eq(l1, l2) <==> x1 == x2
  {
    var q :| 0 <= q < |ids| && ids[q] == x1;
    assert eq(l1, lines[q]) && eq(lines[q], l1);
    if x1 == x2 {
      assert eq(l2, lines[q]) && eq(lines[q], l2);
    }
    if eq(l1, l2) {
      assert eq(lines[q], l2) && eq(l2, lines[q]);
    }
  }

  lemma InternedStand(eq: (Line, Line) -> bool, lines1: seq<Line>, lines2: seq<Line>, ids1: seq<nat>, ids2: seq<nat>)
    requires |lines1| == |ids1| && |lines2| == |ids2| && SameIds(eq, lines1 + lines2, ids1 + ids2)
    ensures StandFor(eq, lines1 + lines2, ids1 + ids2, lines1, ids1)
    ensures StandFor(eq, lines1 + lines2, ids1 + ids2, lines2, ids2)
  {
    var lines, ids := lines1 + lines2, ids1 + ids2;
    forall p | 0 <= p < |lines|
      ensures Stands(eq, lines, ids, lines[p], ids[p])
    {
    }
    forall i | 0 <= i < |lines1|
      ensures Stands(eq, lines, ids, lines1[i], ids1[i])
    {
      assert Stands(eq, lines, ids, lines[i], ids[i]);
    }
    forall i | 0 <= i < |lines2|
      ensures Stands(eq, lines, ids, lines2[i], ids2[i])
    {
      assert Stands(eq, lines, ids, lines[|lines1| + i], ids[|lines1| + i]);
    }
  }

  /** A longest common subsequence of the ids is a longest match of the lines. */
  lemma LongestOfLines(eq: (Line, Line) -> bool, lines1: seq<Line>, lines2: seq<Line>, ids1: seq<nat>, ids2: seq<nat>,
                       change1: seq<bool>, change2: seq<bool>)
    requires Equivalence(eq) && |lines1| == |ids1| && |lines2| == |ids2| && SameIds(eq, lines1 + lines2, ids1 + ids2)
    requires Longest(ids1, ids2, change1, change2)
    ensures LongestMatch(eq, lines1, lines2, change1, change2)
  {
    InternedStand(eq, lines1, lines2, ids1, ids2);
    MatchingKept(eq, lines1, lines2, ids1, ids2, change1, change2);
    forall other1, other2 | |lines1| == |other1| && |lines2| == |other2|
                            && Matching(eq, Kept(lines1, other1), Kept(lines2, other2))
      ensures |Kept(lines1, other1)| <= |Kept(lines1, change1)|
    {
      MatchingKept(eq, lines1, lines2, ids1, ids2, other1, other2);
      assert Common(ids1, ids2, other1, other2);
    }
  }

  lemma MatchingKept(eq: (Line, Line) -> bool, lines1: seq<Line>, lines2: seq<Line>, ids1: seq<nat>, ids2: seq<nat>,
                     m1: seq<bool>, m2: seq<bool>)
    requires Equivalence(eq) && |lines1| == |ids1| == |m1| && |lines2| == |ids2| == |m2|
    requires SameIds(eq, lines1 + lines2, ids1 + ids2)
    ensures Matching(eq, Kept(lines1, m1), Kept(lines2, m2)) <==> Common(ids1, ids2, m1, m2)
    ensures |Kept<Line>(lines1, m1)| == |Kept<int>(ids1, m1)|
  {
    var lines, ids := lines1 + lines2, ids1 + ids2;
    InternedStand(eq, lines1, lines2, ids1, ids2);
    KeptStands(eq, lines, ids, lines1, ids1, m1);
    KeptStands(eq, lines, ids, lines2, ids2, m2);
    StandsMatching(eq, lines, ids, Kept<Line>(lines1, m1), Kept<int>(ids1, m1), Kept<Line>(lines2, m2),
                   Kept<int>(ids2, m2));
  }

  lemma NoZero(eq: (Line, Line) -> bool, lines: seq<Line>, ids1: seq<nat>, ids2: seq<nat>)
    requires ZeroIsBlank(eq, false, lines, ids1 + ids2)
    ensures NonZero(ids1 + ids2) && NonZero(ids1) && NonZero(ids2)
  {
    var ids := ids1 + ids2;
    assert forall i :: 0 <= i < |ids1| ==> ids[i] == ids1[i];
    assert forall i :: 0 <= i < |ids2| ==> ids[|ids1| + i] == ids2[i];
  }

  predicate NonZero(ids: seq<int>) { forall i :: 0 <= i < |ids| ==> ids[i] != 0 }

  lemma StandsNonZero(eq: (Line, Line) -> bool, lines: seq<Line>, ids: seq<nat>, s: seq<Line>, t: seq<int>)
    requires StandFor(eq, lines, ids, s, t) && NonZero(ids)
    ensures DropBlank(t) == t
  {
    forall i | 0 <= i < |t|
      ensures t[i] != 0
    {
      assert Stands(eq, lines, ids, s[i], t[i]);
    }
    DropBlankNone(t);
  }

  /** Unless blank lines are ignored, applying the reported edits to file 1 gives file 2, line by line. */
  lemma PatchOfLines(eq: (Line, Line) -> bool, lines1: seq<Line>, lines2: seq<Line>, ids1: seq<nat>, ids2: seq<nat>,
                     change1: seq<bool>, change2: seq<bool>, ops: seq<DiffOp>, changed: bool)
    requires Equivalence(eq) && |lines1| == |ids1| && |lines2| == |ids2| && SameIds(eq, lines1 + lines2, ids1 + ids2)
    requires ZeroIsBlank(eq, false, lines1 + lines2, ids1 + ids2)
    requires Reported(ids1, ids2, change1, change2, ops, |lines1|, |lines2|, changed)
    ensures Patch<int>(ids1, ids2, ops, |lines1|) == ids2
    ensures Matching(eq, Patch(lines1, lines2, ops, |lines1|), lines2)
  {
    var lines, ids := lines1 + lines2, ids1 + ids2;
    var p := Patch<int>(ids1, ids2, ops, |lines1|);
    InternedStand(eq, lines1, lines2, ids1, ids2);
    PatchStands(eq, lines, ids, lines1, ids1, lines2, ids2, ops, |lines1|);
    NoZero(eq, lines, ids1, ids2);
    StandsNonZero(eq, lines, ids, Patch(lines1, lines2, ops, |lines1|), p);
    StandsNonZero(eq, lines, ids, lines2, ids2);
    assert ids2[..|lines2|] == ids2;
    StandsMatching(eq, lines, ids, Patch(lines1, lines2, ops, |lines1|), p, lines2, ids2);
  }

  /** A longest match of the lines is a longest common subsequence of the ids. */
  lemma LongestOfIds(eq: (Line, Line) -> bool, lines1: seq<Line>, lines2: seq<Line>, ids1: seq<nat>, ids2: seq<nat>,
                     change1: seq<bool>, change2: seq<bool>)
    requires Equivalence(eq) && |lines1| == |ids1| && |lines2| == |ids2| && SameIds(eq, lines1 + lines2, ids1 + ids2)
    requires LongestMatch(eq, lines1, lines2, change1, change2)
    ensures Longest(ids1, ids2, change1, change2)
  {
    MatchingKept(eq, lines1, lines2, ids1, ids2, change1, change2);
    forall other1, other2 | Common(ids1, ids2, other1, other2)
      ensures |Kept<int>(ids1, other1)| <= |Kept<int>(ids1, change1)|
    {
      MatchingKept(eq, lines1, lines2, ids1, ids2, other1, other2);
    }
  }

  // ----- Ids for any lines -----

  /** The first line that is equivalent to l, or the number of lines. */
  function FirstSame(eq: (Line, Line) -> bool, lines: seq<Line>, l: Line): (q: nat)
    ensures q <= |lines| && (q < |lines| ==> eq(lines[q], l))
  {
    if lines == [] || eq(lines[0], l) then 0 else 1 + FirstSame(eq, lines[1..], l)
  }

  lemma {:induction false} FirstSameFound(eq: (Line, Line) -> bool, lines: seq<Line>, p: nat)
    requires Equivalence(eq) && p < |lines|
    ensures FirstSame(eq, lines, lines[p]) < |lines|
  {
    if p > 0 && !eq(lines[0], lines[p]) {
      FirstSameFound(eq, lines[1..], p - 1);
    }
  }

  lemma {:induction false} FirstSameEqual(eq: (Line, Line) -> bool, lines: seq<Line>, l: Line, m: Line)
    requires Equivalence(eq) && eq(l, m)
    ensures FirstSame(eq, lines, l) == FirstSame(eq, lines, m)
  {
    if lines != [] {
      assert eq(m, l);
      FirstSameEqual(eq, lines[1..], l, m);
    }
  }

  function IdOf(eq: (Line, Line) -> bool, ignoreBlank: bool, lines: seq<Line>, l: Line): nat
  {
    if ignoreBlank && eq(l, []) then 0 else 1 + FirstSame(eq, lines, l)
  }

  lemma IdsAgree(eq: (Line, Line) -> bool, ignoreBlank: bool, lines: seq<Line>, i: nat, j: nat)
    requires Equivalence(eq) && i < |lines| && j < |lines|
    ensures IdOf(eq, ignoreBlank, lines, lines[i]) == IdOf(eq, ignoreBlank, lines, lines[j]) <==> eq(lines[i], lines[j])
  {
    var l, m := lines[i], lines[j];
    if eq(l, m) {
      FirstSameEqual(eq, lines, l, m);
      assert eq(m, l) && (eq(l, []) <==> eq(m, []));
    } else if IdOf(eq, ignoreBlank, lines, l) == IdOf(eq, ignoreBlank, lines, m) {
      FirstSameFound(eq, lines, i);
      FirstSameFound(eq, lines, j);
    }
  }

  /** Any lines of two files can be given ids. */
  lemma IdsExist(eq: (Line, Line) -> bool, ignoreBlank: bool, lines1: seq<Line>, lines2: seq<Line>)
    returns (ids1: seq<nat>, ids2: seq<nat>)
    requires Equivalence(eq)
    ensures |ids1| == |lines1| && |ids2| == |lines2|
    ensures SameIds(eq, lines1 + lines2, ids1 + ids2) && ZeroIsBlank(eq, ignoreBlank, lines1 + lines2, ids1 + ids2)
  {
    var lines := lines1 + lines2;
    var ids := seq(|lines|, i requires 0 <= i < |lines| => IdOf(eq, ignoreBlank, lines, lines[i]));
    forall i, j | 0 <= i < |lines| && 0 <= j < |lines|
      ensures ids[i] == ids[j] <==> eq(lines[i], lines[j])
    {
      IdsAgree(eq, ignoreBlank, lines, i, j);
    }
    ids1, ids2 := ids[..|lines1|], ids[|lines1|..];
    assert ids1 + ids2 == ids;
  }

  // ----- The length of the longest match -----

  /** The longest match of two line sequences, as a recurrence. */
  function MatchLength(eq: (Line, Line) -> bool, s: seq<Line>, t: seq<Line>): (n: nat)
    decreases |s| + |t|
  {
    if s == [] || t == [] then 0
    else
      var m, n := |s| - 1, |t| - 1;
      if eq(s[m], t[n]) then MatchLength(eq, s[..m], t[..n]) + 1
      else
        var x, y := MatchLength(eq, s[..m], t), MatchLength(eq, s, t[..n]);
        if x < y then y else x
  }

  lemma {:induction false} MatchLengthOfIds(eq: (Line, Line) -> bool, lines: seq<Line>, ids: seq<nat>,
                                            s1: seq<Line>, t1: seq<int>, s2: seq<Line>, t2: seq<int>)
    requires Equivalence(eq) && StandFor(eq, lines, ids, s1, t1) && StandFor(eq, lines, ids, s2, t2)
    ensures MatchLength(eq, s1, s2) == Length(t1, t2)
    decreases |s1| + |s2|
  {
    if s1 != [] && s2 != [] {
      var m, n := |s1| - 1, |s2| - 1;
      assert t1 == t1[..m] + [t1[m]] && t2 == t2[..n] + [t2[n]];
      LengthStep(t1[..m], t2[..n], t1[m], t2[n]);
      StandsSame(eq, lines, ids, s1[m], t1[m], s2[n], t2[n]);
      MatchLengthOfIds(eq, lines, ids, s1[..m], t1[..m], s2[..n], t2[..n]);
      MatchLengthOfIds(eq, lines, ids, s1[..m], t1[..m], s2, t2);
      MatchLengthOfIds(eq, lines, ids, s1, t1, s2[..n], t2[..n]);
    }
  }
}
