/**
  * The verdict of a diff of lines: when two files are reported as unchanged, with blank lines ignored
  * or not.
  */
module Verdict {
  import opened Marks
  import opened Lcs
  import opened Interning
  import opened Hunks
  import opened Report
  import opened Blanks
  import opened Matches

  lemma {:induction false} NoneMarked(change: seq<bool>)
    requires Marked(change) == 0
    ensures All(change, 0, |change|, false)
  {
    if change != [] {
      NoneMarked(change[..|change| - 1]);
    }
  }

  lemma MatchingLeavesNone(eq: (Line, Line) -> bool, lines1: seq<Line>, lines2: seq<Line>, change1: seq<bool>,
                           change2: seq<bool>)
    requires LongestMatch(eq, lines1, lines2, change1, change2) && Matching(eq, lines1, lines2)
    ensures All(change1, 0, |change1|, false) && All(change2, 0, |change2|, false)
  {
    var none := seq(|lines1|, _ => false);
    KeptAll(lines1, none, false);
    KeptAll(lines2, none, false);
    KeptLength(lines1, change1);
    KeptLength(lines2, change2);
    NoneMarked(change1);
    NoneMarked(change2);
  }

  lemma NothingVisible(data: seq<int>, change: seq<bool>)
    requires |data| == |change| && NonZero(data)
    ensures AnyVisible(data, change, |data|) <==> !All(change, 0, |change|, false)
  {
    if i :| 0 <= i < |change| && change[i] {
      assert Visible(data, change, i);
    }
  }

  /** Unless blank lines are ignored, no change is reported exactly if the files match line by line. */
  lemma ChangedIff(eq: (Line, Line) -> bool, lines1: seq<Line>, lines2: seq<Line>, ids1: seq<nat>, ids2: seq<nat>,
                   change1: seq<bool>, change2: seq<bool>, ops: seq<DiffOp>, changed: bool)
    requires |lines1| == |ids1| && |lines2| == |ids2| && ZeroIsBlank(eq, false, lines1 + lines2, ids1 + ids2)
    requires LongestMatch(eq, lines1, lines2, change1, change2)
    requires Reported(ids1, ids2, change1, change2, ops, |lines1|, |lines2|, changed)
    ensures changed <==> !Matching(eq, lines1, lines2)
  {
    NoZero(eq, lines1 + lines2, ids1, ids2);
    NothingVisible(ids1, change1);
    NothingVisible(ids2, change2);
    if Matching(eq, lines1, lines2) {
      MatchingLeavesNone(eq, lines1, lines2, change1, change2);
    }
    if !changed {
      KeptAll(lines1, change1, false);
      KeptAll(lines2, change2, false);
    }
  }

  // ----- When blank lines are ignored -----

  /** The lines that count: all of them, or all that are not blank. */
  function ShownLines(eq: (Line, Line) -> bool, ignoreBlank: bool, lines: seq<Line>): (r: seq<Line>)
  {
    if lines == [] then []
    else
      var n := |lines| - 1;
      ShownLines(eq, ignoreBlank, lines[..n]) + if ignoreBlank && eq(lines[n], []) then [] else [lines[n]]
  }

  /** Two files agree, but for blank lines if those are ignored. */
  ghost predicate Agree(eq: (Line, Line) -> bool, ignoreBlank: bool, s: seq<Line>, t: seq<Line>)
  {
    Matching(eq, ShownLines(eq, ignoreBlank, s), ShownLines(eq, ignoreBlank, t))
  }

  /** The longest match among those that keep every line that counts: blank lines are matched run by run. */
  function QuietLines(eq: (Line, Line) -> bool, ignoreBlank: bool, s: seq<Line>, t: seq<Line>): (n: nat)
    decreases |s| + |t|
  {
    if s == [] || t == [] then 0
    else
      var m, n := |s| - 1, |t| - 1;
      var x, y := ignoreBlank && eq(s[m], []), ignoreBlank && eq(t[n], []);
      if x == y then QuietLines(eq, ignoreBlank, s[..m], t[..n]) + 1
      else if x then QuietLines(eq, ignoreBlank, s[..m], t)
      else QuietLines(eq, ignoreBlank, s, t[..n])
  }

  /** x is 0 exactly for the lines that do not count. */
  ghost predicate Zeros(eq: (Line, Line) -> bool, ignoreBlank: bool, s: seq<Line>, t: seq<int>)
  {
    |s| == |t| && forall i :: 0 <= i < |s| ==> (t[i] == 0 <==> ignoreBlank && eq(s[i], []))
  }

  lemma StandsZeros(eq: (Line, Line) -> bool, ignoreBlank: bool, lines: seq<Line>, ids: seq<nat>, s: seq<Line>,
                    t: seq<int>)
    requires Equivalence(eq) && StandFor(eq, lines, ids, s, t) && ZeroIsBlank(eq, ignoreBlank, lines, ids)
    ensures Zeros(eq, ignoreBlank, s, t)
  {
    forall i | 0 <= i < |s|
      ensures t[i] == 0 <==> ignoreBlank && eq(s[i], [])
    {
      assert Stands(eq, lines, ids, s[i], t[i]);
      var q :| 0 <= q < |ids| && ids[q] == t[i];
      assert eq(s[i], lines[q]) && eq(lines[q], s[i]);
    }
  }

  lemma {:induction false} ShownStands(eq: (Line, Line) -> bool, ignoreBlank: bool, lines: seq<Line>, ids: seq<nat>,
                                       s: seq<Line>, t: seq<int>)
    requires StandFor(eq, lines, ids, s, t) && Zeros(eq, ignoreBlank, s, t)
    ensures StandFor(eq, lines, ids, ShownLines(eq, ignoreBlank, s), DropBlank(t))
  {
    if s != [] {
      var n := |s| - 1;
      ShownStands(eq, ignoreBlank, lines, ids, s[..n], t[..n]);
    }
  }

  /** Lines agree exactly if their ids do without the zeros. */
  lemma AgreeIff(eq: (Line, Line) -> bool, ignoreBlank: bool, lines: seq<Line>, ids: seq<nat>,
                 s1: seq<Line>, t1: seq<int>, s2: seq<Line>, t2: seq<int>)
    requires Equivalence(eq) && ZeroIsBlank(eq, ignoreBlank, lines, ids)
    requires StandFor(eq, lines, ids, s1, t1) && StandFor(eq, lines, ids, s2, t2)
    ensures Agree(eq, ignoreBlank, s1, s2) <==> DropBlank(t1) == DropBlank(t2)
    ensures Zeros(eq, ignoreBlank, s1, t1) && Zeros(eq, ignoreBlank, s2, t2)
  {
    StandsZeros(eq, ignoreBlank, lines, ids, s1, t1);
    StandsZeros(eq, ignoreBlank, lines, ids, s2, t2);
    ShownStands(eq, ignoreBlank, lines, ids, s1, t1);
    ShownStands(eq, ignoreBlank, lines, ids, s2, t2);
    StandsMatching(eq, lines, ids, ShownLines(eq, ignoreBlank, s1), DropBlank(t1), ShownLines(eq, ignoreBlank, s2),
                   DropBlank(t2));
  }

  lemma {:induction false} ShownCount(eq: (Line, Line) -> bool, ignoreBlank: bool, s: seq<Line>, t: seq<int>)
    requires Zeros(eq, ignoreBlank, s, t)
    ensures |ShownLines(eq, ignoreBlank, s)| == |DropBlank(t)|
  {
    if s != [] {
      var n := |s| - 1;
      ShownCount(eq, ignoreBlank, s[..n], t[..n]);
    }
  }

  lemma {:induction false} KeptZeros(eq: (Line, Line) -> bool, ignoreBlank: bool, s: seq<Line>, t: seq<int>,
                                     c: seq<bool>)
    requires Zeros(eq, ignoreBlank, s, t) && |c| == |s|
    ensures Zeros(eq, ignoreBlank, Kept(s, c), Kept(t, c))
  {
    if s != [] {
      var n := |s| - 1;
      KeptZeros(eq, ignoreBlank, s[..n], t[..n], c[..n]);
    }
  }

  lemma {:induction false} QuietLengthOfIds(eq: (Line, Line) -> bool, ignoreBlank: bool, s1: seq<Line>, t1: seq<int>,
                                        s2: seq<Line>, t2: seq<int>)
    requires Zeros(eq, ignoreBlank, s1, t1) && Zeros(eq, ignoreBlank, s2, t2)
    ensures QuietLines(eq, ignoreBlank, s1, s2) == QuietLength(t1, t2)
    decreases |s1| + |s2|
  {
    if s1 != [] && s2 != [] {
      var m, n := |s1| - 1, |s2| - 1;
      QuietLengthOfIds(eq, ignoreBlank, s1[..m], t1[..m], s2[..n], t2[..n]);
      QuietLengthOfIds(eq, ignoreBlank, s1[..m], t1[..m], s2, t2);
      QuietLengthOfIds(eq, ignoreBlank, s1, t1, s2[..n], t2[..n]);
    }
  }

  /** With blank lines ignored or not: the edits make of file 1 what agrees with file 2. */
  lemma PatchAgrees(eq: (Line, Line) -> bool, ignoreBlank: bool, lines1: seq<Line>, lines2: seq<Line>,
                    ids1: seq<nat>, ids2: seq<nat>, change1: seq<bool>, change2: seq<bool>,
                    ops: seq<DiffOp>, changed: bool)
    requires Equivalence(eq) && |lines1| == |ids1| && |lines2| == |ids2|
    requires SameIds(eq, lines1 + lines2, ids1 + ids2) && ZeroIsBlank(eq, ignoreBlank, lines1 + lines2, ids1 + ids2)
    requires Reported(ids1, ids2, change1, change2, ops, |lines1|, |lines2|, changed)
    ensures Agree(eq, ignoreBlank, Patch(lines1, lines2, ops, |lines1|), lines2)
  {
    var lines, ids := lines1 + lines2, ids1 + ids2;
    InternedStand(eq, lines1, lines2, ids1, ids2);
    PatchStands(eq, lines, ids, lines1, ids1, lines2, ids2, ops, |lines1|);
    assert ids2[..|lines2|] == ids2;
    AgreeIff(eq, ignoreBlank, lines, ids, Patch(lines1, lines2, ops, |lines1|), Patch<int>(ids1, ids2, ops, |lines1|),
             lines2, ids2);
  }

  predicate Counts(eq: (Line, Line) -> bool, ignoreBlank: bool, l: Line) { !(ignoreBlank && eq(l, [])) }

  /** No longest match can do without any of the lines of s that count. */
  ghost predicate NeededLines(eq: (Line, Line) -> bool, ignoreBlank: bool, s: seq<Line>, t: seq<Line>)
  {
    forall p :: 0 <= p < |s| && Counts(eq, ignoreBlank, s[p]) ==>
      MatchLength(eq, Without(s, p), t) < MatchLength(eq, s, t)
  }

  /**
    * The verdict on two files, by what can be seen before the diff: `unchanged` is always given if each
    * line that counts is needed, on both sides, and never if the files do not agree or some match is
    * longer than one that keeps all lines that count. In between it depends on the longest match that
    * was found, and is given exactly if the files agree and that match keeps every line that counts.
    */
  ghost predicate Judged(eq: (Line, Line) -> bool, ignoreBlank: bool, lines1: seq<Line>, lines2: seq<Line>,
                         change1: seq<bool>, changed: bool)
    requires |change1| == |lines1|
  {
    && (NeededLines(eq, ignoreBlank, lines1, lines2) && NeededLines(eq, ignoreBlank, lines2, lines1) ==> !changed)
    && (!Agree(eq, ignoreBlank, lines1, lines2) ==> changed)
    && (MatchLength(eq, lines1, lines2) != QuietLines(eq, ignoreBlank, lines1, lines2) ==> changed)
    && (!changed <==>
          Agree(eq, ignoreBlank, lines1, lines2)
          && |ShownLines(eq, ignoreBlank, Kept(lines1, change1))| == |ShownLines(eq, ignoreBlank, lines1)|)
  }

  ghost predicate AllCount(eq: (Line, Line) -> bool, ignoreBlank: bool, lines: seq<Line>)
  {
    forall i :: 0 <= i < |lines| ==> Counts(eq, ignoreBlank, lines[i])
  }

  /** The ids stand for the lines, and 0 for those that do not count. */
  ghost predicate Named(eq: (Line, Line) -> bool, ignoreBlank: bool, lines1: seq<Line>, lines2: seq<Line>,
                        ids1: seq<nat>, ids2: seq<nat>)
  {
    && |lines1| == |ids1| && |lines2| == |ids2|
    && SameIds(eq, lines1 + lines2, ids1 + ids2) && ZeroIsBlank(eq, ignoreBlank, lines1 + lines2, ids1 + ids2)
  }

  lemma NeededIff(eq: (Line, Line) -> bool, ignoreBlank: bool, lines: seq<Line>, ids: seq<nat>,
                  s: seq<Line>, s': seq<int>, t: seq<Line>, t': seq<int>)
    requires Equivalence(eq) && StandFor(eq, lines, ids, s, s') && StandFor(eq, lines, ids, t, t')
    requires Zeros(eq, ignoreBlank, s, s')
    ensures NeededLines(eq, ignoreBlank, s, t) <==> Needed(s', t')
  {
    MatchLengthOfIds(eq, lines, ids, s, s', t, t');
    forall p | 0 <= p < |s|
      ensures MatchLength(eq, Without(s, p), t) == Length(Without(s', p), t')
    {
      MatchLengthOfIds(eq, lines, ids, Without(s, p), Without(s', p), t, t');
    }
  }

  /** What can be said of the lines, said of the ids. */
  lemma NamedFacts(eq: (Line, Line) -> bool, ignoreBlank: bool, lines1: seq<Line>, lines2: seq<Line>,
                   ids1: seq<nat>, ids2: seq<nat>)
    requires Equivalence(eq) && Named(eq, ignoreBlank, lines1, lines2, ids1, ids2)
    ensures Zeros(eq, ignoreBlank, lines1, ids1) && Zeros(eq, ignoreBlank, lines2, ids2)
    ensures Agree(eq, ignoreBlank, lines1, lines2) <==> DropBlank(ids1) == DropBlank(ids2)
    ensures MatchLength(eq, lines1, lines2) == Length(ids1, ids2)
    ensures QuietLines(eq, ignoreBlank, lines1, lines2) == QuietLength(ids1, ids2)
    ensures NeededLines(eq, ignoreBlank, lines1, lines2) <==> Needed(ids1, ids2)
    ensures NeededLines(eq, ignoreBlank, lines2, lines1) <==> Needed(ids2, ids1)
  {
    var lines, ids := lines1 + lines2, ids1 + ids2;
    InternedStand(eq, lines1, lines2, ids1, ids2);
    AgreeIff(eq, ignoreBlank, lines, ids, lines1, ids1, lines2, ids2);
    MatchLengthOfIds(eq, lines, ids, lines1, ids1, lines2, ids2);
    QuietLengthOfIds(eq, ignoreBlank, lines1, ids1, lines2, ids2);
    NeededIff(eq, ignoreBlank, lines, ids, lines1, ids1, lines2, ids2);
    NeededIff(eq, ignoreBlank, lines, ids, lines2, ids2, lines1, ids1);
  }

  lemma VerdictIff(eq: (Line, Line) -> bool, ignoreBlank: bool, lines1: seq<Line>, lines2: seq<Line>,
                   ids1: seq<nat>, ids2: seq<nat>, change1: seq<bool>, change2: seq<bool>,
                   ops: seq<DiffOp>, changed: bool)
    requires Equivalence(eq) && Named(eq, ignoreBlank, lines1, lines2, ids1, ids2)
    requires Longest(ids1, ids2, change1, change2)
    requires Reported(ids1, ids2, change1, change2, ops, |lines1|, |lines2|, changed)
    ensures Judged(eq, ignoreBlank, lines1, lines2, change1, changed)
  {
    NamedFacts(eq, ignoreBlank, lines1, lines2, ids1, ids2);
    KeptCounts(eq, ignoreBlank, lines1, ids1, change1);
    QuietIsUnchanged(ids1, ids2, change1, change2, ops, changed);
    QuietVerdict(ids1, ids2, change1, change2);
  }

  lemma KeptIsMatchLength(eq: (Line, Line) -> bool, lines1: seq<Line>, lines2: seq<Line>, c1: seq<bool>, c2: seq<bool>)
    requires Equivalence(eq) && LongestMatch(eq, lines1, lines2, c1, c2)
    ensures |Kept(lines1, c1)| == MatchLength(eq, lines1, lines2)
  {
    var ids1, ids2 := IdsExist(eq, false, lines1, lines2);
    NamedFacts(eq, false, lines1, lines2, ids1, ids2);
    LongestOfIds(eq, lines1, lines2, ids1, ids2, c1, c2);
    MatchingKept(eq, lines1, lines2, ids1, ids2, c1, c2);
    LongestHasLength(ids1, ids2, c1, c2);
  }

  // ----- The verdict over all longest matches -----

  /** Only lines that do not count are marked. */
  ghost predicate QuietMarks(eq: (Line, Line) -> bool, ignoreBlank: bool, s: seq<Line>, c: seq<bool>)
  {
    |s| == |c| && forall p :: 0 <= p < |s| && c[p] ==> !Counts(eq, ignoreBlank, s[p])
  }

  ghost predicate QuietMatch(eq: (Line, Line) -> bool, ignoreBlank: bool, lines1: seq<Line>, lines2: seq<Line>,
                             change1: seq<bool>, change2: seq<bool>)
  {
    && LongestMatch(eq, lines1, lines2, change1, change2)
    && QuietMarks(eq, ignoreBlank, lines1, change1) && QuietMarks(eq, ignoreBlank, lines2, change2)
  }

  lemma QuietMarksIff(eq: (Line, Line) -> bool, ignoreBlank: bool, s: seq<Line>, t: seq<int>, c: seq<bool>)
    requires Zeros(eq, ignoreBlank, s, t) && |c| == |s|
    ensures QuietMarks(eq, ignoreBlank, s, c) <==> !AnyVisible(t, c, |t|)
  {
    if p :| 0 <= p < |s| && c[p] && Counts(eq, ignoreBlank, s[p]) {
      assert Visible(t, c, p);
    }
  }

  lemma QuietMatchIff(eq: (Line, Line) -> bool, ignoreBlank: bool, lines1: seq<Line>, lines2: seq<Line>,
                      ids1: seq<nat>, ids2: seq<nat>, change1: seq<bool>, change2: seq<bool>)
    requires Equivalence(eq) && Named(eq, ignoreBlank, lines1, lines2, ids1, ids2)
    ensures LongestMatch(eq, lines1, lines2, change1, change2) <==> Longest(ids1, ids2, change1, change2)
    ensures QuietMatch(eq, ignoreBlank, lines1, lines2, change1, change2) <==>
            Longest(ids1, ids2, change1, change2) && Quiet(ids1, ids2, change1, change2)
  {
    NamedFacts(eq, ignoreBlank, lines1, lines2, ids1, ids2);
    if LongestMatch(eq, lines1, lines2, change1, change2) {
      LongestOfIds(eq, lines1, lines2, ids1, ids2, change1, change2);
    }
    if Longest(ids1, ids2, change1, change2) {
      LongestOfLines(eq, lines1, lines2, ids1, ids2, change1, change2);
      QuietMarksIff(eq, ignoreBlank, lines1, ids1, change1);
      QuietMarksIff(eq, ignoreBlank, lines2, ids2, change2);
    }
  }

  /** Exactly when every longest match shows no change: each line that counts is needed, on both sides. */
  lemma AlwaysUnchangedIff(eq: (Line, Line) -> bool, ignoreBlank: bool, lines1: seq<Line>, lines2: seq<Line>)
    requires Equivalence(eq)
    ensures (forall c1, c2 :: LongestMatch(eq, lines1, lines2, c1, c2) ==>
                                QuietMatch(eq, ignoreBlank, lines1, lines2, c1, c2))
            <==> NeededLines(eq, ignoreBlank, lines1, lines2) && NeededLines(eq, ignoreBlank, lines2, lines1)
  {
    var ids1, ids2 := IdsExist(eq, ignoreBlank, lines1, lines2);
    NamedFacts(eq, ignoreBlank, lines1, lines2, ids1, ids2);
    QuietAlwaysIff(ids1, ids2);
    forall c1, c2
      ensures LongestMatch(eq, lines1, lines2, c1, c2) <==> Longest(ids1, ids2, c1, c2)
      ensures QuietMatch(eq, ignoreBlank, lines1, lines2, c1, c2) <==>
              Longest(ids1, ids2, c1, c2) && Quiet(ids1, ids2, c1, c2)
    {
      QuietMatchIff(eq, ignoreBlank, lines1, lines2, ids1, ids2, c1, c2);
    }
  }

  /** Exactly when no longest match shows no change: the files do not agree, or some match is longer than
      one that keeps all lines that count. */
  lemma NeverUnchangedIff(eq: (Line, Line) -> bool, ignoreBlank: bool, lines1: seq<Line>, lines2: seq<Line>)
    requires Equivalence(eq)
    ensures (forall c1, c2 :: !QuietMatch(eq, ignoreBlank, lines1, lines2, c1, c2))
            <==> !Agree(eq, ignoreBlank, lines1, lines2)
                 || MatchLength(eq, lines1, lines2) != QuietLines(eq, ignoreBlank, lines1, lines2)
  {
    var ids1, ids2 := IdsExist(eq, ignoreBlank, lines1, lines2);
    NamedFacts(eq, ignoreBlank, lines1, lines2, ids1, ids2);
    QuietPossibleIff(ids1, ids2);
    forall c1, c2
      ensures QuietMatch(eq, ignoreBlank, lines1, lines2, c1, c2) <==>
              Longest(ids1, ids2, c1, c2) && Quiet(ids1, ids2, c1, c2)
    {
      QuietMatchIff(eq, ignoreBlank, lines1, lines2, ids1, ids2, c1, c2);
    }
  }

  /** If the files agree, and all lines of one of them count, every line that counts is needed. */
  lemma AllCountIsNeeded(eq: (Line, Line) -> bool, ignoreBlank: bool, lines1: seq<Line>, lines2: seq<Line>)
    requires Equivalence(eq) && Agree(eq, ignoreBlank, lines1, lines2)
    requires AllCount(eq, ignoreBlank, lines1) || AllCount(eq, ignoreBlank, lines2)
    ensures NeededLines(eq, ignoreBlank, lines1, lines2) && NeededLines(eq, ignoreBlank, lines2, lines1)
  {
    var ids1, ids2 := IdsExist(eq, ignoreBlank, lines1, lines2);
    NamedFacts(eq, ignoreBlank, lines1, lines2, ids1, ids2);
    AllCountIff(eq, ignoreBlank, lines1, ids1);
    AllCountIff(eq, ignoreBlank, lines2, ids2);
    NoBlankIsNeeded(ids1, ids2);
  }

  /** Marks that leave a match of the longest length leave a longest match. */
  lemma LongestByLength(eq: (Line, Line) -> bool, lines1: seq<Line>, lines2: seq<Line>, c1: seq<bool>, c2: seq<bool>)
    requires Equivalence(eq) && |c1| == |lines1| && |c2| == |lines2|
    requires Matching(eq, Kept(lines1, c1), Kept(lines2, c2)) && |Kept(lines1, c1)| == MatchLength(eq, lines1, lines2)
    ensures LongestMatch(eq, lines1, lines2, c1, c2)
  {
    var ids1, ids2 := IdsExist(eq, false, lines1, lines2);
    NamedFacts(eq, false, lines1, lines2, ids1, ids2);
    MatchingKept(eq, lines1, lines2, ids1, ids2, c1, c2);
    LengthIsLongest(ids1, ids2, c1, c2);
    LongestOfLines(eq, lines1, lines2, ids1, ids2, c1, c2);
  }

  lemma KeptOfTwo(s: seq<Line>, c: seq<bool>)
    requires |s| == |c| == 2
    ensures Kept(s, c) == (if c[0] then [] else [s[0]]) + (if c[1] then [] else [s[1]])
  {
    assert s[..0] == [] && c[..0] == [] && s[..2] == s && c[..2] == c;
    KeptNext(s, c, 0);
    KeptNext(s, c, 1);
  }

  lemma MatchOfTwo(eq: (Line, Line) -> bool, x: Line)
    requires Equivalence(eq) && !eq(x, [])
    ensures MatchLength(eq, [[], x], [x, []]) == 1
  {
    var s, t: seq<Line> := [[], x], [x, []];
    assert s[..1] == [[]] && t[..1] == [x] && s[..1][..0] == [] && t[..1][..0] == [];
    assert eq([], []) && eq(x, x) && !eq([], x);
    assert MatchLength(eq, s[..1], t) == 1 && MatchLength(eq, s, t[..1]) == 1;
  }

  /** Files for which it depends: one longest match shows no change, and another one does. */
  lemma DecidedByMatch(eq: (Line, Line) -> bool, x: Line)
    requires Equivalence(eq) && !eq(x, [])
    ensures Agree(eq, true, [[], x], [x, []])
    ensures QuietMatch(eq, true, [[], x], [x, []], [true, false], [false, true])
    ensures LongestMatch(eq, [[], x], [x, []], [false, true], [true, false])
    ensures !QuietMatch(eq, true, [[], x], [x, []], [false, true], [true, false])
  {
    var s, t: seq<Line> := [[], x], [x, []];
    MatchOfTwo(eq, x);
    KeptOfTwo(s, [true, false]);
    KeptOfTwo(t, [false, true]);
    LongestByLength(eq, s, t, [true, false], [false, true]);
    KeptOfTwo(s, [false, true]);
    KeptOfTwo(t, [true, false]);
    LongestByLength(eq, s, t, [false, true], [true, false]);
    NeverUnchangedIff(eq, true, s, t);
    assert [false, true][1] && Counts(eq, true, s[1]);
  }

  lemma AllCountIff(eq: (Line, Line) -> bool, ignoreBlank: bool, s: seq<Line>, t: seq<int>)
    requires Zeros(eq, ignoreBlank, s, t)
    ensures AllCount(eq, ignoreBlank, s) <==> 0 !in t
  {
    if i :| 0 <= i < |t| && t[i] == 0 {
      assert ignoreBlank && eq(s[i], []);
    }
  }

  lemma KeptCounts(eq: (Line, Line) -> bool, ignoreBlank: bool, s: seq<Line>, t: seq<int>, c: seq<bool>)
    requires Zeros(eq, ignoreBlank, s, t) && |c| == |s|
    ensures |ShownLines(eq, ignoreBlank, s)| == |DropBlank(t)|
    ensures |ShownLines(eq, ignoreBlank, Kept(s, c))| == |DropBlank(Kept<int>(t, c))|
    ensures |Kept(s, c)| == |Kept<int>(t, c)|
  {
    KeptZeros(eq, ignoreBlank, s, t, c);
    ShownCount(eq, ignoreBlank, s, t);
    ShownCount(eq, ignoreBlank, Kept(s, c), Kept<int>(t, c));
  }

  lemma QuietIsUnchanged(a: seq<int>, b: seq<int>, c1: seq<bool>, c2: seq<bool>, ops: seq<DiffOp>, changed: bool)
    requires Reported(a, b, c1, c2, ops, |a|, |b|, changed)
    ensures !changed <==> Quiet(a, b, c1, c2)
  {
  }

  /**
    * Two files that agree but for blank lines and are reported as changed, whatever longest match is
    * found: a match of both blank lines is longer than one of the line x.
    */
  lemma BlankLinesCompete(eq: (Line, Line) -> bool, x: Line, change1: seq<bool>, changed: bool)
    requires Equivalence(eq) && !eq(x, []) && |change1| == 3
    requires Judged(eq, true, [x, [], []], [[], [], x], change1, changed)
    ensures Agree(eq, true, [x, [], []], [[], [], x]) && changed
  {
    ThreeAgree(eq, x);
    TwoAreKept(eq, x);
    QuietThree(eq, [x, [], []], [[], [], x]);
  }

  lemma ThreeAgree(eq: (Line, Line) -> bool, x: Line)
    requires Equivalence(eq) && !eq(x, [])
    ensures Agree(eq, true, [x, [], []], [[], [], x])
  {
    ThreeLines(eq, [x, [], []], [true, true, true]);
    ThreeLines(eq, [[], [], x], [true, true, true]);
  }

  lemma TwoAreKept(eq: (Line, Line) -> bool, x: Line)
    requires Equivalence(eq)
    ensures MatchLength(eq, [x, [], []], [[], [], x]) >= 2
  {
    var s, t: seq<Line> := [x, [], []], [[], [], x];
    var m1, m2 := [true, false, false], [false, false, true];
    ThreeLines(eq, s, m1);
    ThreeLines(eq, t, m2);
    assert Matching(eq, Kept(s, m1), Kept(t, m2));
    var ids1, ids2 := IdsExist(eq, false, s, t);
    NamedFacts(eq, false, s, t, ids1, ids2);
    MatchingKept(eq, s, t, ids1, ids2, m1, m2);
    LengthIsUpperBound(ids1, ids2, m1, m2);
  }

  lemma ThreeLines(eq: (Line, Line) -> bool, s: seq<Line>, c: seq<bool>)
    requires |s| == |c| == 3
    ensures Kept(s, c) == (if c[0] then [] else [s[0]]) + (if c[1] then [] else [s[1]]) + (if c[2] then [] else [s[2]])
    ensures ShownLines(eq, true, s) ==
            (if eq(s[0], []) then [] else [s[0]]) + (if eq(s[1], []) then [] else [s[1]])
            + (if eq(s[2], []) then [] else [s[2]])
  {
    KeptOfThree(s, c);
    ShownOfThree(eq, s);
  }

  lemma KeptOfThree(s: seq<Line>, c: seq<bool>)
    requires |s| == |c| == 3
    ensures Kept(s, c) == (if c[0] then [] else [s[0]]) + (if c[1] then [] else [s[1]]) + (if c[2] then [] else [s[2]])
  {
    assert s[..0] == [] && c[..0] == [] && s[..3] == s && c[..3] == c;
    KeptNext(s, c, 0);
    KeptNext(s, c, 1);
    KeptNext(s, c, 2);
  }

  lemma ShownOfThree(eq: (Line, Line) -> bool, s: seq<Line>)
    requires |s| == 3
    ensures ShownLines(eq, true, s) ==
            (if eq(s[0], []) then [] else [s[0]]) + (if eq(s[1], []) then [] else [s[1]])
            + (if eq(s[2], []) then [] else [s[2]])
  {
    assert s[..0] == [] && s[..3] == s;
    ShownMore(eq, s, 0);
    ShownMore(eq, s, 1);
    ShownMore(eq, s, 2);
  }

  lemma ShownMore(eq: (Line, Line) -> bool, s: seq<Line>, n: nat)
    requires n < |s|
    ensures ShownLines(eq, true, s[..n + 1]) == ShownLines(eq, true, s[..n]) + if eq(s[n], []) then [] else [s[n]]
  {
    assert s[..n + 1][..n] == s[..n];
  }

  lemma QuietThree(eq: (Line, Line) -> bool, s: seq<Line>, t: seq<Line>)
    requires |s| == |t| == 3 && !eq(s[0], []) && eq(s[1], []) && eq(s[2], [])
    requires eq(t[0], []) && eq(t[1], []) && !eq(t[2], [])
    ensures QuietLines(eq, true, s, t) == 1
  {
    assert s[..2][..1] == s[..1] && s[..1][..0] == [] && t[..2] == [t[0], t[1]];
    assert QuietLines(eq, true, s[..0], t[..2]) == 0;
    assert QuietLines(eq, true, s[..1], t) == 1;
    assert QuietLines(eq, true, s[..2], t) == 1;
  }
}
