/**
  * Reporting when blank lines, those of id 0, are ignored: when a marking shows no change, and when
  * two files that agree but for blank lines can be reported as unchanged at all.
  */
module Blanks {
  import opened Marks
  import opened Lcs
  import opened Report

  /** No marked line is visible, on either side. */
  ghost predicate Quiet(a: seq<int>, b: seq<int>, c1: seq<bool>, c2: seq<bool>)
  {
    !AnyVisible(a, c1, |a|) && !AnyVisible(b, c2, |b|)
  }

  /** Marking blank lines only leaves all others. */
  lemma {:induction false} DropBlankKept(a: seq<int>, c: seq<bool>)
    requires |a| == |c|
    ensures |DropBlank(Kept(a, c))| <= |DropBlank(a)|
    ensures !AnyVisible(a, c, |a|) <==> |DropBlank(Kept(a, c))| == |DropBlank(a)|
    ensures !AnyVisible(a, c, |a|) ==> DropBlank(Kept(a, c)) == DropBlank(a)
  {
    if a != [] {
      var n := |a| - 1;
      DropBlankKept(a[..n], c[..n]);
      VisibleInit(a, c, n);
      DropBlankConcat(Kept(a[..n], c[..n]), if c[n] then [] else [a[n]]);
      DropBlankOne(a[n]);
    }
  }

  lemma VisibleInit(a: seq<int>, c: seq<bool>, n: int)
    requires 0 <= n && |a| == |c| == n + 1
    ensures AnyVisible(a, c, n + 1) <==> AnyVisible(a[..n], c[..n], n) || (c[n] && a[n] != 0)
  {
    assert forall p :: 0 <= p < n ==> (Visible(a, c, p) <==> Visible(a[..n], c[..n], p));
    assert Visible(a, c, n) <==> c[n] && a[n] != 0;
  }

  lemma DropBlankOne(x: int)
    ensures DropBlank([x]) == if x == 0 then [] else [x]
  {
    assert [x][..0] == [];
  }

  /** Exactly when a marking shows no change: the files agree but for blank lines, and all others are kept. */
  lemma QuietIff(a: seq<int>, b: seq<int>, c1: seq<bool>, c2: seq<bool>)
    requires Common(a, b, c1, c2)
    ensures Quiet(a, b, c1, c2) <==>
            DropBlank(a) == DropBlank(b) && |DropBlank(Kept(a, c1))| == |DropBlank(a)|
  {
    DropBlankKept(a, c1);
    DropBlankKept(b, c2);
  }

  // ----- Common subsequences that keep every line that is not blank -----

  /** The longest common subsequence among those: blank lines are matched run by run. */
  function QuietLength(a: seq<int>, b: seq<int>): (n: nat)
    decreases |a| + |b|
  {
    if a == [] || b == [] then 0
    else
      var m, n := |a| - 1, |b| - 1;
      if (a[m] == 0) == (b[n] == 0) then QuietLength(a[..m], b[..n]) + 1
      else if a[m] == 0 then QuietLength(a[..m], b)
      else QuietLength(a, b[..n])
  }

  lemma QuietLengthSymmetric(a: seq<int>, b: seq<int>)
    ensures QuietLength(a, b) == QuietLength(b, a)
    decreases |a| + |b|
  {
    if a != [] && b != [] {
      var m, n := |a| - 1, |b| - 1;
      QuietLengthSymmetric(a[..m], b[..n]);
      QuietLengthSymmetric(a[..m], b);
      QuietLengthSymmetric(a, b[..n]);
    }
  }

  /** One blank line more can match one more line, and never costs one. */
  lemma {:induction false} QuietLengthBlank(a: seq<int>, b: seq<int>)
    requires b != [] && b[|b| - 1] == 0
    ensures QuietLength(a, b[..|b| - 1]) <= QuietLength(a, b) <= QuietLength(a, b[..|b| - 1]) + 1
    decreases |a| + |b|
  {
    var n := |b| - 1;
    if a != [] && a[|a| - 1] == 0 {
      var m := |a| - 1;
      QuietLengthSymmetric(a[..m], b[..n]);
      QuietLengthSymmetric(a, b[..n]);
      QuietLengthBlank(b[..n], a);
    }
  }

  lemma KeptWithLast(a: seq<int>, c: seq<bool>)
    requires a != [] && |a| == |c|
    ensures var m := |a| - 1;
            Kept(a, c) == Kept(a[..m], c[..m]) + if c[m] then [] else [a[m]]
  {
  }

  lemma LastOfEqual(s: seq<int>, x: int, t: seq<int>, y: int)
    requires s + [x] == t + [y]
    ensures s == t && x == y
  {
    assert (s + [x])[..|s|] == s && (t + [y])[..|t|] == t;
    assert (s + [x])[|s|] == x && (t + [y])[|t|] == y;
  }

  lemma QuietInit(a: seq<int>, c: seq<bool>)
    requires a != [] && |a| == |c| && !AnyVisible(a, c, |a|)
    ensures var m := |a| - 1; !AnyVisible(a[..m], c[..m], m) && (c[m] ==> a[m] == 0)
  {
    VisibleInit(a, c, |a| - 1);
  }

  /** No marking without a visible change keeps more. */
  lemma {:induction false} QuietAtMost(a: seq<int>, b: seq<int>, c1: seq<bool>, c2: seq<bool>)
    requires Common(a, b, c1, c2) && Quiet(a, b, c1, c2)
    ensures |Kept(a, c1)| <= QuietLength(a, b)
    decreases |a| + |b|
  {
    if a != [] && b != [] {
      var m, n := |a| - 1, |b| - 1;
      QuietInit(a, c1);
      QuietInit(b, c2);
      KeptWithLast(a, c1);
      KeptWithLast(b, c2);
      if c1[m] {
        assert Common(a[..m], b, c1[..m], c2);
        QuietAtMost(a[..m], b, c1[..m], c2);
        QuietLengthSymmetric(a[..m], b);
        QuietLengthSymmetric(a, b);
        QuietLengthBlank(b, a);
      } else if c2[n] {
        assert Common(a, b[..n], c1, c2[..n]);
        QuietAtMost(a, b[..n], c1, c2[..n]);
        QuietLengthBlank(a, b);
      } else {
        LastOfEqual(Kept(a[..m], c1[..m]), a[m], Kept(b[..n], c2[..n]), b[n]);
        QuietAtMost(a[..m], b[..n], c1[..m], c2[..n]);
      }
    }
  }

  /** Marks that keep every line that is not blank, and as many blank ones as run by run matching can. */
  function Pairing(a: seq<int>, b: seq<int>): (r: (seq<bool>, seq<bool>))
    ensures |r.0| == |a| && |r.1| == |b|
    decreases |a| + |b|
  {
    if a == [] || b == [] then (seq(|a|, _ => true), seq(|b|, _ => true))
    else
      var m, n := |a| - 1, |b| - 1;
      if (a[m] == 0) == (b[n] == 0) then
        var (c1, c2) := Pairing(a[..m], b[..n]);
        (c1 + [false], c2 + [false])
      else if a[m] == 0 then
        var (c1, c2) := Pairing(a[..m], b);
        (c1 + [true], c2)
      else
        var (c1, c2) := Pairing(a, b[..n]);
        (c1, c2 + [true])
  }

  lemma KeptMore(a: seq<int>, c: seq<bool>, x: int, mark: bool)
    requires |a| == |c|
    ensures Kept(a + [x], c + [mark]) == Kept(a, c) + if mark then [] else [x]
    ensures AnyVisible(a + [x], c + [mark], |a| + 1) <==> AnyVisible(a, c, |a|) || (mark && x != 0)
  {
    assert (a + [x])[..|a|] == a && (c + [mark])[..|a|] == c;
    VisibleInit(a + [x], c + [mark], |a|);
  }

  lemma AllBlank(a: seq<int>)
    requires DropBlank(a) == []
    ensures forall i :: 0 <= i < |a| ==> a[i] == 0
  {
    if a != [] {
      AllBlank(a[..|a| - 1]);
    }
  }

  lemma DropBlankMore(s: seq<int>, x: int)
    ensures DropBlank(s + [x]) == DropBlank(s) + if x == 0 then [] else [x]
  {
    assert (s + [x])[..|s|] == s;
  }

  lemma {:induction false} PairingEnds(a: seq<int>, b: seq<int>)
    requires (a == [] || b == []) && DropBlank(a) == DropBlank(b)
    ensures var (c1, c2) := Pairing(a, b);
            Common(a, b, c1, c2) && Quiet(a, b, c1, c2) && |Kept(a, c1)| == QuietLength(a, b)
  {
    var (c1, c2) := Pairing(a, b);
    AllBlank(a);
    AllBlank(b);
    KeptAll(a, c1, true);
    KeptAll(b, c2, true);
  }

  /** For files that agree but for blank lines such marks leave the same on both sides. */
  lemma {:induction false} PairingKeeps(a: seq<int>, b: seq<int>)
    requires DropBlank(a) == DropBlank(b)
    ensures var (c1, c2) := Pairing(a, b);
            Common(a, b, c1, c2) && Quiet(a, b, c1, c2) && |Kept(a, c1)| == QuietLength(a, b)
    decreases |a| + |b|
  {
    if a == [] || b == [] {
      PairingEnds(a, b);
    } else {
      var m, n := |a| - 1, |b| - 1;
      var a', b', x, y := a[..m], b[..n], a[m], b[n];
      assert a == a' + [x] && b == b' + [y];
      DropBlankMore(a', x);
      DropBlankMore(b', y);
      if (x == 0) == (y == 0) {
        if x != 0 {
          LastOfEqual(DropBlank(a'), x, DropBlank(b'), y);
        }
        PairingKeeps(a', b');
        var (c1, c2) := Pairing(a', b');
        KeptMore(a', c1, x, false);
        KeptMore(b', c2, y, false);
      } else if x == 0 {
        PairingKeeps(a', b);
        KeptMore(a', Pairing(a', b).0, x, true);
      } else {
        PairingKeeps(a, b');
        KeptMore(b', Pairing(a, b').1, y, true);
      }
    }
  }

  // ----- Markings that keep as much as possible -----

  /** There is a pair of markings that leaves a common subsequence of the reference length. */
  lemma {:induction false} BestExists(a: seq<int>, b: seq<int>) returns (c1: seq<bool>, c2: seq<bool>)
    ensures Common(a, b, c1, c2) && |Kept(a, c1)| == Length(a, b)
    decreases |a| + |b|
  {
    if a == [] || b == [] {
      c1, c2 := seq(|a|, _ => true), seq(|b|, _ => true);
      KeptAll(a, c1, true);
      KeptAll(b, c2, true);
    } else {
      var m, n := |a| - 1, |b| - 1;
      var a', b', x, y := a[..m], b[..n], a[m], b[n];
      assert a == a' + [x] && b == b' + [y];
      LengthStep(a', b', x, y);
      if x == y {
        c1, c2 := BestExists(a', b');
        KeptMore(a', c1, x, false);
        KeptMore(b', c2, y, false);
        c1, c2 := c1 + [false], c2 + [false];
      } else if Length(a', b) >= Length(a, b') {
        c1, c2 := BestExists(a', b);
        KeptMore(a', c1, x, true);
        c1 := c1 + [true];
      } else {
        c1, c2 := BestExists(a, b');
        KeptMore(b', c2, y, true);
        c2 := c2 + [true];
      }
    }
  }

  lemma LongestHasLength(a: seq<int>, b: seq<int>, c1: seq<bool>, c2: seq<bool>)
    requires Longest(a, b, c1, c2)
    ensures |Kept(a, c1)| == Length(a, b)
  {
    LengthIsUpperBound(a, b, c1, c2);
    var d1, d2 := BestExists(a, b);
  }

  /** Files that do not agree but for blank lines, or whose longest match is longer than one that keeps
      all other lines, show a change in every longest match. */
  lemma ChangeIsForced(a: seq<int>, b: seq<int>, c1: seq<bool>, c2: seq<bool>)
    requires Longest(a, b, c1, c2) && (DropBlank(a) != DropBlank(b) || Length(a, b) != QuietLength(a, b))
    ensures !Quiet(a, b, c1, c2)
  {
    if Quiet(a, b, c1, c2) {
      QuietIff(a, b, c1, c2);
      LongestHasLength(a, b, c1, c2);
      QuietAtMost(a, b, c1, c2);
      PairingKeeps(a, b);
      LengthIsUpperBound(a, b, Pairing(a, b).0, Pairing(a, b).1);
    }
  }

  /** Exactly when some longest match shows no change: the files agree but for blank lines, and no match
      is longer than one that keeps all other lines. */
  lemma QuietPossibleIff(a: seq<int>, b: seq<int>)
    ensures (exists c1, c2 :: Longest(a, b, c1, c2) && Quiet(a, b, c1, c2)) <==>
            DropBlank(a) == DropBlank(b) && Length(a, b) == QuietLength(a, b)
  {
    if DropBlank(a) == DropBlank(b) && Length(a, b) == QuietLength(a, b) {
      var (c1, c2) := Pairing(a, b);
      PairingKeeps(a, b);
      LengthIsLongest(a, b, c1, c2);
    } else {
      forall c1, c2 | Longest(a, b, c1, c2)
        ensures !Quiet(a, b, c1, c2)
      {
        ChangeIsForced(a, b, c1, c2);
      }
    }
  }

  lemma NoneBlank(a: seq<int>)
    ensures |DropBlank(a)| <= |a|
    ensures 0 !in a <==> |DropBlank(a)| == |a|
  {
    if a != [] {
      NoneBlank(a[..|a| - 1]);
      assert a == a[..|a| - 1] + [a[|a| - 1]];
    }
  }

  /** With no blank line in one of two files that agree but for blank lines, no longest match shows a change. */
  lemma QuietIsForced(a: seq<int>, b: seq<int>, c1: seq<bool>, c2: seq<bool>)
    requires Longest(a, b, c1, c2) && DropBlank(a) == DropBlank(b) && (0 !in a || 0 !in b)
    ensures Quiet(a, b, c1, c2)
  {
    PairingKeeps(a, b);
    var (d1, d2) := Pairing(a, b);
    QuietIff(a, b, d1, d2);
    NoneBlank(a);
    NoneBlank(b);
    NoneBlank(Kept(a, d1));
    NoneBlank(Kept(a, c1));
    KeptLength(a, c1);
    KeptLength(b, c2);
    forall x | x in Kept(a, c1)
      ensures x in a && x in b
    {
      KeptSource(a, c1, x);
      KeptSource(b, c2, x);
    }
    QuietIff(a, b, c1, c2);
  }

  // ----- When every longest match shows no change -----

  function Without<T>(s: seq<T>, p: int): (r: seq<T>)
    requires 0 <= p < |s|
    ensures |r| == |s| - 1
  {
    s[..p] + s[p + 1..]
  }

  /** No longest match can do without any of the lines of a that are not blank. */
  ghost predicate Needed(a: seq<int>, b: seq<int>)
  {
    forall p :: 0 <= p < |a| && a[p] != 0 ==> Length(Without(a, p), b) < Length(a, b)
  }

  /** A marked element can as well be missing. */
  lemma KeptWithout(a: seq<int>, c: seq<bool>, p: int)
    requires 0 <= p < |a| == |c| && c[p]
    ensures Kept(Without(a, p), Without(c, p)) == Kept(a, c)
  {
    KeptSplit(a, c, p);
    KeptPrevious(a, c, p);
    KeptConcat(a[..p], a[p + 1..], c[..p], c[p + 1..]);
    assert [] + Kept(a[p + 1..], c[p + 1..]) == Kept(a[p + 1..], c[p + 1..]);
  }

  lemma LongestFlip(a: seq<int>, b: seq<int>, c1: seq<bool>, c2: seq<bool>)
    requires Longest(a, b, c1, c2)
    ensures Longest(b, a, c2, c1)
  {
    forall other1, other2 | Common(b, a, other1, other2)
      ensures |Kept(b, other1)| <= |Kept(b, c2)|
    {
      assert Common(a, b, other2, other1);
    }
  }

  /** What is needed is in every longest match. */
  lemma NeededIsKept(a: seq<int>, b: seq<int>, c1: seq<bool>, c2: seq<bool>)
    requires Longest(a, b, c1, c2) && Needed(a, b)
    ensures !AnyVisible(a, c1, |a|)
  {
    if p :| 0 <= p < |a| && Visible(a, c1, p) {
      KeptWithout(a, c1, p);
      LongestHasLength(a, b, c1, c2);
      LengthIsUpperBound(Without(a, p), b, Without(c1, p), c2);
    }
  }

  /** What is not needed is marked in some longest match. */
  lemma MarkedSomewhere(a: seq<int>, b: seq<int>, p: int) returns (c1: seq<bool>, c2: seq<bool>)
    requires 0 <= p < |a| && Length(Without(a, p), b) >= Length(a, b)
    ensures Longest(a, b, c1, c2) && c1[p]
  {
    var d1;
    d1, c2 := BestExists(Without(a, p), b);
    c1 := d1[..p] + [true] + d1[p..];
    assert Without(c1, p) == d1;
    KeptWithout(a, c1, p);
    LengthIsUpperBound(a, b, c1, c2);
    LengthIsLongest(a, b, c1, c2);
  }

  lemma NotNeeded(a: seq<int>, b: seq<int>) returns (c1: seq<bool>, c2: seq<bool>)
    requires !Needed(a, b)
    ensures Longest(a, b, c1, c2) && AnyVisible(a, c1, |a|)
  {
    var p :| 0 <= p < |a| && a[p] != 0 && Length(Without(a, p), b) >= Length(a, b);
    c1, c2 := MarkedSomewhere(a, b, p);
    assert Visible(a, c1, p);
  }

  /** Exactly when every longest match shows no change: each line that is not blank, on either side, makes
      the longest match longer. */
  lemma QuietAlwaysIff(a: seq<int>, b: seq<int>)
    ensures (forall c1, c2 :: Longest(a, b, c1, c2) ==> Quiet(a, b, c1, c2)) <==> Needed(a, b) && Needed(b, a)
  {
    if Needed(a, b) && Needed(b, a) {
      forall c1, c2 | Longest(a, b, c1, c2)
        ensures Quiet(a, b, c1, c2)
      {
        LongestFlip(a, b, c1, c2);
        NeededIsKept(a, b, c1, c2);
        NeededIsKept(b, a, c2, c1);
      }
    } else if !Needed(a, b) {
      var c1, c2 := NotNeeded(a, b);
      assert !Quiet(a, b, c1, c2);
    } else {
      var c2, c1 := NotNeeded(b, a);
      LongestFlip(b, a, c2, c1);
      assert !Quiet(a, b, c1, c2);
    }
  }

  /** Files that agree but for blank lines need all other lines if one of them has no blank line. */
  lemma NoBlankIsNeeded(a: seq<int>, b: seq<int>)
    requires DropBlank(a) == DropBlank(b) && (0 !in a || 0 !in b)
    ensures Needed(a, b) && Needed(b, a)
  {
    forall c1, c2 | Longest(a, b, c1, c2)
      ensures Quiet(a, b, c1, c2)
    {
      QuietIsForced(a, b, c1, c2);
    }
    QuietAlwaysIff(a, b);
  }

  /** When a longest match shows no change: exactly, and what forces it to show one or none. */
  lemma QuietVerdict(a: seq<int>, b: seq<int>, c1: seq<bool>, c2: seq<bool>)
    requires Longest(a, b, c1, c2)
    ensures Quiet(a, b, c1, c2) <==> DropBlank(a) == DropBlank(b) && |DropBlank(Kept(a, c1))| == |DropBlank(a)|
    ensures DropBlank(a) != DropBlank(b) || Length(a, b) != QuietLength(a, b) ==> !Quiet(a, b, c1, c2)
    ensures Needed(a, b) && Needed(b, a) ==> Quiet(a, b, c1, c2)
  {
    QuietIff(a, b, c1, c2);
    if DropBlank(a) != DropBlank(b) || Length(a, b) != QuietLength(a, b) {
      ChangeIsForced(a, b, c1, c2);
    }
    if Needed(a, b) && Needed(b, a) {
      QuietAlwaysIff(a, b);
    }
  }
}
