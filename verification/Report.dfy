/** Turning change marks into edit operations, grouped with context lines. */
module Report {
  import opened Wrappers
  import opened Marks
  import opened Hunks

  /** The receiver of the groups of operations. */
  class DiffChanger {
    var hunks: seq<seq<DiffOp>>

    constructor ()
      ensures hunks == []
    {
      hunks := [];
    }

    method DiffLines(ops: seq<DiffOp>)
      modifies this
      ensures hunks == old(hunks) + [ops]
    {
      hunks := hunks + [ops];
    }
  }

  method AddChangeSegment(chg: DiffChanger, ops: seq<DiffOp>, op: DiffOp, context: nat) returns (ops': seq<DiffOp>)
    modifies chg
    ensures chg.hunks == old(chg.hunks) + if Splits(ops, op, context) then [ops + After(ops, op, context)] else []
    ensures ops' == (if Splits(ops, op, context) then [] else ops) + Before(ops, op, context)
                    + if op.op.Flush? then [] else [op]
  {
    var last1, last2 := 0, 0;
    if |ops| > 0 {
      var lastOp := ops[|ops| - 1];
      last1, last2 := lastOp.end1, lastOp.end2;
    }
    ops' := ops;
    var gap1, gap2 := op.start1 - last1, op.start2 - last2;
    if |ops| > 0 && (op.op.Flush? || (gap1 > context * 2 && gap2 > context * 2)) {
      var e1, e2 := Min(op.start1, last1 + context), Min(op.start2, last2 + context);
      if e1 > last1 || e2 > last2 {
        ops' := ops' + [DiffOp(Same, last1, e1, last2, e2)];
      }
      assert ops' == ops + After(ops, op, context);
      chg.DiffLines(ops');
      ops' := [];
    } else {
      assert chg.hunks == chg.hunks + [];
    }
    var c1, c2 := Max(last1, op.start1 - context), Max(last2, op.start2 - context);
    if c1 < op.start1 || c2 < op.start2 {
      ops' := ops' + [DiffOp(Same, c1, op.start1, c2, op.start2)];
    }
    if !op.op.Flush? {
      ops' := ops' + [op];
    }
  }

  /** The marked run from `start` ends at `end`; without the blank lines at its ends it is lo to hi. */
  ghost predicate Segment(data: seq<int>, change: seq<bool>, start: int, end: int, lo: int, hi: int)
  {
    && 0 <= start <= lo <= hi <= end <= |change| == |data|
    && All(change, start, end, true)
    && (forall i :: start <= i < lo || hi <= i < end ==> data[i] == 0)
    && (if lo < hi then data[lo] != 0 && data[hi - 1] != 0 else lo == end)
  }

  method NextChangeSegment(start: nat, change: seq<bool>, data: seq<int>) returns (end: nat, i: nat, j: nat)
    requires start < |change| == |data| && change[start]
    ensures Segment(data, change, start, end, i, j) && start < end && (end == |change| || !change[end])
  {
    end := start + 1;
    while end < |change| && change[end]
      invariant start < end <= |change| && All(change, start, end, true)
    {
      end := end + 1;
    }
    i, j := start, end;
    while i < end && data[i] == 0
      invariant start <= i <= end && forall p :: start <= p < i ==> data[p] == 0
    {
      i := i + 1;
    }
    while j > i && data[j - 1] == 0
      invariant i <= j <= end && forall p :: j <= p < end ==> data[p] == 0
    {
      j := j - 1;
    }
  }

  // ----- What a list of operations says about one side -----

  /** The part of an operation that lies in one file. */
  datatype Span = Span(edit: bool, lo: int, hi: int)

  function Spans1(ops: seq<DiffOp>): (r: seq<Span>)
    ensures |r| == |ops|
    ensures forall k :: 0 <= k < |ops| ==> r[k] == Span(!ops[k].op.Same?, ops[k].start1, ops[k].end1)
  {
    seq(|ops|, k requires 0 <= k < |ops| => Span(!ops[k].op.Same?, ops[k].start1, ops[k].end1))
  }

  function Spans2(ops: seq<DiffOp>): (r: seq<Span>)
    ensures |r| == |ops|
    ensures forall k :: 0 <= k < |ops| ==> r[k] == Span(!ops[k].op.Same?, ops[k].start2, ops[k].end2)
  {
    seq(|ops|, k requires 0 <= k < |ops| => Span(!ops[k].op.Same?, ops[k].start2, ops[k].end2))
  }

  /** A changed line that is not blank has to be reported. */
  ghost predicate Visible(data: seq<int>, change: seq<bool>, p: int)
  {
    0 <= p < |data| && p < |change| && change[p] && data[p] != 0
  }

  ghost predicate CoveredBy(spans: seq<Span>, p: int)
  {
    exists k :: 0 <= k < |spans| && spans[k].edit && spans[k].lo <= p < spans[k].hi
  }

  /** In order and without overlap, the spans account for the first i lines: every visible change lies in
      an edit, edits cover changed lines only, and context covers no visible change. */
  ghost predicate Accounts(spans: seq<Span>, data: seq<int>, change: seq<bool>, i: int)
  {
    && 0 <= i <= |data| == |change|
    && (forall k :: 0 <= k < |spans| ==> 0 <= spans[k].lo <= spans[k].hi <= i)
    && (forall k, l :: 0 <= k < l < |spans| ==> spans[k].hi <= spans[l].lo)
    && (forall k, p :: 0 <= k < |spans| && spans[k].lo <= p < spans[k].hi ==>
          if spans[k].edit then change[p] else !Visible(data, change, p))
    && (forall p :: 0 <= p < i && Visible(data, change, p) ==> CoveredBy(spans, p))
  }

  function LastHi(spans: seq<Span>): int { if spans == [] then 0 else spans[|spans| - 1].hi }

  lemma AccountsAdvance(spans: seq<Span>, data: seq<int>, change: seq<bool>, i: int, j: int)
    requires Accounts(spans, data, change, i) && i <= j <= |data|
    requires forall p :: i <= p < j ==> !Visible(data, change, p)
    ensures Accounts(spans, data, change, j)
  {
  }

  /** What the spans cover, and what is in a span that is no edit, is as it should be with one more. */
  lemma CoverAppend(spans: seq<Span>, data: seq<int>, change: seq<bool>, i: int, s: Span, j: int, p: int)
    requires Accounts(spans, data, change, i) && i <= j <= |data|
    requires if s.edit then s.lo == i && s.hi == j else j == i
    requires 0 <= p < j && Visible(data, change, p)
    ensures CoveredBy(spans + [s], p)
  {
    var t := spans + [s];
    if p < i {
      var k :| 0 <= k < |spans| && spans[k].edit && spans[k].lo <= p < spans[k].hi;
      assert t[k] == spans[k];
    } else {
      assert t[|spans|] == s;
    }
  }

  lemma ContextIsClean(spans: seq<Span>, data: seq<int>, change: seq<bool>, i: int, s: Span, p: int)
    requires Accounts(spans, data, change, i) && LastHi(spans) <= s.lo <= p < s.hi <= i
    ensures !Visible(data, change, p)
  {
    if Visible(data, change, p) {
      GapIsClean(spans, data, change, i, p);
    }
  }

  lemma AccountsAppend(spans: seq<Span>, data: seq<int>, change: seq<bool>, i: int, s: Span, j: int)
    requires Accounts(spans, data, change, i) && LastHi(spans) <= s.lo <= s.hi <= j && i <= j <= |data|
    requires if s.edit then s.lo == i && s.hi == j && All(change, i, j, true) else j == i
    ensures Accounts(spans + [s], data, change, j)
  {
    forall p | 0 <= p < j && Visible(data, change, p)
      ensures CoveredBy(spans + [s], p)
    {
      CoverAppend(spans, data, change, i, s, j, p);
    }
    forall p | s.lo <= p < s.hi && !s.edit
      ensures !Visible(data, change, p)
    {
      ContextIsClean(spans, data, change, i, s, p);
    }
  }

  /** Behind the last span there is no visible change. */
  lemma GapIsClean(spans: seq<Span>, data: seq<int>, change: seq<bool>, i: int, p: int)
    requires Accounts(spans, data, change, i) && LastHi(spans) <= p < i
    ensures !Visible(data, change, p)
  {
    if Visible(data, change, p) {
      var k :| 0 <= k < |spans| && spans[k].edit && spans[k].lo <= p < spans[k].hi;
    }
  }

  // ----- The operations as a patch -----

  function Slice<T>(s: seq<T>, lo: int, hi: int): seq<T>
  {
    if 0 <= lo <= hi <= |s| then s[lo..hi] else []
  }

  /** The first i lines of file 1 with every edit's lines replaced by its lines of file 2. */
  function Patch<T>(a: seq<T>, b: seq<T>, ops: seq<DiffOp>, i: int): (r: seq<T>)
    decreases |ops|
  {
    if ops == [] then Slice(a, 0, i)
    else
      var n := |ops| - 1;
      var e := ops[n];
      if e.op.Same? then Patch(a, b, ops[..n], i)
      else Patch(a, b, ops[..n], e.start1) + Slice(b, e.start2, e.end2) + Slice(a, e.end1, i)
  }

  function DropBlank(s: seq<int>): (r: seq<int>)
  {
    if s == [] then []
    else DropBlank(s[..|s| - 1]) + if s[|s| - 1] == 0 then [] else [s[|s| - 1]]
  }

  lemma {:induction false} DropBlankConcat(s: seq<int>, t: seq<int>)
    ensures DropBlank(s + t) == DropBlank(s) + DropBlank(t)
  {
    if t == [] {
      assert s + t == s;
    } else {
      var n := |t| - 1;
      DropBlankConcat(s, t[..n]);
      assert (s + t)[..|s + t| - 1] == s + t[..n];
    }
  }

  lemma {:induction false} DropBlankAll(s: seq<int>)
    requires forall i :: 0 <= i < |s| ==> s[i] == 0
    ensures DropBlank(s) == []
  {
    if s != [] {
      DropBlankAll(s[..|s| - 1]);
    }
  }

  lemma {:induction false} DropBlankNone(s: seq<int>)
    requires forall i :: 0 <= i < |s| ==> s[i] != 0
    ensures DropBlank(s) == s
  {
    if s != [] {
      DropBlankNone(s[..|s| - 1]);
    }
  }

  /** Every operation ends at or before line i of file 1. */
  ghost predicate EndsBy(ops: seq<DiffOp>, i: int)
  {
    0 <= i && forall k :: 0 <= k < |ops| ==> 0 <= ops[k].end1 <= i
  }

  lemma SliceMore<T>(s: seq<T>, lo: int, i: int, j: int)
    requires 0 <= lo <= i <= j <= |s|
    ensures Slice(s, lo, j) == Slice(s, lo, i) + s[i..j]
  {
  }

  lemma {:induction false} PatchExtend<T>(a: seq<T>, b: seq<T>, ops: seq<DiffOp>, i: int, j: int)
    requires EndsBy(ops, i) && i <= j <= |a|
    ensures Patch(a, b, ops, j) == Patch(a, b, ops, i) + a[i..j]
    decreases |ops|
  {
    if ops == [] {
      SliceMore(a, 0, i, j);
    } else {
      var n := |ops| - 1;
      var e := ops[n];
      if e.op.Same? {
        PatchExtend(a, b, ops[..n], i, j);
      } else {
        SliceMore(a, e.end1, i, j);
        Reassociate(Patch(a, b, ops[..n], e.start1) + Slice(b, e.start2, e.end2), Slice(a, e.end1, i), a[i..j]);
      }
    }
  }

  lemma {:induction false} PatchIgnoresSame<T>(a: seq<T>, b: seq<T>, ops: seq<DiffOp>, same: seq<DiffOp>, i: int)
    requires forall k :: 0 <= k < |same| ==> same[k].op.Same?
    ensures Patch(a, b, ops + same, i) == Patch(a, b, ops, i)
    decreases |same|
  {
    if same == [] {
      assert ops + same == ops;
    } else {
      var n := |same| - 1;
      assert (ops + same)[..|ops + same| - 1] == ops + same[..n];
      PatchIgnoresSame(a, b, ops, same[..n], i);
    }
  }

  lemma PatchEdit<T>(a: seq<T>, b: seq<T>, ops: seq<DiffOp>, e: DiffOp)
    requires !e.op.Same? && EndsBy(ops, e.start1) && e.start1 <= e.end1 <= |a| && 0 <= e.start2 <= e.end2 <= |b|
    ensures Patch(a, b, ops + [e], e.end1) == Patch(a, b, ops, e.start1) + b[e.start2..e.end2]
  {
    assert (ops + [e])[..|ops|] == ops;
  }

  // ----- The report of a pair of markings -----

  ghost predicate AnyVisible(data: seq<int>, change: seq<bool>, i: int)
  {
    exists p :: 0 <= p < i && Visible(data, change, p)
  }

  /** The operation's kind tells on which sides it has lines. */
  predicate KindFits(op: DiffOp)
  {
    match op.op
    case Modify => op.start1 < op.end1 && op.start2 < op.end2
    case Remove => op.start1 < op.end1 && op.start2 == op.end2
    case Insert => op.start1 == op.end1 && op.start2 < op.end2
    case Same => op.start1 < op.end1 || op.start2 < op.end2
    case Flush => false
  }

  /** Context shows the same lines of both files, and so does what follows the last operation. */
  ghost predicate Aligned(a: seq<int>, b: seq<int>, ops: seq<DiffOp>, i1: int, i2: int)
  {
    && (forall k :: 0 <= k < |ops| && ops[k].op.Same? ==>
          Slice(a, ops[k].start1, ops[k].end1) == Slice(b, ops[k].start2, ops[k].end2))
    && 0 <= Last1(ops) <= i1 <= |a| && 0 <= Last2(ops) <= i2 <= |b|
    && a[Last1(ops)..i1] == b[Last2(ops)..i2]
  }

  /** The operations lie where the marks say, on both sides. */
  ghost predicate Placed(a: seq<int>, b: seq<int>, c1: seq<bool>, c2: seq<bool>, ops: seq<DiffOp>, i1: int, i2: int)
  {
    && Accounts(Spans1(ops), a, c1, i1) && Accounts(Spans2(ops), b, c2, i2)
    && (forall k :: 0 <= k < |ops| ==> KindFits(ops[k]))
  }

  /** The operations report the first i1 and i2 lines completely and truthfully. */
  ghost predicate Reported(a: seq<int>, b: seq<int>, c1: seq<bool>, c2: seq<bool>, ops: seq<DiffOp>, i1: int, i2: int,
                           changed: bool)
  {
    && Placed(a, b, c1, c2, ops, i1, i2)
    && DropBlank(Patch(a, b, ops, i1)) == DropBlank(b[..i2])
    && (changed <==> AnyVisible(a, c1, i1) || AnyVisible(b, c2, i2))
    && (0 !in a && 0 !in b ==> Aligned(a, b, ops, i1, i2))
  }

  /** As many lines are kept on both sides so far, and they are the same. */
  ghost predicate Level(a: seq<int>, b: seq<int>, c1: seq<bool>, c2: seq<bool>, i1: int, i2: int)
  {
    && |a| == |c1| && |b| == |c2| && 0 <= i1 <= |a| && 0 <= i2 <= |b|
    && Kept(a, c1) == Kept(b, c2)
    && Kept(a[..i1], c1[..i1]) == Kept(b[..i2], c2[..i2])
  }

  lemma LevelKept(a: seq<int>, b: seq<int>, c1: seq<bool>, c2: seq<bool>, i1: int, i2: int)
    requires Level(a, b, c1, c2, i1, i2)
    ensures Kept(a[i1..], c1[i1..]) == Kept(b[i2..], c2[i2..])
    ensures i1 < |a| && !c1[i1] && i2 == |b| ==> false
    ensures i2 < |b| && !c2[i2] && i1 == |a| ==> false
    ensures i1 < |a| && i2 < |b| && !c1[i1] && !c2[i2] ==> a[i1] == b[i2] && Level(a, b, c1, c2, i1 + 1, i2 + 1)
  {
    KeptSplit(a, c1, i1);
    KeptSplit(b, c2, i2);
    var k := Kept(a[..i1], c1[..i1]);
    assert Kept(a[i1..], c1[i1..]) == Kept(a, c1)[|k|..];
    assert Kept(b[i2..], c2[i2..]) == Kept(b, c2)[|k|..];
    if i1 < |a| {
      KeptNext(a, c1, i1);
      KeptPrevious(a, c1, i1);
    }
    if i2 < |b| {
      KeptNext(b, c2, i2);
      KeptPrevious(b, c2, i2);
    }
    if i1 < |a| && i2 < |b| && !c1[i1] && !c2[i2] {
      assert Kept(a[i1..], c1[i1..])[0] == a[i1] && Kept(b[i2..], c2[i2..])[0] == b[i2];
    }
  }

  lemma LevelMarked(a: seq<int>, b: seq<int>, c1: seq<bool>, c2: seq<bool>, i1: int, i2: int, end1: int, end2: int)
    requires Level(a, b, c1, c2, i1, i2) && All(c1, i1, end1, true) && All(c2, i2, end2, true)
    ensures Level(a, b, c1, c2, end1, end2)
  {
    KeptMarked(a, c1, i1, end1);
    KeptMarked(b, c2, i2, end2);
  }

  lemma KeptMarked(a: seq<int>, c: seq<bool>, i: int, end: int)
    requires |a| == |c| && All(c, i, end, true)
    ensures Kept(a[..end], c[..end]) == Kept(a[..i], c[..i])
  {
    KeptAt(a, c, 0, i, end);
    KeptAll(a[i..end], c[i..end], true);
    assert a[0..end] == a[..end] && c[0..end] == c[..end] && a[0..i] == a[..i] && c[0..i] == c[..i];
  }

  lemma SpansEndBy(ops: seq<DiffOp>, a: seq<int>, c1: seq<bool>, i: int)
    requires Accounts(Spans1(ops), a, c1, i)
    ensures EndsBy(ops, i)
  {
    forall k | 0 <= k < |ops|
      ensures 0 <= ops[k].end1 <= i
    {
      assert Spans1(ops)[k].hi <= i;
    }
  }

  lemma PlacedAdvance(a: seq<int>, b: seq<int>, c1: seq<bool>, c2: seq<bool>, ops: seq<DiffOp>,
                      i1: int, i2: int, j1: int, j2: int)
    requires Placed(a, b, c1, c2, ops, i1, i2) && i1 <= j1 <= |a| && i2 <= j2 <= |b|
    requires (forall p :: i1 <= p < j1 ==> !Visible(a, c1, p)) && (forall p :: i2 <= p < j2 ==> !Visible(b, c2, p))
    ensures Placed(a, b, c1, c2, ops, j1, j2)
    ensures EndsBy(ops, i1)
  {
    SpansEndBy(ops, a, c1, i1);
    AccountsAdvance(Spans1(ops), a, c1, i1, j1);
    AccountsAdvance(Spans2(ops), b, c2, i2, j2);
  }

  /** Two unmarked lines. */
  lemma ReportBoth(a: seq<int>, b: seq<int>, c1: seq<bool>, c2: seq<bool>, ops: seq<DiffOp>, i1: int, i2: int,
                   changed: bool)
    requires Reported(a, b, c1, c2, ops, i1, i2, changed)
    requires i1 < |a| && i2 < |b| && !c1[i1] && !c2[i2] && a[i1] == b[i2]
    ensures Reported(a, b, c1, c2, ops, i1 + 1, i2 + 1, changed)
  {
    PlacedAdvance(a, b, c1, c2, ops, i1, i2, i1 + 1, i2 + 1);
    PatchSame(a, b, ops, i1, i2);
    if 0 !in a && 0 !in b {
      AlignedSame(a, b, ops, i1, i2);
    }
  }

  lemma PatchSame(a: seq<int>, b: seq<int>, ops: seq<DiffOp>, i1: int, i2: int)
    requires EndsBy(ops, i1) && 0 <= i1 < |a| && 0 <= i2 < |b| && a[i1] == b[i2]
    requires DropBlank(Patch(a, b, ops, i1)) == DropBlank(b[..i2])
    ensures DropBlank(Patch(a, b, ops, i1 + 1)) == DropBlank(b[..i2 + 1])
  {
    PatchExtend(a, b, ops, i1, i1 + 1);
    OneSlice(a, i1);
    OneMore(b, i2);
    DropBlankSame(Patch(a, b, ops, i1), b[..i2], [a[i1]]);
  }

  lemma OneSlice(s: seq<int>, i: int)
    requires 0 <= i < |s|
    ensures s[i..i + 1] == [s[i]]
  {
  }

  lemma OneMore(s: seq<int>, i: int)
    requires 0 <= i < |s|
    ensures s[..i + 1] == s[..i] + [s[i]]
  {
  }

  lemma AlignedSame(a: seq<int>, b: seq<int>, ops: seq<DiffOp>, i1: int, i2: int)
    requires Aligned(a, b, ops, i1, i2) && i1 < |a| && i2 < |b| && a[i1] == b[i2]
    ensures Aligned(a, b, ops, i1 + 1, i2 + 1)
  {
    assert a[Last1(ops)..i1 + 1] == a[Last1(ops)..i1] + [a[i1]];
    assert b[Last2(ops)..i2 + 1] == b[Last2(ops)..i2] + [b[i2]];
  }

  /** Changed lines that are all blank. */
  lemma ReportBlank(a: seq<int>, b: seq<int>, c1: seq<bool>, c2: seq<bool>, ops: seq<DiffOp>, i1: int, i2: int,
                    changed: bool, j1: int, j2: int)
    requires Reported(a, b, c1, c2, ops, i1, i2, changed) && i1 <= j1 <= |a| && i2 <= j2 <= |b|
    requires (forall p :: i1 <= p < j1 ==> a[p] == 0) && (forall p :: i2 <= p < j2 ==> b[p] == 0)
    ensures Reported(a, b, c1, c2, ops, j1, j2, changed)
  {
    PlacedAdvance(a, b, c1, c2, ops, i1, i2, j1, j2);
    PatchBlank(a, b, ops, i1, i2, j1, j2);
    BlankShows(a, c1, i1, j1);
    BlankShows(b, c2, i2, j2);
    BlankIn(a, i1, j1);
    BlankIn(b, i2, j2);
  }

  lemma BlankShows(data: seq<int>, change: seq<bool>, i: int, j: int)
    requires 0 <= i <= j <= |data| && forall p :: i <= p < j ==> data[p] == 0
    ensures AnyVisible(data, change, j) <==> AnyVisible(data, change, i)
  {
  }

  lemma BlankIn(data: seq<int>, i: int, j: int)
    requires 0 <= i <= j <= |data| && forall p :: i <= p < j ==> data[p] == 0
    ensures i < j ==> 0 in data
  {
    assert i < j ==> data[i] in data;
  }

  lemma PatchBlank(a: seq<int>, b: seq<int>, ops: seq<DiffOp>, i1: int, i2: int, j1: int, j2: int)
    requires EndsBy(ops, i1) && i1 <= j1 <= |a| && 0 <= i2 <= j2 <= |b|
    requires (forall p :: i1 <= p < j1 ==> a[p] == 0) && (forall p :: i2 <= p < j2 ==> b[p] == 0)
    requires DropBlank(Patch(a, b, ops, i1)) == DropBlank(b[..i2])
    ensures DropBlank(Patch(a, b, ops, j1)) == DropBlank(b[..j2])
  {
    PatchExtend(a, b, ops, i1, j1);
    DropBlankConcat(Patch(a, b, ops, i1), a[i1..j1]);
    DropBlankAll(a[i1..j1]);
    DropBlankConcat(b[..i2], b[i2..j2]);
    DropBlankAll(b[i2..j2]);
    assert b[..j2] == b[..i2] + b[i2..j2];
  }

  lemma SpansAppend(ops: seq<DiffOp>, op: DiffOp)
    ensures Spans1(ops + [op]) == Spans1(ops) + [Span(!op.op.Same?, op.start1, op.end1)]
    ensures Spans2(ops + [op]) == Spans2(ops) + [Span(!op.op.Same?, op.start2, op.end2)]
  {
  }

  lemma PlacedContext(a: seq<int>, b: seq<int>, c1: seq<bool>, c2: seq<bool>, ops: seq<DiffOp>, i1: int, i2: int,
                      same: DiffOp)
    requires Placed(a, b, c1, c2, ops, i1, i2) && same.op.Same? && KindFits(same)
    requires Last1(ops) <= same.start1 <= same.end1 <= i1 && Last2(ops) <= same.start2 <= same.end2 <= i2
    ensures Placed(a, b, c1, c2, ops + [same], i1, i2)
  {
    SpansAppend(ops, same);
    AccountsAppend(Spans1(ops), a, c1, i1, Span(false, same.start1, same.end1), i1);
    AccountsAppend(Spans2(ops), b, c2, i2, Span(false, same.start2, same.end2), i2);
  }

  /** One more context operation somewhere behind the last operation. */
  lemma ReportContext(a: seq<int>, b: seq<int>, c1: seq<bool>, c2: seq<bool>, ops: seq<DiffOp>, i1: int, i2: int,
                      changed: bool,
                      same: DiffOp)
    requires Reported(a, b, c1, c2, ops, i1, i2, changed) && same.op.Same? && KindFits(same)
    requires Last1(ops) <= same.start1 <= same.end1 <= i1 && Last2(ops) <= same.start2 <= same.end2 <= i2
    requires i1 - Last1(ops) == i2 - Last2(ops) ==>
               && same.start1 - Last1(ops) == same.start2 - Last2(ops)
               && same.end1 - same.start1 == same.end2 - same.start2
    ensures Reported(a, b, c1, c2, ops + [same], i1, i2, changed)
  {
    PlacedContext(a, b, c1, c2, ops, i1, i2, same);
    PatchIgnoresSame(a, b, ops, [same], i1);
    if 0 !in a && 0 !in b {
      AlignedContext(a, b, ops, i1, i2, same);
    }
  }

  lemma AlignedContext(a: seq<int>, b: seq<int>, ops: seq<DiffOp>, i1: int, i2: int, same: DiffOp)
    requires Aligned(a, b, ops, i1, i2)
    requires Last1(ops) <= same.start1 <= same.end1 <= i1 && Last2(ops) <= same.start2 <= same.end2 <= i2
    requires same.start1 - Last1(ops) == same.start2 - Last2(ops) && same.end1 - same.start1 == same.end2 - same.start2
    ensures Aligned(a, b, ops + [same], i1, i2)
  {
    var l1, l2 := Last1(ops), Last2(ops);
    assert i1 - l1 == |a[l1..i1]| == |b[l2..i2]| == i2 - l2;
    EqualPart(a, b, l1, i1, l2, i2, same.start1, same.end1, same.start2, same.end2);
    EqualPart(a, b, l1, i1, l2, i2, same.end1, i1, same.end2, i2);
  }

  lemma EqualPart(a: seq<int>, b: seq<int>, lo1: nat, hi1: nat, lo2: nat, hi2: nat, s1: nat, e1: nat, s2: nat, e2: nat)
    requires lo1 <= s1 <= e1 <= hi1 <= |a| && lo2 <= s2 <= e2 <= hi2 <= |b|
    requires a[lo1..hi1] == b[lo2..hi2] && s1 - lo1 == s2 - lo2 && e1 - s1 == e2 - s2
    ensures a[s1..e1] == b[s2..e2]
  {
    SubSlice(a, lo1, hi1, s1 - lo1, e1 - lo1);
    SubSlice(b, lo2, hi2, s2 - lo2, e2 - lo2);
  }

  lemma AlignedEdit(a: seq<int>, b: seq<int>, ops: seq<DiffOp>, op: DiffOp)
    requires Aligned(a, b, ops, op.start1, op.start2) && !op.op.Same?
    requires op.start1 <= op.end1 <= |a| && op.start2 <= op.end2 <= |b|
    ensures Aligned(a, b, ops + [op], op.end1, op.end2)
  {
  }

  lemma EditShows(data: seq<int>, change: seq<bool>, i: int, end: int)
    requires 0 <= i <= end <= |data| == |change| && All(change, i, end, true) && (i < end ==> data[i] != 0)
    ensures AnyVisible(data, change, end) <==> AnyVisible(data, change, i) || i < end
  {
    assert i < end ==> Visible(data, change, i);
  }

  lemma PlacedEdit(a: seq<int>, b: seq<int>, c1: seq<bool>, c2: seq<bool>, ops: seq<DiffOp>, op: DiffOp)
    requires Placed(a, b, c1, c2, ops, op.start1, op.start2) && !op.op.Same? && KindFits(op)
    requires op.start1 <= op.end1 <= |a| && op.start2 <= op.end2 <= |b|
    requires All(c1, op.start1, op.end1, true) && All(c2, op.start2, op.end2, true)
    ensures Placed(a, b, c1, c2, ops + [op], op.end1, op.end2)
    ensures EndsBy(ops, op.start1)
  {
    SpansEndBy(ops, a, c1, op.start1);
    SpansAppend(ops, op);
    LastSpan(ops, a, b, c1, c2, op.start1, op.start2);
    AccountsAppend(Spans1(ops), a, c1, op.start1, Span(true, op.start1, op.end1), op.end1);
    AccountsAppend(Spans2(ops), b, c2, op.start2, Span(true, op.start2, op.end2), op.end2);
  }

  lemma LastSpan(ops: seq<DiffOp>, a: seq<int>, b: seq<int>, c1: seq<bool>, c2: seq<bool>, i1: int, i2: int)
    requires Placed(a, b, c1, c2, ops, i1, i2)
    ensures LastHi(Spans1(ops)) <= i1 && LastHi(Spans2(ops)) <= i2
  {
  }

  /** An edit of the lines from i1 and i2 on. */
  lemma ReportEdit(a: seq<int>, b: seq<int>, c1: seq<bool>, c2: seq<bool>, ops: seq<DiffOp>, i1: int, i2: int,
                   changed: bool,
                   op: DiffOp)
    requires Reported(a, b, c1, c2, ops, i1, i2, changed) && !op.op.Same? && KindFits(op)
    requires op.start1 == i1 <= op.end1 <= |a| && op.start2 == i2 <= op.end2 <= |b|
    requires All(c1, i1, op.end1, true) && All(c2, i2, op.end2, true)
    requires (op.start1 < op.end1 ==> a[i1] != 0) && (op.start2 < op.end2 ==> b[i2] != 0)
    ensures Reported(a, b, c1, c2, ops + [op], op.end1, op.end2, true)
  {
    PlacedEdit(a, b, c1, c2, ops, op);
    PatchEdited(a, b, ops, op);
    EditShows(a, c1, i1, op.end1);
    EditShows(b, c2, i2, op.end2);
    if 0 !in a && 0 !in b {
      AlignedEdit(a, b, ops, op);
    }
  }

  lemma PatchEdited(a: seq<int>, b: seq<int>, ops: seq<DiffOp>, op: DiffOp)
    requires !op.op.Same? && EndsBy(ops, op.start1) && op.start1 <= op.end1 <= |a| && 0 <= op.start2 <= op.end2 <= |b|
    requires DropBlank(Patch(a, b, ops, op.start1)) == DropBlank(b[..op.start2])
    ensures DropBlank(Patch(a, b, ops + [op], op.end1)) == DropBlank(b[..op.end2])
  {
    var rest := b[op.start2..op.end2];
    assert b[..op.end2] == b[..op.start2] + rest;
    PatchEdit(a, b, ops, op);
    DropBlankSame(Patch(a, b, ops, op.start1), b[..op.start2], rest);
  }

  lemma DropBlankSame(s: seq<int>, t: seq<int>, rest: seq<int>)
    requires DropBlank(s) == DropBlank(t)
    ensures DropBlank(s + rest) == DropBlank(t + rest)
  {
    DropBlankConcat(s, rest);
    DropBlankConcat(t, rest);
  }

  lemma ReportAfter(a: seq<int>, b: seq<int>, c1: seq<bool>, c2: seq<bool>, all: seq<DiffOp>, ops: seq<DiffOp>,
                    i1: int, i2: int, changed: bool, op: DiffOp, context: nat)
    requires Reported(a, b, c1, c2, all, i1, i2, changed) && op.start1 == i1 && op.start2 == i2
    requires Last1(ops) == Last1(all) && Last2(ops) == Last2(all)
    ensures Reported(a, b, c1, c2, all + After(ops, op, context), i1, i2, changed)
  {
    LastInRange(a, b, c1, c2, all, i1, i2, changed);
    if After(ops, op, context) != [] {
      ReportContext(a, b, c1, c2, all, i1, i2, changed, After(ops, op, context)[0]);
    } else {
      assert all + [] == all;
    }
  }

  lemma LastInRange(a: seq<int>, b: seq<int>, c1: seq<bool>, c2: seq<bool>, all: seq<DiffOp>, i1: int, i2: int,
                    changed: bool)
    requires Reported(a, b, c1, c2, all, i1, i2, changed)
    ensures 0 <= Last1(all) <= i1 && 0 <= Last2(all) <= i2
  {
    if all != [] {
      assert Spans1(all)[|all| - 1].hi <= i1 && Spans2(all)[|all| - 1].hi <= i2;
    }
  }

  lemma ReportSplit(a: seq<int>, b: seq<int>, c1: seq<bool>, c2: seq<bool>, all: seq<DiffOp>, ops: seq<DiffOp>,
                    i1: int, i2: int, changed: bool, op: DiffOp, context: nat)
    requires Reported(a, b, c1, c2, all, i1, i2, changed) && op.start1 == i1 && op.start2 == i2 && !op.op.Flush?
    requires Last1(ops) == Last1(all) && Last2(ops) == Last2(all) && Splits(ops, op, context)
    ensures Reported(a, b, c1, c2, all + (After(ops, op, context) + Before(ops, op, context)), i1, i2, changed)
  {
    LastInRange(a, b, c1, c2, all, i1, i2, changed);
    var after, before := After(ops, op, context), Before(ops, op, context);
    ReportAfter(a, b, c1, c2, all, ops, i1, i2, changed, op, context);
    AfterLeavesRoom(all, ops, op, context);
    ReportBefore(a, b, c1, c2, all + after, ops, i1, i2, changed, op, context);
    Reassociate(all, after, before);
  }

  lemma ReportContexts(a: seq<int>, b: seq<int>, c1: seq<bool>, c2: seq<bool>, all: seq<DiffOp>, ops: seq<DiffOp>,
                       i1: int, i2: int, changed: bool, op: DiffOp, context: nat)
    requires Reported(a, b, c1, c2, all, i1, i2, changed) && op.start1 == i1 && op.start2 == i2 && !op.op.Flush?
    requires Last1(ops) == Last1(all) && Last2(ops) == Last2(all)
    ensures Reported(a, b, c1, c2, all + Context(ops, op, context), i1, i2, changed)
  {
    if Splits(ops, op, context) {
      ReportSplit(a, b, c1, c2, all, ops, i1, i2, changed, op, context);
    } else {
      LastInRange(a, b, c1, c2, all, i1, i2, changed);
      ReportBefore(a, b, c1, c2, all, ops, i1, i2, changed, op, context);
      NothingBefore(Before(ops, op, context));
    }
  }

  /** Between the two contexts of a split, at least one line stays uncovered on each side. */
  lemma AfterLeavesRoom(all: seq<DiffOp>, ops: seq<DiffOp>, op: DiffOp, context: nat)
    requires Splits(ops, op, context) && !op.op.Flush? && Last1(ops) == Last1(all) && Last2(ops) == Last2(all)
    ensures var all' := all + After(ops, op, context);
            && Last1(all') < op.start1 - context && Last2(all') < op.start2 - context
            && Last1(all') - Last1(ops) == Last2(all') - Last2(ops)
  {
  }

  lemma ReportBefore(a: seq<int>, b: seq<int>, c1: seq<bool>, c2: seq<bool>, all: seq<DiffOp>, ops: seq<DiffOp>,
                     i1: int, i2: int, changed: bool, op: DiffOp, context: nat)
    requires Reported(a, b, c1, c2, all, i1, i2, changed) && op.start1 == i1 && op.start2 == i2
    requires Last1(ops) <= i1 && Last2(ops) <= i2
    requires var c1, c2 := Max(Last1(ops), i1 - context), Max(Last2(ops), i2 - context);
             && Last1(all) <= c1 && Last2(all) <= c2
             && (i1 - Last1(all) == i2 - Last2(all) ==> i1 - c1 == i2 - c2)
    ensures Reported(a, b, c1, c2, all + Before(ops, op, context), i1, i2, changed)
  {
    if Before(ops, op, context) != [] {
      ReportContext(a, b, c1, c2, all, i1, i2, changed, Before(ops, op, context)[0]);
    } else {
      assert all + [] == all;
    }
  }

  /** A changed segment of either side or both, without the blank lines at its ends. */
  lemma ReportSegment(a: seq<int>, b: seq<int>, c1: seq<bool>, c2: seq<bool>, all: seq<DiffOp>, ops: seq<DiffOp>,
                      i1: int, i2: int, changed: bool, end1: int, end2: int, op: DiffOp, context: nat)
    requires Reported(a, b, c1, c2, all, i1, i2, changed)
    requires Last1(ops) == Last1(all) && Last2(ops) == Last2(all)
    requires Segment(a, c1, i1, end1, op.start1, op.end1) && Segment(b, c2, i2, end2, op.start2, op.end2)
    requires !op.op.Same? && KindFits(op)
    ensures Reported(a, b, c1, c2, all + Context(ops, op, context) + [op], end1, end2, true)
  {
    var all' := all + Context(ops, op, context);
    ReportBlank(a, b, c1, c2, all, i1, i2, changed, op.start1, op.start2);
    ReportContexts(a, b, c1, c2, all, ops, op.start1, op.start2, changed, op, context);
    ReportEdit(a, b, c1, c2, all', op.start1, op.start2, changed, op);
    ReportBlank(a, b, c1, c2, all' + [op], op.end1, op.end2, true, end1, end2);
  }

  lemma {:induction false} RunEndIs(change: seq<bool>, start: nat, end: nat)
    requires start <= end <= |change| && All(change, start, end, true) && (end == |change| || !change[end])
    ensures RunEnd(change, start) == end
    decreases end - start
  {
    if start < end {
      RunEndIs(change, start + 1, end);
    }
  }

  lemma {:induction false} FirstShownIs(data: seq<int>, start: nat, lo: nat, end: nat)
    requires start <= lo <= end <= |data| && (forall i :: start <= i < lo ==> data[i] == 0)
    requires lo < end ==> data[lo] != 0
    ensures FirstShown(data, start, end) == lo
    decreases lo - start
  {
    if start < lo {
      FirstShownIs(data, start + 1, lo, end);
    }
  }

  lemma {:induction false} LastShownIs(data: seq<int>, lo: nat, hi: nat, end: nat)
    requires lo <= hi <= end <= |data| && (forall i :: hi <= i < end ==> data[i] == 0)
    requires lo < hi ==> data[hi - 1] != 0
    ensures LastShown(data, lo, end) == hi
    decreases end - hi
  {
    if hi < end {
      LastShownIs(data, lo, hi, end - 1);
    }
  }

  /** A segment is what the reference cuts out of the marked run. */
  lemma SegmentIs(data: seq<int>, change: seq<bool>, start: nat, end: nat, lo: nat, hi: nat)
    requires Segment(data, change, start, end, lo, hi)
    ensures FirstShown(data, start, end) == lo && LastShown(data, lo, end) == hi
  {
    FirstShownIs(data, start, lo, end);
    LastShownIs(data, lo, hi, end);
  }

  /** Everything the scan has established when it stands at i1 and i2. */
  ghost predicate Scanned(a: seq<int>, b: seq<int>, c1: seq<bool>, c2: seq<bool>, hunks: seq<seq<DiffOp>>,
                          ops: seq<DiffOp>,
                          i1: int, i2: int, changed: bool)
  {
    && Reported(a, b, c1, c2, Flatten(hunks) + ops, i1, i2, changed)
    && Level(a, b, c1, c2, i1, i2)
    && (ops == [] ==> hunks == [])
  }

  /** The edits made so far and those of the rest are those of the whole. */
  ghost predicate Ahead(a: seq<int>, b: seq<int>, c1: seq<bool>, c2: seq<bool>, edits: seq<DiffOp>, i1: int, i2: int)
  {
    && 0 <= i1 <= |a| == |c1| && 0 <= i2 <= |b| == |c2|
    && edits + Changes(a, b, c1, c2, i1, i2) == Changes(a, b, c1, c2, 0, 0)
  }

  lemma AheadBoth(a: seq<int>, b: seq<int>, c1: seq<bool>, c2: seq<bool>, edits: seq<DiffOp>, i1: int, i2: int)
    requires Ahead(a, b, c1, c2, edits, i1, i2) && i1 < |a| && i2 < |b| && !c1[i1] && !c2[i2]
    ensures Ahead(a, b, c1, c2, edits, i1 + 1, i2 + 1)
  {
  }

  /** The marked run at start, or nothing if there is none. */
  ghost predicate RunAt(data: seq<int>, change: seq<bool>, start: int, end: int, lo: int, hi: int)
  {
    Segment(data, change, start, end, lo, hi) && (end == |change| || !change[end])
  }

  lemma AheadChange(a: seq<int>, b: seq<int>, c1: seq<bool>, c2: seq<bool>, edits: seq<DiffOp>, i1: int, i2: int,
                    end1: int, end2: int, lo1: int, hi1: int, lo2: int, hi2: int)
    requires Ahead(a, b, c1, c2, edits, i1, i2) && i1 + i2 < end1 + end2
    requires RunAt(a, c1, i1, end1, lo1, hi1) && RunAt(b, c2, i2, end2, lo2, hi2)
    ensures var kind := KindOf(lo1, hi1, lo2, hi2);
            Ahead(a, b, c1, c2, edits + if kind.Flush? then [] else [DiffOp(kind, lo1, hi1, lo2, hi2)], end1, end2)
  {
    RunEndIs(c1, i1, end1);
    RunEndIs(c2, i2, end2);
    SegmentIs(a, c1, i1, end1, lo1, hi1);
    SegmentIs(b, c2, i2, end2, lo2, hi2);
    Reassociate(edits, EditOf(a, b, i1, end1, i2, end2), Changes(a, b, c1, c2, end1, end2));
  }

  /** What the scan, the groups and the edits still to come amount to when it stands at i1 and i2. */
  ghost predicate Standing(a: seq<int>, b: seq<int>, c1: seq<bool>, c2: seq<bool>, context: nat,
                           hunks: seq<seq<DiffOp>>,
                           ops: seq<DiffOp>, edits: seq<DiffOp>, i1: int, i2: int, changed: bool)
  {
    && Scanned(a, b, c1, c2, hunks, ops, i1, i2, changed)
    && Grouping(edits, hunks, ops, context)
    && Ahead(a, b, c1, c2, edits, i1, i2)
  }

  /** Reports one changed segment, if it is not all blank. */
  method ReportChange(chg: DiffChanger, ops: seq<DiffOp>, ghost edits: seq<DiffOp>, a: seq<int>, b: seq<int>,
                      c1: seq<bool>, c2: seq<bool>, context: nat,
                      ghost i1: int, ghost i2: int, ghost end1: int, ghost end2: int,
                      lo1: int, hi1: int, lo2: int, hi2: int, changed: bool)
    returns (ops': seq<DiffOp>, changed': bool, ghost edits': seq<DiffOp>)
    requires Standing(a, b, c1, c2, context, chg.hunks, ops, edits, i1, i2, changed)
    requires RunAt(a, c1, i1, end1, lo1, hi1) && RunAt(b, c2, i2, end2, lo2, hi2) && i1 + i2 < end1 + end2
    modifies chg
    ensures Standing(a, b, c1, c2, context, chg.hunks, ops', edits', end1, end2, changed')
  {
    LevelMarked(a, b, c1, c2, i1, i2, end1, end2);
    AheadChange(a, b, c1, c2, edits, i1, i2, end1, end2, lo1, hi1, lo2, hi2);
    var kind := KindOf(lo1, hi1, lo2, hi2);
    if kind.Flush? {
      ReportBlank(a, b, c1, c2, Flatten(chg.hunks) + ops, i1, i2, changed, end1, end2);
      NothingMore(edits);
      return ops, changed, edits;
    }
    var op := DiffOp(kind, lo1, hi1, lo2, hi2);
    edits' := edits + [op];
    changed' := true;
    ops' := SendChange(chg, ops, edits, a, b, c1, c2, context, i1, i2, end1, end2, op, changed);
  }

  method SendChange(chg: DiffChanger, ops: seq<DiffOp>, ghost edits: seq<DiffOp>, ghost a: seq<int>, ghost b: seq<int>,
                    ghost c1: seq<bool>, ghost c2: seq<bool>, context: nat,
                    ghost i1: int, ghost i2: int, ghost end1: int, ghost end2: int, op: DiffOp, ghost changed: bool)
    returns (ops': seq<DiffOp>)
    requires Reported(a, b, c1, c2, Flatten(chg.hunks) + ops, i1, i2, changed) && Level(a, b, c1, c2, end1, end2)
    requires Grouping(edits, chg.hunks, ops, context)
    requires Segment(a, c1, i1, end1, op.start1, op.end1) && Segment(b, c2, i2, end2, op.start2, op.end2)
    requires op.op == KindOf(op.start1, op.end1, op.start2, op.end2) && !op.op.Flush?
    modifies chg
    ensures Scanned(a, b, c1, c2, chg.hunks, ops', end1, end2, true)
    ensures Grouping(edits + [op], chg.hunks, ops', context)
  {
    ghost var hunks0 := chg.hunks;
    ops' := AddChangeSegment(chg, ops, op, context);
    GroupingNext(edits, hunks0, ops, op, context, chg.hunks, ops');
    FlattenAdded(hunks0, ops, op, context, chg.hunks, ops');
    OpenEnds(edits, context);
    LastOfAll(edits, hunks0, ops, context);
    ReportSegment(a, b, c1, c2, Flatten(hunks0) + ops, ops, i1, i2, changed, end1, end2, op, context);
  }

  lemma LastOfAll(edits: seq<DiffOp>, hunks: seq<seq<DiffOp>>, ops: seq<DiffOp>, context: nat)
    requires Grouping(edits, hunks, ops, context)
    ensures Last1(Flatten(hunks) + ops) == Last1(ops) && Last2(Flatten(hunks) + ops) == Last2(ops)
    ensures ops == [] ==> hunks == [] && edits == []
  {
    OpenEnds(edits, context);
    assert ops == [] ==> Flatten(hunks) + ops == [];
  }

  lemma FlattenAppend(hunks: seq<seq<DiffOp>>, ops: seq<DiffOp>, more: seq<DiffOp>)
    ensures Flatten(hunks + [ops + more]) == Flatten(hunks) + ops + more
  {
    assert (hunks + [ops + more])[..|hunks|] == hunks;
    Reassociate(Flatten(hunks), ops, more);
  }

  /** Sends the last group with its closing context. */
  method FlushReport(chg: DiffChanger, ops: seq<DiffOp>, ghost edits: seq<DiffOp>, a: seq<int>, b: seq<int>,
                     ghost c1: seq<bool>, ghost c2: seq<bool>, ghost changed: bool, context: nat)
    requires Reported(a, b, c1, c2, Flatten(chg.hunks) + ops, |a|, |b|, changed)
    requires Grouping(edits, chg.hunks, ops, context)
    modifies chg
    ensures Reported(a, b, c1, c2, Flatten(chg.hunks), |a|, |b|, changed)
    ensures chg.hunks == HunksOf(edits, context, |a|, |b|)
  {
    ghost var hunks0, all := chg.hunks, Flatten(chg.hunks) + ops;
    LastOfAll(edits, hunks0, ops, context);
    if |ops| > 0 {
      var op := End(|a|, |b|);
      ReportAfter(a, b, c1, c2, all, ops, |a|, |b|, changed, op, context);
      FlattenAppend(hunks0, ops, After(ops, op, context));
      var rest := AddChangeSegment(chg, ops, op, context);
    } else {
      NothingMore(Flatten(hunks0));
      NothingMore(hunks0);
    }
    GroupingEnd(edits, hunks0, ops, context, |a|, |b|, chg.hunks);
  }

  lemma StandingBoth(a: seq<int>, b: seq<int>, c1: seq<bool>, c2: seq<bool>, context: nat, hunks: seq<seq<DiffOp>>,
                     ops: seq<DiffOp>, edits: seq<DiffOp>, i1: int, i2: int, changed: bool)
    requires Standing(a, b, c1, c2, context, hunks, ops, edits, i1, i2, changed)
    requires i1 < |c1| && i2 < |c2| && !c1[i1] && !c2[i2]
    ensures Standing(a, b, c1, c2, context, hunks, ops, edits, i1 + 1, i2 + 1, changed)
  {
    LevelKept(a, b, c1, c2, i1, i2);
    ReportBoth(a, b, c1, c2, Flatten(hunks) + ops, i1, i2, changed);
    AheadBoth(a, b, c1, c2, edits, i1, i2);
  }

  /** The case that should not be reached: lines are left, but neither two unmarked ones nor a marked one. */
  lemma OneIsMarked(a: seq<int>, b: seq<int>, c1: seq<bool>, c2: seq<bool>, i1: int, i2: int)
    requires Level(a, b, c1, c2, i1, i2) && (i1 < |a| || i2 < |b|)
    ensures (i1 < |a| && i2 < |b| && !c1[i1] && !c2[i2]) || (i1 < |a| && c1[i1]) || (i2 < |b| && c2[i2])
  {
    LevelKept(a, b, c1, c2, i1, i2);
  }

  /** One round of the scan: a pair of unchanged lines, or the changed segments that begin here. */
  method ReportNext(chg: DiffChanger, ops: seq<DiffOp>, ghost edits: seq<DiffOp>, data1: seq<int>, data2: seq<int>,
                    change1: seq<bool>, change2: seq<bool>, context: nat, i1: int, i2: int, changed: bool)
    returns (ops': seq<DiffOp>, i1': int, i2': int, changed': bool, ghost edits': seq<DiffOp>)
    requires Standing(data1, data2, change1, change2, context, chg.hunks, ops, edits, i1, i2, changed)
    requires i1 < |data1| || i2 < |data2|
    modifies chg
    ensures Standing(data1, data2, change1, change2, context, chg.hunks, ops', edits', i1', i2', changed')
    ensures i1 <= i1' <= |data1| && i2 <= i2' <= |data2| && i1 + i2 < i1' + i2'
  {
    OneIsMarked(data1, data2, change1, change2, i1, i2);
    if i1 < |change1| && i2 < |change2| && !change1[i1] && !change2[i2] {
      StandingBoth(data1, data2, change1, change2, context, chg.hunks, ops, edits, i1, i2, changed);
      return ops, i1 + 1, i2 + 1, changed, edits;
    }
    ops', i1', i2', changed', edits' :=
      ReportSegments(chg, ops, edits, data1, data2, change1, change2, context, i1, i2, changed);
  }

  method ReportSegments(chg: DiffChanger, ops: seq<DiffOp>, ghost edits: seq<DiffOp>,
                        data1: seq<int>, data2: seq<int>, change1: seq<bool>, change2: seq<bool>, context: nat,
                        i1: int, i2: int, changed: bool)
    returns (ops': seq<DiffOp>, i1': int, i2': int, changed': bool, ghost edits': seq<DiffOp>)
    requires Standing(data1, data2, change1, change2, context, chg.hunks, ops, edits, i1, i2, changed)
    requires (i1 < |data1| && change1[i1]) || (i2 < |data2| && change2[i2])
    modifies chg
    ensures Standing(data1, data2, change1, change2, context, chg.hunks, ops', edits', i1', i2', changed')
    ensures i1 <= i1' <= |data1| && i2 <= i2' <= |data2| && i1 + i2 < i1' + i2'
  {
    var lo1, hi1, lo2, hi2;
    i1', lo1, hi1, i2', lo2, hi2 := NextSegments(data1, data2, change1, change2, i1, i2);
    ops', changed', edits' := ReportChange(chg, ops, edits, data1, data2, change1, change2, context,
                                           i1, i2, i1', i2', lo1, hi1, lo2, hi2, changed);
  }

  /** The changed segments that begin here, on both sides or on one. */
  method NextSegments(data1: seq<int>, data2: seq<int>, change1: seq<bool>, change2: seq<bool>, i1: nat, i2: nat)
    returns (i1': int, lo1: int, hi1: int, i2': int, lo2: int, hi2: int)
    requires i1 <= |data1| == |change1| && i2 <= |data2| == |change2|
    requires (i1 < |change1| && change1[i1]) || (i2 < |change2| && change2[i2])
    ensures RunAt(data1, change1, i1, i1', lo1, hi1) && RunAt(data2, change2, i2, i2', lo2, hi2)
    ensures i1 <= i1' && i2 <= i2' && i1 + i2 < i1' + i2'
  {
    var len1, len2 := |change1|, |change2|;
    i1', lo1, hi1 := i1, i1, i1;
    i2', lo2, hi2 := i2, i2, i2;
    if i1 < len1 && i2 < len2 && change1[i1] && change2[i2] {
      i1', lo1, hi1 := NextChangeSegment(i1, change1, data1);
      i2', lo2, hi2 := NextChangeSegment(i2, change2, data2);
    } else if i1 < len1 && change1[i1] {
      i1', lo1, hi1 := NextChangeSegment(i1, change1, data1);
    } else {
      i2', lo2, hi2 := NextChangeSegment(i2, change2, data2);
    }
  }

  lemma BeginScan(a: seq<int>, b: seq<int>, c1: seq<bool>, c2: seq<bool>, context: nat)
    requires |a| == |c1| && |b| == |c2| && Kept(a, c1) == Kept(b, c2)
    ensures Standing(a, b, c1, c2, context, [], [], [], 0, 0, false)
  {
    NothingBefore(Changes(a, b, c1, c2, 0, 0));
  }

  method ScanChanges(chg: DiffChanger, data1: seq<int>, data2: seq<int>, change1: seq<bool>, change2: seq<bool>,
                     context: nat)
    returns (ops: seq<DiffOp>, changed: bool, ghost edits: seq<DiffOp>)
    requires |data1| == |change1| && |data2| == |change2| && chg.hunks == []
    requires Kept(data1, change1) == Kept(data2, change2)
    modifies chg
    ensures Standing(data1, data2, change1, change2, context, chg.hunks, ops, edits, |data1|, |data2|, changed)
  {
    var len1, len2 := |change1|, |change2|;
    var i1, i2 := 0, 0;
    ops, changed, edits := [], false, [];
    BeginScan(data1, data2, change1, change2, context);
    while i1 < len1 || i2 < len2
      invariant Standing(data1, data2, change1, change2, context, chg.hunks, ops, edits, i1, i2, changed)
      decreases len1 - i1 + len2 - i2
    {
      ops, i1, i2, changed, edits := ReportNext(chg, ops, edits, data1, data2, change1, change2, context, i1, i2,
                                                changed);
    }
    assert i1 == |data1| && i2 == |data2|;
  }

  lemma EndScan(a: seq<int>, b: seq<int>, c1: seq<bool>, c2: seq<bool>, edits: seq<DiffOp>)
    requires Ahead(a, b, c1, c2, edits, |a|, |b|)
    ensures edits == Changes(a, b, c1, c2, 0, 0)
  {
    NothingMore(edits);
  }

  /** Sends the edits that turn file 1 into file 2 to the receiver, grouped with their context. */
  method ReportDiff(chg: DiffChanger, data1: seq<int>, data2: seq<int>, change1: seq<bool>, change2: seq<bool>,
                    context: nat)
    returns (changed: bool)
    requires |data1| == |change1| && |data2| == |change2| && chg.hunks == []
    requires Kept(data1, change1) == Kept(data2, change2)
    modifies chg
    ensures Reported(data1, data2, change1, change2, Flatten(chg.hunks), |data1|, |data2|, changed)
    ensures chg.hunks == HunksOf(Changes(data1, data2, change1, change2, 0, 0), context, |data1|, |data2|)
  {
    var ops;
    ghost var edits;
    ops, changed, edits := ScanChanges(chg, data1, data2, change1, change2, context);
    EndScan(data1, data2, change1, change2, edits);
    FlushReport(chg, ops, edits, data1, data2, change1, change2, changed, context);
  }

  // ----- Gaps inside a group -----

  /** One line changed, five as they were, and one line changed. */
  function OuterMarks(): seq<bool> { [true, false, false, false, false, false, true] }

  lemma ChangesOfOuterMarks(a: seq<int>, b: seq<int>)
    requires |a| == |b| == 7 && 0 !in a && 0 !in b
    ensures Changes(a, b, OuterMarks(), OuterMarks(), 0, 0) == [DiffOp(Modify, 0, 1, 0, 1), DiffOp(Modify, 6, 7, 6, 7)]
  {
    var c := OuterMarks();
    assert a[0] in a && b[0] in b && a[6] in a && b[6] in b;
    assert RunEnd(c, 0) == 1 && RunEnd(c, 6) == 7 && RunEnd(c, 7) == 7;
    assert EditOf(a, b, 0, 1, 0, 1) == [DiffOp(Modify, 0, 1, 0, 1)];
    assert EditOf(a, b, 6, 7, 6, 7) == [DiffOp(Modify, 6, 7, 6, 7)];
    assert Changes(a, b, c, c, 7, 7) == [];
    assert Changes(a, b, c, c, 5, 5) == Changes(a, b, c, c, 6, 6);
    assert Changes(a, b, c, c, 3, 3) == Changes(a, b, c, c, 5, 5);
    assert Changes(a, b, c, c, 1, 1) == Changes(a, b, c, c, 3, 3);
  }

  /**
    * Marks for which the report of two such files has one group, with context 3, and leaves out
    * lines 1 and 2 between its two edits.
    */
  lemma SkippedLines(a: seq<int>, b: seq<int>, p: int)
    requires |a| == |b| == 7 && 0 !in a && 0 !in b && a[1..6] == b[1..6] && 1 <= p <= 2
    ensures Kept(a, OuterMarks()) == Kept(b, OuterMarks())
    ensures var hunks := HunksOf(Changes(a, b, OuterMarks(), OuterMarks(), 0, 0), 3, 7, 7);
            |hunks| == 1 && !Shows(Flatten(hunks), p, false) && !Shows(Flatten(hunks), p, true)
  {
    var c := OuterMarks();
    KeptOuter(a);
    KeptOuter(b);
    var edits := Changes(a, b, c, c, 0, 0);
    ChangesOfOuterMarks(a, b);
    ChangesInOrder(a, b, c, c, 0, 0);
    ShownIff(edits, 3, 7, 7, 1, p, false);
    ShownIff(edits, 3, 7, 7, 1, p, true);
    SplitsIsFar(edits, 1, 3);
    assert edits[..1] == [DiffOp(Modify, 0, 1, 0, 1)] && edits[..1][..0] == [];
    assert Closed(edits[..1], 3) == [];
  }

  lemma KeptOuter(s: seq<int>)
    requires |s| == 7
    ensures Kept(s, OuterMarks()) == s[1..6]
  {
    var c := OuterMarks();
    KeptSplit(s, c, 6);
    KeptSplit(s[..6], c[..6], 1);
    KeptAll(s[6..], c[6..], true);
    KeptAll(s[..6][..1], c[..6][..1], true);
    KeptAll(s[..6][1..], c[..6][1..], false);
    assert s[..6][1..] == s[1..6];
  }
}
