/**
  * Operations in groups: which edits the marks of two files give, how the edits are grouped, and
  * which unchanged lines the groups show.
  */
module Hunks {
  import opened Wrappers

  /** Flush is the zero operation that only ends the last group. */
  datatype OpKind = Flush | Same | Modify | Insert | Remove

  datatype DiffOp = DiffOp(op: OpKind, start1: int, end1: int, start2: int, end2: int)

  function Flatten(hunks: seq<seq<DiffOp>>): (r: seq<DiffOp>)
  {
    if hunks == [] then [] else Flatten(hunks[..|hunks| - 1]) + hunks[|hunks| - 1]
  }

  // ----- The edits of two markings -----

  /** The end of the marked run at i, which is i itself if there is none. */
  function RunEnd(change: seq<bool>, i: nat): (end: nat)
    requires i <= |change|
    ensures i <= end <= |change|
    decreases |change| - i
  {
    if i < |change| && change[i] then RunEnd(change, i + 1) else i
  }

  /** The first line from lo on that is not blank, or hi. */
  function FirstShown(data: seq<int>, lo: nat, hi: nat): (i: nat)
    requires lo <= hi <= |data|
    ensures lo <= i <= hi
    decreases hi - lo
  {
    if lo < hi && data[lo] == 0 then FirstShown(data, lo + 1, hi) else lo
  }

  /** The end of the lines up to hi without the blank ones at their end, or lo. */
  function LastShown(data: seq<int>, lo: nat, hi: nat): (i: nat)
    requires lo <= hi <= |data|
    ensures lo <= i <= hi
    decreases hi - lo
  {
    if lo < hi && data[hi - 1] == 0 then LastShown(data, lo, hi - 1) else hi
  }

  function KindOf(lo1: int, hi1: int, lo2: int, hi2: int): OpKind
  {
    if lo1 < hi1 && lo2 < hi2 then Modify else if lo1 < hi1 then Remove else if lo2 < hi2 then Insert else Flush
  }

  /** The runs i1 to e1 and i2 to e2 as an edit, without the blank lines at their ends; none if all are blank. */
  function EditOf(a: seq<int>, b: seq<int>, i1: nat, e1: nat, i2: nat, e2: nat): seq<DiffOp>
    requires i1 <= e1 <= |a| && i2 <= e2 <= |b|
  {
    var lo1, lo2 := FirstShown(a, i1, e1), FirstShown(b, i2, e2);
    var hi1, hi2 := LastShown(a, lo1, e1), LastShown(b, lo2, e2);
    if KindOf(lo1, hi1, lo2, hi2).Flush? then [] else [DiffOp(KindOf(lo1, hi1, lo2, hi2), lo1, hi1, lo2, hi2)]
  }

  /** The edits from lines i1 and i2 on: marked runs that meet, between unmarked lines side by side. */
  function Changes(a: seq<int>, b: seq<int>, c1: seq<bool>, c2: seq<bool>, i1: nat, i2: nat): seq<DiffOp>
    requires i1 <= |a| == |c1| && i2 <= |b| == |c2|
    decreases |a| - i1 + |b| - i2
  {
    if i1 < |a| && i2 < |b| && !c1[i1] && !c2[i2] then Changes(a, b, c1, c2, i1 + 1, i2 + 1)
    else
      var e1, e2 := RunEnd(c1, i1), RunEnd(c2, i2);
      if e1 == i1 && e2 == i2 then [] else EditOf(a, b, i1, e1, i2, e2) + Changes(a, b, c1, c2, e1, e2)
  }

  // ----- Grouping edits -----

  function Last1(ops: seq<DiffOp>): int { if ops == [] then 0 else ops[|ops| - 1].end1 }
  function Last2(ops: seq<DiffOp>): int { if ops == [] then 0 else ops[|ops| - 1].end2 }

  /** The operation starts a new group: nothing of its context meets that of the operation before it. */
  predicate Splits(ops: seq<DiffOp>, op: DiffOp, context: nat)
  {
    ops != [] && (op.op.Flush? || (op.start1 - Last1(ops) > context * 2 && op.start2 - Last2(ops) > context * 2))
  }

  /** The context after the group, if it has any lines. */
  function After(ops: seq<DiffOp>, op: DiffOp, context: nat): seq<DiffOp>
  {
    var e1, e2 := Min(op.start1, Last1(ops) + context), Min(op.start2, Last2(ops) + context);
    if e1 > Last1(ops) || e2 > Last2(ops) then [DiffOp(Same, Last1(ops), e1, Last2(ops), e2)] else []
  }

  /** The context before the operation, if it has any lines. */
  function Before(ops: seq<DiffOp>, op: DiffOp, context: nat): seq<DiffOp>
  {
    var c1, c2 := Max(Last1(ops), op.start1 - context), Max(Last2(ops), op.start2 - context);
    if c1 < op.start1 || c2 < op.start2 then [DiffOp(Same, c1, op.start1, c2, op.start2)] else []
  }

  predicate AllEdits(edits: seq<DiffOp>)
  {
    forall k :: 0 <= k < |edits| ==> !edits[k].op.Flush? && !edits[k].op.Same?
  }

  /** The groups that are complete once the edits are known, without the one that the last edit is in. */
  function Closed(edits: seq<DiffOp>, context: nat): seq<seq<DiffOp>>
  {
    if edits == [] then []
    else
      var init, last := edits[..|edits| - 1], edits[|edits| - 1];
      Closed(init, context) + if Splits(init, last,
                                        context) then [Open(init, context) + After(init, last, context)] else []
  }

  /** The group that the last edit is in. */
  function Open(edits: seq<DiffOp>, context: nat): seq<DiffOp>
  {
    if edits == [] then []
    else
      var init, last := edits[..|edits| - 1], edits[|edits| - 1];
      (if Splits(init, last, context) then [] else Open(init, context)) + Before(init, last, context) + [last]
  }

  function End(len1: int, len2: int): DiffOp { DiffOp(Flush, len1, len1, len2, len2) }

  /** All groups of the edits of files with so many lines. */
  function HunksOf(edits: seq<DiffOp>, context: nat, len1: int, len2: int): seq<seq<DiffOp>>
  {
    if edits == [] then []
    else Closed(edits, context) + [Open(edits, context) + After(edits, End(len1, len2), context)]
  }

  /** The groups sent so far, and the one begun, are those of the edits. */
  ghost predicate Grouping(edits: seq<DiffOp>, hunks: seq<seq<DiffOp>>, ops: seq<DiffOp>, context: nat)
  {
    AllEdits(edits) && hunks == Closed(edits, context) && ops == Open(edits, context)
  }

  lemma OpenEnds(edits: seq<DiffOp>, context: nat)
    ensures (Open(edits, context) == [] <==> edits == [])
    ensures Last1(Open(edits, context)) == Last1(edits) && Last2(Open(edits, context)) == Last2(edits)
  {
  }

  lemma GroupingNext(edits: seq<DiffOp>, hunks: seq<seq<DiffOp>>, ops: seq<DiffOp>, op: DiffOp, context: nat,
                     hunks': seq<seq<DiffOp>>, ops': seq<DiffOp>)
    requires Grouping(edits, hunks, ops, context) && !op.op.Flush? && !op.op.Same?
    requires hunks' == hunks + if Splits(ops, op, context) then [ops + After(ops, op, context)] else []
    requires ops' == (if Splits(ops, op, context) then [] else ops) + Before(ops, op, context) + [op]
    ensures Grouping(edits + [op], hunks', ops', context)
  {
    OpenEnds(edits, context);
    assert (edits + [op])[..|edits|] == edits;
  }

  lemma GroupingEnd(edits: seq<DiffOp>, hunks: seq<seq<DiffOp>>, ops: seq<DiffOp>, context: nat, len1: int, len2: int,
                    hunks': seq<seq<DiffOp>>)
    requires Grouping(edits, hunks, ops, context)
    requires hunks' == hunks + if ops == [] then [] else [ops + After(ops, End(len1, len2), context)]
    ensures hunks' == HunksOf(edits, context, len1, len2)
  {
    OpenEnds(edits, context);
    SameAfter(ops, edits, End(len1, len2), context);
    NothingMore(hunks);
  }

  lemma SameAfter(ops: seq<DiffOp>, edits: seq<DiffOp>, op: DiffOp, context: nat)
    requires Last1(ops) == Last1(edits) && Last2(ops) == Last2(edits)
    ensures After(ops, op, context) == After(edits, op, context)
  {
  }

  // ----- The shape of the groups -----

  /** More lines than two contexts lie between the edit and the one before it, in both files. */
  predicate Far(edits: seq<DiffOp>, k: nat, context: nat)
    requires 0 < k < |edits|
  {
    edits[k].start1 - edits[k - 1].end1 > context * 2 && edits[k].start2 - edits[k - 1].end2 > context * 2
  }

  /** The numbers of the edits that are the first ones of their groups. */
  function Firsts(edits: seq<DiffOp>, context: nat): seq<nat>
  {
    if edits == [] then []
    else
      var n := |edits| - 1;
      Firsts(edits[..n], context) + if n == 0 || Splits(edits[..n], edits[n], context) then [n] else []
  }

  /** The edit before edit k, if there is one. */
  function Prev(edits: seq<DiffOp>, k: nat): seq<DiffOp>
    requires k <= |edits|
  {
    if k == 0 then [] else [edits[k - 1]]
  }

  lemma PrevWillDo(edits: seq<DiffOp>, k: nat, op: DiffOp, context: nat)
    requires k <= |edits|
    ensures After(edits[..k], op, context) == After(Prev(edits, k), op, context)
    ensures Before(edits[..k], op, context) == Before(Prev(edits, k), op, context)
    ensures Splits(edits[..k], op, context) <==> Splits(Prev(edits, k), op, context)
  {
  }

  /** Edits i to j, each behind its context. */
  function Part(edits: seq<DiffOp>, i: nat, j: nat, context: nat): seq<DiffOp>
    requires i <= j <= |edits|
    decreases j
  {
    if i == j then []
    else Part(edits, i, j - 1, context) + Before(Prev(edits, j - 1), edits[j - 1], context) + [edits[j - 1]]
  }

  lemma {:induction false} PartOfInit(edits: seq<DiffOp>, init: seq<DiffOp>, last: DiffOp, i: nat, j: nat, context: nat)
    requires edits == init + [last] && i <= j <= |init|
    ensures Part(init, i, j, context) == Part(edits, i, j, context)
    decreases j
  {
    if i < j {
      PartOfInit(edits, init, last, i, j - 1, context);
    }
  }

  lemma SplitsIsFar(edits: seq<DiffOp>, k: nat, context: nat)
    requires AllEdits(edits) && 0 < k < |edits|
    ensures Splits(edits[..k], edits[k], context) <==> Far(edits, k, context)
  {
  }

  predicate Rising(f: seq<nat>) { forall g, h :: 0 <= g < h < |f| ==> f[g] < f[h] }

  predicate Below(f: seq<nat>, n: nat) { forall g :: 0 <= g < |f| ==> f[g] < n }

  lemma RisingNext(f: seq<nat>, n: nat)
    requires Rising(f) && Below(f, n)
    ensures Rising(f + [n]) && Below(f + [n], n + 1) && Below(f, n + 1)
  {
  }

  lemma {:induction false} FirstsRise(edits: seq<DiffOp>, context: nat)
    ensures var f := Firsts(edits, context);
            (f == [] <==> edits == []) && (f != [] ==> f[0] == 0) && Rising(f) && Below(f, |edits|)
  {
    if edits != [] {
      var n := |edits| - 1;
      FirstsRise(edits[..n], context);
      RisingNext(Firsts(edits[..n], context), n);
    }
  }

  /** A group starts with the first edit and with every one that is far from the one before it. */
  lemma {:induction false} FirstsAre(edits: seq<DiffOp>, context: nat, k: nat)
    requires AllEdits(edits)
    ensures k in Firsts(edits, context) <==> k < |edits| && (k == 0 || Far(edits, k, context))
  {
    if edits != [] {
      var n := |edits| - 1;
      FirstsRise(edits, context);
      if k < n {
        FirstsAre(edits[..n], context, k);
      } else if k == n {
        FirstsRise(edits[..n], context);
        if n > 0 {
          SplitsIsFar(edits, n, context);
        }
      }
    }
  }

  lemma GroupsNext(edits: seq<DiffOp>, init: seq<DiffOp>, last: DiffOp, context: nat)
    requires edits == init + [last]
    ensures Closed(edits, context) ==
            Closed(init, context)
            + if Splits(init, last, context) then [Open(init, context) + After(init, last, context)] else []
    ensures Open(edits, context) ==
            (if Splits(init, last, context) then [] else Open(init, context)) + Before(init, last, context) + [last]
    ensures Firsts(edits, context) ==
            Firsts(init, context) + if init == [] || Splits(init, last, context) then [|init|] else []
    ensures Before(init, last, context) == Before(Prev(edits, |init|), last, context)
    ensures After(init, last, context) == After(Prev(edits, |init|), last, context)
  {
    assert edits[..|edits| - 1] == init;
    PrevWillDo(edits, |init|, last, context);
  }

  /** The last group starts with edit f. */
  ghost predicate OpenFrom(edits: seq<DiffOp>, context: nat, f: nat)
  {
    && Firsts(edits, context) != [] && f == Firsts(edits, context)[|Firsts(edits, context)| - 1]
    && f < |edits| && Open(edits, context) == Part(edits, f, |edits|, context)
  }

  lemma OpenNew(edits: seq<DiffOp>, init: seq<DiffOp>, last: DiffOp, context: nat)
    requires edits == init + [last] && (init == [] || Splits(init, last, context))
    ensures OpenFrom(edits, context, |init|)
  {
    GroupsNext(edits, init, last, context);
    assert Part(edits, |init|, |init|, context) == [];
  }

  lemma OpenMore(edits: seq<DiffOp>, init: seq<DiffOp>, last: DiffOp, context: nat, f: nat)
    requires edits == init + [last] && init != [] && !Splits(init, last, context) && OpenFrom(init, context, f)
    ensures OpenFrom(edits, context, f)
  {
    GroupsNext(edits, init, last, context);
    PartOfInit(edits, init, last, f, |init|, context);
    NothingMore(Firsts(init, context));
  }

  lemma {:induction false} OpenIsPart(edits: seq<DiffOp>, context: nat) returns (f: nat)
    requires edits != []
    ensures OpenFrom(edits, context, f)
  {
    var init, last := edits[..|edits| - 1], edits[|edits| - 1];
    assert edits == init + [last];
    if init == [] || Splits(init, last, context) {
      OpenNew(edits, init, last, context);
      f := |init|;
    } else {
      f := OpenIsPart(init, context);
      OpenMore(edits, init, last, context, f);
    }
  }

  lemma {:induction false} ClosedCount(edits: seq<DiffOp>, context: nat)
    ensures edits != [] ==> |Closed(edits, context)| == |Firsts(edits, context)| - 1
  {
    if edits != [] {
      ClosedCount(edits[..|edits| - 1], context);
    }
  }

  /** Edits i to j as a group that is complete when `next` comes. */
  function Hunk(edits: seq<DiffOp>, i: nat, j: nat, next: DiffOp, context: nat): seq<DiffOp>
    requires i <= j <= |edits|
  {
    Part(edits, i, j, context) + After(Prev(edits, j), next, context)
  }

  lemma HunkOfInit(edits: seq<DiffOp>, init: seq<DiffOp>, last: DiffOp, i: nat, j: nat, next: DiffOp, context: nat)
    requires edits == init + [last] && i <= j <= |init|
    ensures Hunk(init, i, j, next, context) == Hunk(edits, i, j, next, context)
  {
    PartOfInit(edits, init, last, i, j, context);
  }

  /** The group g is edits i to j. */
  ghost predicate IsHunk(edits: seq<DiffOp>, context: nat, g: nat, i: nat, j: nat)
  {
    && g < |Closed(edits, context)| && i <= j < |edits|
    && Closed(edits, context)[g] == Hunk(edits, i, j, edits[j], context)
  }

  /** The group that the last edit closes. */
  lemma ClosedLast(edits: seq<DiffOp>, init: seq<DiffOp>, last: DiffOp, context: nat, f: nat)
    requires edits == init + [last] && init != [] && Splits(init, last, context) && OpenFrom(init, context, f)
    ensures IsHunk(edits, context, |Closed(init, context)|, f, |init|)
  {
    GroupsNext(edits, init, last, context);
    PartOfInit(edits, init, last, f, |init|, context);
  }

  /** An earlier group is the same with the last edit. */
  lemma ClosedEarlier(edits: seq<DiffOp>, init: seq<DiffOp>, last: DiffOp, context: nat, g: nat, i: nat, j: nat)
    requires edits == init + [last] && IsHunk(init, context, g, i, j)
    ensures IsHunk(edits, context, g, i, j)
  {
    GroupsNext(edits, init, last, context);
    HunkOfInit(edits, init, last, i, j, init[j], context);
  }

  /** Edits i and j are the first ones of group g and of the next one. */
  ghost predicate Starts(f: seq<nat>, g: nat, i: nat, j: nat)
  {
    g + 1 < |f| && i == f[g] && j == f[g + 1]
  }

  lemma StartsOfInit(f: seq<nat>, f': seq<nat>, n: nat, g: nat, i: nat, j: nat)
    requires f == f' + [n] && Starts(f, g, i, j)
    ensures Starts(f', g, i, j) || (|f'| == g + 1 && i == f'[g] && j == n)
  {
  }

  lemma ClosedNow(edits: seq<DiffOp>, init: seq<DiffOp>, last: DiffOp, context: nat, g: nat, i: nat)
    requires edits == init + [last] && init != [] && Splits(init, last, context)
    requires |Firsts(init, context)| == g + 1 && i == Firsts(init, context)[g]
    ensures IsHunk(edits, context, g, i, |init|)
  {
    ClosedCount(init, context);
    var f := OpenIsPart(init, context);
    ClosedLast(edits, init, last, context, f);
  }

  lemma {:induction false} ClosedAreParts(edits: seq<DiffOp>, context: nat, g: nat, i: nat, j: nat)
    requires Starts(Firsts(edits, context), g, i, j)
    ensures IsHunk(edits, context, g, i, j)
    decreases |edits|
  {
    var init, last := edits[..|edits| - 1], edits[|edits| - 1];
    assert edits == init + [last];
    FirstsNext(edits, init, last, context);
    if init != [] && Splits(init, last, context) {
      StartsOfInit(Firsts(edits, context), Firsts(init, context), |init|, g, i, j);
      if !Starts(Firsts(init, context), g, i, j) {
        ClosedNow(edits, init, last, context, g, i);
        return;
      }
    }
    ClosedAreParts(init, context, g, i, j);
    ClosedEarlier(edits, init, last, context, g, i, j);
  }

  lemma FirstsNext(edits: seq<DiffOp>, init: seq<DiffOp>, last: DiffOp, context: nat)
    requires edits == init + [last]
    ensures init != [] && Splits(init, last, context) ==> Firsts(edits, context) == Firsts(init, context) + [|init|]
    ensures init != [] && !Splits(init, last, context) ==> Firsts(edits, context) == Firsts(init, context)
    ensures init == [] ==> Firsts(edits, context) == [0]
  {
    GroupsNext(edits, init, last, context);
  }

  /** Edits i to j as a group of files with so many lines. */
  function HunkOf(edits: seq<DiffOp>, i: nat, j: nat, context: nat, len1: int, len2: int): seq<DiffOp>
    requires i <= j <= |edits|
  {
    Hunk(edits, i, j, if j < |edits| then edits[j] else End(len1, len2), context)
  }

  /** The group g holds edits i to j. */
  ghost predicate Holds(edits: seq<DiffOp>, context: nat, g: nat, i: nat, j: nat)
  {
    var f := Firsts(edits, context);
    g < |f| && i == f[g] && j == if g + 1 < |f| then f[g + 1] else |edits|
  }

  /**
    * Every group is some edits in a row, each behind its context, and the context after the last of
    * them. More than two contexts lie between it and the groups before and after it, in both files,
    * and at most two contexts, in one file at least, between any two of its edits.
    */
  lemma HunkShape(edits: seq<DiffOp>, context: nat, len1: int, len2: int, g: nat, i: nat, j: nat)
    requires AllEdits(edits) && edits != [] && Holds(edits, context, g, i, j)
    ensures var hunks := HunksOf(edits, context, len1, len2);
            && |hunks| == |Firsts(edits, context)|
            && i < j <= |edits|
            && (i == 0 <==> g == 0) && (i > 0 ==> Far(edits, i, context))
            && (j == |edits| <==> g == |hunks| - 1) && (j < |edits| ==> Far(edits, j, context))
            && (forall k: nat :: i < k < j ==> !Far(edits, k, context))
            && hunks[g] == HunkOf(edits, i, j, context, len1, len2)
  {
    var f := Firsts(edits, context);
    ClosedCount(edits, context);
    HoldsMeans(edits, context, g, i, j);
    if g + 1 < |f| {
      ClosedAreParts(edits, context, g, i, j);
    } else {
      var last := OpenIsPart(edits, context);
      SameAfter(edits, Prev(edits, |edits|), End(len1, len2), context);
    }
  }

  /** Where group g begins and ends among the edits. */
  lemma HoldsMeans(edits: seq<DiffOp>, context: nat, g: nat, i: nat, j: nat)
    requires AllEdits(edits) && edits != [] && Holds(edits, context, g, i, j)
    ensures i < j <= |edits| && (i == 0 <==> g == 0) && (i > 0 ==> Far(edits, i, context))
    ensures (j == |edits| <==> g == |Firsts(edits, context)| - 1) && (j < |edits| ==> Far(edits, j, context))
    ensures forall k: nat :: i < k < j ==> !Far(edits, k, context)
  {
    var f := Firsts(edits, context);
    FirstsRise(edits, context);
    assert f[g] in f;
    FirstsAre(edits, context, i);
    if g + 1 < |f| {
      assert f[g + 1] in f;
      FirstsAre(edits, context, j);
    }
    forall k: nat | i < k < j
      ensures !Far(edits, k, context)
    {
      NoneBetween(f, g, k);
      FirstsAre(edits, context, k);
    }
  }

  lemma NoneBetween(f: seq<nat>, g: nat, k: nat)
    requires g < |f| && Rising(f) && f[g] < k && (g + 1 < |f| ==> k < f[g + 1])
    ensures k !in f
  {
  }

  /** Context of at most so many lines that ends where the edit starts. */
  predicate Leads(op: DiffOp, edit: DiffOp, context: nat)
  {
    && op.op.Same? && op.end1 == edit.start1 && op.end2 == edit.start2
    && op.end1 - op.start1 <= context && op.end2 - op.start2 <= context
  }

  /** Context of at most so many lines that starts where the edit ends. */
  predicate Trails(op: DiffOp, edit: DiffOp, context: nat)
  {
    && op.op.Same? && op.start1 == edit.end1 && op.start2 == edit.end2
    && op.end1 - op.start1 <= context && op.end2 - op.start2 <= context
  }

  lemma {:induction false} PartEnds(edits: seq<DiffOp>, i: nat, j: nat, context: nat)
    requires i < j <= |edits|
    ensures var p := Part(edits, i, j, context);
            p != [] && (p[0] == edits[i] || Leads(p[0], edits[i], context)) && p[|p| - 1] == edits[j - 1]
    decreases j
  {
    if i < j - 1 {
      PartEnds(edits, i, j - 1, context);
    }
  }

  /** A group begins with its first edit or its context, and ends with its last edit or its context. */
  lemma HunkEnds(edits: seq<DiffOp>, context: nat, len1: int, len2: int, i: nat, j: nat)
    requires i < j <= |edits|
    ensures var h := HunkOf(edits, i, j, context, len1, len2);
            && h != []
            && (h[0] == edits[i] || Leads(h[0], edits[i], context))
            && (h[|h| - 1] == edits[j - 1] || Trails(h[|h| - 1], edits[j - 1], context))
  {
    PartEnds(edits, i, j, context);
    var next := if j < |edits| then edits[j] else End(len1, len2);
    AfterTrails(Prev(edits, j), next, context);
    EndsOfHunk(Part(edits, i, j, context), After(Prev(edits, j), next, context), edits[i], edits[j - 1], context);
  }

  lemma AfterTrails(edits: seq<DiffOp>, op: DiffOp, context: nat)
    requires edits != []
    ensures var after := After(edits, op, context);
            after == [] || (|after| == 1 && Trails(after[0], edits[|edits| - 1], context))
  {
  }

  lemma EndsOfHunk(part: seq<DiffOp>, after: seq<DiffOp>, first: DiffOp, last: DiffOp, context: nat)
    requires part != [] && (part[0] == first || Leads(part[0], first, context)) && part[|part| - 1] == last
    requires after == [] || (|after| == 1 && Trails(after[0], last, context))
    ensures var h := part + after;
            && h != [] && (h[0] == first || Leads(h[0], first, context))
            && (h[|h| - 1] == last || Trails(h[|h| - 1], last, context))
  {
  }

  // ----- Which unchanged lines are shown -----

  function From(op: DiffOp, second: bool): int { if second then op.start2 else op.start1 }
  function To(op: DiffOp, second: bool): int { if second then op.end2 else op.end1 }

  /** Line p of the first or of the second file is in some operation. */
  predicate Shows(ops: seq<DiffOp>, p: int, second: bool)
  {
    exists k :: 0 <= k < |ops| && From(ops[k], second) <= p < To(ops[k], second)
  }

  predicate InOrder(edits: seq<DiffOp>, second: bool)
  {
    && (forall k :: 0 <= k < |edits| ==> 0 <= From(edits[k], second) <= To(edits[k], second))
    && (forall k, l :: 0 <= k < l < |edits| ==> To(edits[k], second) <= From(edits[l], second))
  }

  function LastTo(edits: seq<DiffOp>, second: bool): int { if second then Last2(edits) else Last1(edits) }

  lemma ShowsConcat(x: seq<DiffOp>, y: seq<DiffOp>, p: int, second: bool)
    ensures Shows(x + y, p, second) <==> Shows(x, p, second) || Shows(y, p, second)
  {
    var z := x + y;
    if k :| 0 <= k < |x| && From(x[k], second) <= p < To(x[k], second) {
      assert z[k] == x[k];
    }
    if k :| 0 <= k < |y| && From(y[k], second) <= p < To(y[k], second) {
      assert z[|x| + k] == y[k];
    }
  }

  /** The context operations added before an edit. */
  function Context(ops: seq<DiffOp>, op: DiffOp, context: nat): seq<DiffOp>
  {
    (if Splits(ops, op, context) then After(ops, op, context) else []) + Before(ops, op, context)
  }

  /** All operations once the edits are known, without the context after the last one. */
  function Shown(edits: seq<DiffOp>, context: nat): seq<DiffOp>
  {
    Flatten(Closed(edits, context)) + Open(edits, context)
  }

  lemma FlattenAdded(hunks: seq<seq<DiffOp>>, ops: seq<DiffOp>, op: DiffOp, context: nat,
                     hunks': seq<seq<DiffOp>>, ops': seq<DiffOp>)
    requires hunks' == hunks + if Splits(ops, op, context) then [ops + After(ops, op, context)] else []
    requires ops' == (if Splits(ops, op, context) then [] else ops) + Before(ops, op, context) + [op]
    ensures Flatten(hunks') + ops' == Flatten(hunks) + ops + Context(ops, op, context) + [op]
  {
    if Splits(ops, op, context) {
      assert hunks'[..|hunks'| - 1] == hunks;
    } else {
      assert hunks' == hunks;
    }
  }

  lemma ShownNext(edits: seq<DiffOp>, init: seq<DiffOp>, last: DiffOp, context: nat)
    requires edits == init + [last]
    ensures Shown(edits, context) == Shown(init, context) + Context(init, last, context) + [last]
  {
    OpenEnds(init, context);
    assert edits[..|edits| - 1] == init;
    FlattenAdded(Closed(init, context), Open(init, context), last, context, Closed(edits, context),
                 Open(edits, context));
    assert Context(Open(init, context), last, context) == Context(init, last, context);
  }

  lemma OneShows(op: DiffOp, p: int, second: bool)
    ensures Shows([op], p, second) <==> From(op, second) <= p < To(op, second)
  {
    if From(op, second) <= p < To(op, second) {
      assert [op][0] == op;
    }
  }

  /** What the context between two edits shows. */
  lemma ContextShows(ops: seq<DiffOp>, op: DiffOp, context: nat, p: int, second: bool)
    requires !op.op.Flush? && LastTo(ops, second) <= From(op, second)
    ensures Shows(Context(ops, op, context), p, second) <==>
            LastTo(ops, second) <= p < From(op, second)
            && (p >= From(op, second) - context || (Splits(ops, op, context) && p < LastTo(ops, second) + context))
  {
    var after := if Splits(ops, op, context) then After(ops, op, context) else [];
    var before := Before(ops, op, context);
    ShowsConcat(after, before, p, second);
    if after != [] {
      OneShows(after[0], p, second);
      assert after == [after[0]];
    }
    if before != [] {
      OneShows(before[0], p, second);
      assert before == [before[0]];
    }
  }

  lemma InOrderInit(edits: seq<DiffOp>, init: seq<DiffOp>, last: DiffOp, second: bool)
    requires edits == init + [last] && InOrder(edits, second)
    ensures InOrder(init, second) && 0 <= LastTo(init, second) <= From(last, second) <= To(last, second)
  {
    assert edits[|init|] == last;
    assert forall k :: 0 <= k < |init| ==> init[k] == edits[k];
  }

  lemma {:induction false} NothingBeyond(edits: seq<DiffOp>, context: nat, p: int, second: bool)
    requires AllEdits(edits) && InOrder(edits, second) && LastTo(edits, second) <= p
    ensures !Shows(Shown(edits, context), p, second)
  {
    if edits != [] {
      var init, last := edits[..|edits| - 1], edits[|edits| - 1];
      assert edits == init + [last];
      InOrderInit(edits, init, last, second);
      NothingBeyond(init, context, p, second);
      ShownSplit(edits, init, last, context, p, second);
      ContextShows(init, last, context, p, second);
    }
  }

  /** Where the edit before edit k ends. */
  function PrevTo(edits: seq<DiffOp>, k: nat, second: bool): int
    requires k <= |edits|
  {
    if k == 0 then 0 else To(edits[k - 1], second)
  }

  /** Line p lies before edit k and after the one before it. */
  predicate InGap(edits: seq<DiffOp>, k: nat, p: int, second: bool)
    requires k <= |edits|
  {
    PrevTo(edits, k, second) <= p && (k < |edits| ==> p < From(edits[k], second))
  }

  lemma ShownSplit(edits: seq<DiffOp>, init: seq<DiffOp>, last: DiffOp, context: nat, p: int, second: bool)
    requires AllEdits(edits) && InOrder(edits, second) && edits == init + [last]
    ensures Shows(Shown(edits, context), p, second) <==>
            || Shows(Shown(init, context), p, second)
            || Shows(Context(init, last, context), p, second)
            || From(last, second) <= p < To(last, second)
  {
    ShownNext(edits, init, last, context);
    ShowsConcat(Shown(init, context) + Context(init, last, context), [last], p, second);
    ShowsConcat(Shown(init, context), Context(init, last, context), p, second);
    OneShows(last, p, second);
  }

  /** What is shown in the gap before the last edit. */
  lemma ShownInLastGap(edits: seq<DiffOp>, init: seq<DiffOp>, last: DiffOp, context: nat, p: int, second: bool)
    requires AllEdits(edits) && InOrder(edits, second) && edits == init + [last]
    requires LastTo(init, second) <= p < From(last, second)
    ensures Shows(Shown(edits, context), p, second) <==>
            p >= From(last, second) - context || (Splits(init, last, context) && p < LastTo(init, second) + context)
  {
    InOrderInit(edits, init, last, second);
    ShownSplit(edits, init, last, context, p, second);
    ContextShows(init, last, context, p, second);
    NothingBeyond(init, context, p, second);
  }

  /** The last edit and its context show nothing before the end of the one before it. */
  lemma ShownBeforeLast(edits: seq<DiffOp>, init: seq<DiffOp>, last: DiffOp, context: nat, p: int, second: bool)
    requires AllEdits(edits) && InOrder(edits, second) && edits == init + [last] && p < LastTo(init, second)
    ensures Shows(Shown(edits, context), p, second) <==> Shows(Shown(init, context), p, second)
  {
    InOrderInit(edits, init, last, second);
    ShownSplit(edits, init, last, context, p, second);
    ContextShows(init, last, context, p, second);
  }

  lemma InGapOfInit(edits: seq<DiffOp>, init: seq<DiffOp>, last: DiffOp, k: nat, p: int, second: bool)
    requires edits == init + [last] && InOrder(edits, second) && k < |init| && InGap(edits, k, p, second)
    ensures InGap(init, k, p, second) && InOrder(init, second) && p < LastTo(init, second)
    ensures PrevTo(edits, k, second) == PrevTo(init, k, second) && edits[k] == init[k]
  {
    InOrderInit(edits, init, last, second);
    EarlierEnds(init, k, second);
  }

  lemma FarInInit(edits: seq<DiffOp>, init: seq<DiffOp>, last: DiffOp, k: nat, context: nat)
    requires edits == init + [last] && 0 < k < |init|
    ensures Far(edits, k, context) <==> Far(init, k, context)
  {
  }

  lemma {:induction false} ShownInGap(edits: seq<DiffOp>, context: nat, k: nat, p: int, second: bool)
    requires AllEdits(edits) && InOrder(edits, second) && k < |edits| && InGap(edits, k, p, second)
    ensures Shows(Shown(edits, context), p, second) <==>
            p >= From(edits[k], second) - context
            || (k > 0 && Far(edits, k, context) && p < PrevTo(edits, k, second) + context)
  {
    var n := |edits| - 1;
    var init, last := edits[..n], edits[n];
    assert edits == init + [last];
    if k == n {
      ShownInLastGap(edits, init, last, context, p, second);
      if k > 0 {
        SplitsIsFar(edits, k, context);
      }
    } else {
      InGapOfInit(edits, init, last, k, p, second);
      ShownBeforeLast(edits, init, last, context, p, second);
      ShownInGap(init, context, k, p, second);
      if k > 0 {
        FarInInit(edits, init, last, k, context);
      }
    }
  }

  /**
    * Exactly which unchanged lines the groups show: those within the context before the next edit,
    * and those within the context after the last one if the next edit is far or there is none. So a
    * gap of a group that is wider than the context has lines that are in no operation.
    */
  lemma ShownIff(edits: seq<DiffOp>, context: nat, len1: int, len2: int, k: nat, p: int, second: bool)
    requires AllEdits(edits) && edits != [] && InOrder(edits, second)
    requires k <= |edits| && InGap(edits, k, p, second) && (k == |edits| ==> p < if second then len2 else len1)
    ensures Shows(Flatten(HunksOf(edits, context, len1, len2)), p, second) <==>
            || (k < |edits| && p >= From(edits[k], second) - context)
            || (k > 0 && (k == |edits| || Far(edits, k, context)) && p < PrevTo(edits, k, second) + context)
  {
    FlattenHunks(edits, context, len1, len2);
    ShowsConcat(Shown(edits, context), After(edits, End(len1, len2), context), p, second);
    AfterShows(edits, End(len1, len2), context, p, second);
    if k < |edits| {
      ShownInGap(edits, context, k, p, second);
      EarlierEnds(edits, k, second);
    } else {
      NothingBeyond(edits, context, p, second);
    }
  }

  lemma FlattenHunks(edits: seq<DiffOp>, context: nat, len1: int, len2: int)
    requires edits != []
    ensures Flatten(HunksOf(edits, context, len1, len2)) ==
            Shown(edits, context) + After(edits, End(len1, len2), context)
  {
    var hunks := HunksOf(edits, context, len1, len2);
    assert hunks[..|hunks| - 1] == Closed(edits, context);
  }

  lemma AfterShows(ops: seq<DiffOp>, op: DiffOp, context: nat, p: int, second: bool)
    ensures Shows(After(ops, op, context), p, second) <==>
            LastTo(ops, second) <= p < Min(From(op, second), LastTo(ops, second) + context)
  {
    var after := After(ops, op, context);
    if after != [] {
      OneShows(after[0], p, second);
      assert after == [after[0]];
    }
  }

  lemma EarlierEnds(edits: seq<DiffOp>, k: nat, second: bool)
    requires InOrder(edits, second) && k < |edits|
    ensures From(edits[k], second) <= LastTo(edits, second)
  {
  }

  // ----- The edits of two markings lie in order -----

  predicate InRange(edits: seq<DiffOp>, i1: int, len1: int, i2: int, len2: int)
  {
    forall k :: 0 <= k < |edits| ==>
      i1 <= edits[k].start1 <= edits[k].end1 <= len1 && i2 <= edits[k].start2 <= edits[k].end2 <= len2
  }

  /** The edits are in order in both files, and within the bounds. */
  predicate Ordered(edits: seq<DiffOp>, i1: int, len1: int, i2: int, len2: int)
  {
    AllEdits(edits) && InOrder(edits, false) && InOrder(edits, true) && InRange(edits, i1, len1, i2, len2)
  }

  lemma EditOrdered(a: seq<int>, b: seq<int>, i1: nat, e1: nat, i2: nat, e2: nat)
    requires i1 <= e1 <= |a| && i2 <= e2 <= |b|
    ensures |EditOf(a, b, i1, e1, i2, e2)| <= 1 && Ordered(EditOf(a, b, i1, e1, i2, e2), i1, e1, i2, e2)
  {
  }

  lemma OrderedEarlier(edits: seq<DiffOp>, i1: int, len1: int, i2: int, len2: int, j1: int, j2: int)
    requires Ordered(edits, i1, len1, i2, len2) && j1 <= i1 && j2 <= i2
    ensures Ordered(edits, j1, len1, j2, len2)
  {
  }

  lemma {:induction false} ChangesInOrder(a: seq<int>, b: seq<int>, c1: seq<bool>, c2: seq<bool>, i1: nat, i2: nat)
    requires i1 <= |a| == |c1| && i2 <= |b| == |c2|
    ensures Ordered(Changes(a, b, c1, c2, i1, i2), i1, |a|, i2, |b|)
    decreases |a| - i1 + |b| - i2
  {
    if i1 < |a| && i2 < |b| && !c1[i1] && !c2[i2] {
      ChangesInOrder(a, b, c1, c2, i1 + 1, i2 + 1);
      OrderedEarlier(Changes(a, b, c1, c2, i1 + 1, i2 + 1), i1 + 1, |a|, i2 + 1, |b|, i1, i2);
    } else {
      var e1, e2 := RunEnd(c1, i1), RunEnd(c2, i2);
      if e1 != i1 || e2 != i2 {
        ChangesInOrder(a, b, c1, c2, e1, e2);
        EditOrdered(a, b, i1, e1, i2, e2);
        InOrderBehind(EditOf(a, b, i1, e1, i2, e2), Changes(a, b, c1, c2, e1, e2), i1, e1, |a|, i2, e2, |b|);
      }
    }
  }

  lemma InOrderBehind(first: seq<DiffOp>, rest: seq<DiffOp>, i1: nat, e1: nat, len1: nat, i2: nat, e2: nat, len2: nat)
    requires |first| <= 1 && Ordered(first, i1, e1, i2, e2) && i1 <= e1 <= len1 && i2 <= e2 <= len2
    requires Ordered(rest, e1, len1, e2, len2)
    ensures Ordered(first + rest, i1, len1, i2, len2)
  {
  }
}
