/** The diff of two files' data under the case and space flags, from bytes to edits. */
module DiffData {
  import opened Interning
  import opened LineCompare
  import opened SplitLines
  import opened Hunks
  import opened DiffFile

  datatype Verdict = Identical | BinaryDiffers | Compared(changed: bool)

  /**
    * Equal data is identical and other data with a NUL near its start is binary. Otherwise the marks
    * leave a longest match of the lines under the flags, the edits that they give turn the lines of
    * the first file into lines that agree with those of the second, and the verdict is judged right.
    */
  method DiffOfData(data1: Line, data2: Line, flags: Flags, step: (nat, int) -> nat, ignoreBlank: bool, context: nat)
    returns (verdict: Verdict, hunks: seq<seq<DiffOp>>,
             ghost ids1: seq<nat>, ghost ids2: seq<nat>, ghost change1: seq<bool>, ghost change2: seq<bool>)
    ensures verdict.Identical? <==> data1 == data2
    ensures verdict.BinaryDiffers? <==> data1 != data2 && (HasNul(data1, |data1|) || HasNul(data2, |data2|))
    ensures !verdict.Compared? ==> hunks == []
    ensures verdict.Compared? ==>
              Diffed(SameForm(flags), Split(data1), Split(data2), ignoreBlank, context, hunks, verdict.changed,
                     ids1, ids2, change1, change2)
  {
    if data1 == data2 {
      return Identical, [], [], [], [], [];
    }
    var lines1 := SplitData(data1);
    var lines2 := SplitData(data2);
    if lines1.Binary? || lines2.Binary? {
      return BinaryDiffers, [], [], [], [], [];
    }
    FormsAreConsistent(flags, step);
    var chg, changed;
    chg, changed, ids1, ids2, change1, change2 :=
      DiffFile.DiffFile(lines1.lines, lines2.lines, SameForm(flags), FormHash(flags, step), ignoreBlank, context);
    verdict, hunks := Compared(changed), chg.hunks;
  }
}
