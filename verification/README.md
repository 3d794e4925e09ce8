# Verified models of the diff engine, the request proxy, the timing wheel and the configuration file

This project models four parts of the repository and proves what they are for.

**The diff engine** (`github.com/reechou/xdiff/xdiff.go`), all stages from bytes to edits:

| stage | files |
|---|---|
| splitting data into lines | `SplitLines.dfy` |
| when two lines are the same, and their hash | `LineCompare.dfy` (the loops), `SameLines.dfy` (what it means in bytes) |
| interning lines as ids in a chained hash table | `Interning.dfy` |
| trimming and merging before the diff, and expanding after it | `Foreign.dfy` (theory), `Compress.dfy` (the loops) |
| the linear-space diff of E. Myers, "An O(ND) Difference Algorithm and Its Variations", section 4b | `Lcs.dfy`, `Furthest.dfy` (theory), `Myers.dfy`, `Recursion.dfy` (the algorithm) |
| shifting changed blocks | `Shift.dfy` (the pass), `ShiftRuns.dfy` (its result is the only one) |
| reporting edits in groups with context | `Hunks.dfy` (the groups), `Report.dfy` (the scan), `Blanks.dfy` (ignored blank lines) |
| all of it together | `Matches.dfy` (lines and their ids), `Verdict.dfy`, `DiffFile.dfy`, `DiffData.dfy` |
| marking the changes within a line as HTML | `Render.dfy` |

A *marking* is one boolean per line, true for changed; `Marks.Kept` is what a marking leaves. The central
statement is that the marks leave a longest common subsequence, in the sense of a reference recursion
(`Lcs.Length`) that is itself proved to be the maximum over all pairs of markings. The middle snake search
works in place in one array `v` with stale cells from other calls; its invariant is that each cell of the
current row holds the furthest point of its diagonal, on a grid that goes on beyond its corner without
matches. The end of the way is `DiffFile.DiffFile`: the reported edits turn the first file into the second,
what is left unmarked is a longest match, and it is exact about when no change is reported.

**The request proxy** (`xman/xman_conn_proxy.go`; `RequestProxy.dfy`, `RequestRuns.dfy`, `ConnManager.dfy`) as
a transition system over all interleavings of callers and the manager, with the manager's own code as a class
on the same map functions.

**The timing wheel** (`utils/xman_timewheel.go`, `TimingWheel.dfy`) as a class with the order of closing as
ghost state, over arbitrary runs of ticks and requests.

**The configuration file** (`config/xman_config.go`; `ConfigText.dfy`, `ConfigLines.dfy`, `Grouping.dfy`,
`Config.dfy`): what each line of a file means, what is read from a text, what is saved, and exactly when
saving and reading gives the same sections.

## Where the code falls short

- *Gaps inside a group of edits.* A gap between two edits that is wider than the context but not wider than
  twice the context neither splits the group nor is filled, so lines are in no operation.
  `Hunks.ShownIff` says exactly which unchanged lines are shown, and `Report.SkippedLines` gives marks with
  such a gap.
- *Blank lines compete with other lines.* With blank lines ignored, two files that agree but for blank lines
  can be reported as changed. There are three cases, each with an exact condition on the two files.
  "Unchanged" is always reported if every line that counts makes the longest match longer, on both sides
  (`Verdict.AlwaysUnchangedIff`); that holds if the files agree and one of them has no blank line
  (`Verdict.AllCountIsNeeded`). It is never reported if the files do not agree or some match is longer than
  one that keeps all lines that count (`Verdict.NeverUnchangedIff`), as in `Verdict.BlankLinesCompete`. In
  between it is decided by which longest match is found, as for the pair in `Verdict.DecidedByMatch`: one
  longest match of these two files shows no change, and another one does. Unless blank lines are
  ignored the verdict is right (`Verdict.ChangedIff`).
- *Timeouts in the past.* `After` promises nothing for a timeout of minus one interval or less: it panics or
  hands out a channel from further along the ring. The contract of `TimingWheel.Wheel.After` says which.
- *Sequence numbers wrap around.* Beyond a window of 2^32 requests the promise fails: the run in
  `RequestRuns.LostBeyondWindow` loses a request. `RequestRuns.LossIff` says exactly which step loses one,
  and `RequestRuns.WindowSuffices` that the window rules it out.
- *Configurations that do not survive saving.* `ConfigText.SaveReadIff` and `Config.ConfigurationRoundTrip`
  give the exact condition: one global section in front, trimmed names, and options that are read back from
  their lines. Among the options that are not: a key with `=`, a key without value that contains `:`, a key
  that begins like a comment or a section, a key set by `SetValueFor` alone, and a value that ends with a
  carriage return.

## Model

| member | source | states |
|---|---|---|
| Marks.KeptLength | github.com/reechou/xdiff/xdiff.go:376-387 | kept and marked elements together are all elements, so minimal marks are maximal kept elements |
| Lcs.LengthIsUpperBound | github.com/reechou/xdiff/xdiff.go:376-387 | no pair of markings that leaves the same sequence on both sides leaves more than the reference length |
| Lcs.LengthIsLongest | github.com/reechou/xdiff/xdiff.go:376-387 | markings that leave the reference length leave a longest common subsequence |
| Lcs.ThroughPoint | github.com/reechou/xdiff/xdiff.go:2001-2051 | the best common subsequence through any point of the edit graph is no longer than the best one |
| Lcs.LengthSymmetric | github.com/reechou/xdiff/xdiff.go:2113-2115 | the reference length does not depend on which list comes first |
| Furthest.FurthestStep | github.com/reechou/xdiff/xdiff.go:2019-2032 | the forward recurrence of one pass, followed by the snake, gives the furthest point of the diagonal (Myers, Lemma 3) |
| Furthest.FurthestBackStep | github.com/reechou/xdiff/xdiff.go:2033-2048 | the same for the backward recurrence |
| Furthest.MeetingPoint | github.com/reechou/xdiff/xdiff.go:2028-2029 | where both searches meet with no more edits than the distance lies on an optimal path, inside the rectangle |
| Furthest.ForwardMeets | github.com/reechou/xdiff/xdiff.go:2028-2029 | the overlap test of the forward pass finds an optimal snake |
| Furthest.BackwardMeets | github.com/reechou/xdiff/xdiff.go:2044-2045 | the overlap test of the backward pass finds an optimal snake |
| Furthest.OptimalSnakeIsMiddle | github.com/reechou/xdiff/xdiff.go:2028-2029 | an optimal snake is a box of equal contents in the rectangle, splits the length into three parts, and is neither at the very beginning nor at the very end |
| Furthest.ApartMeans | github.com/reechou/xdiff/xdiff.go:2016 | while the two searches stay apart the distance exceeds the passes made, so the loop without a condition stops |
| Myers.FollowSnake | github.com/reechou/xdiff/xdiff.go:2026-2027 | the longest run of matches down a diagonal |
| Myers.ForwardPass | github.com/reechou/xdiff/xdiff.go:2019-2032 | a forward pass finds an optimal snake or leaves in its row of v the furthest points of the pass, the other row untouched |
| Myers.BackwardPass | github.com/reechou/xdiff/xdiff.go:2033-2048 | a backward pass likewise |
| Myers.BeginSearch | github.com/reechou/xdiff/xdiff.go:2003-2012 | whatever v held before, the four cells written first and the size of v start the invariant with disjoint rows |
| Myers.DistanceParity | github.com/reechou/xdiff/xdiff.go:2005-2006 | the edit distance is odd exactly if the lengths differ by an odd number, so each overlap test is made in the right pass |
| Myers.AlgorithmSms | github.com/reechou/xdiff/xdiff.go:2001-2051 | the search ends, stays within v, and returns a middle snake that makes both remaining problems smaller |
| Recursion.FindOneSms | github.com/reechou/xdiff/xdiff.go:2056-2063 | the first occurrence of the value, or the point past it |
| Recursion.Partition | github.com/reechou/xdiff/xdiff.go:2106-2119 | the split of the problem is a middle snake in the one-element cases too |
| Recursion.Join | github.com/reechou/xdiff/xdiff.go:2121-2123 | solutions of the two parts around a middle snake make a solution of the whole |
| Recursion.AlgorithmLcs | github.com/reechou/xdiff/xdiff.go:2068-2125 | within its window of the marks the recursion leaves a common subsequence of the reference length, and outside it changes nothing |
| Recursion.DoDiff | github.com/reechou/xdiff/xdiff.go:376-387 | for all integer lists the marks leave equal sequences, no pair of markings leaves longer ones |
| Interning.EquivTable.Lookup | github.com/reechou/xdiff/xdiff.go:1380-1400 | a node for an equivalent line, or none in the bucket's chain has the same hash and an equivalent line |
| Interning.EquivTable.Intern | github.com/reechou/xdiff/xdiff.go:1378-1407 | the id is that of a class with an equivalent line; old classes stay and the chains stay well formed, whatever hashes collide |
| Interning.InternFile | github.com/reechou/xdiff/xdiff.go:1377-1408 | every line of one file gets the id of its class |
| Interning.ClassifiedMeansSameIds | github.com/reechou/xdiff/xdiff.go:1364-1415 | ids of classes are equal exactly for equivalent lines |
| Interning.NewTable | github.com/reechou/xdiff/xdiff.go:1344-1358 | a table without classes, or with class 0 alone for blank lines if they are to be ignored |
| Interning.FindIds | github.com/reechou/xdiff/xdiff.go:1330-1415 | across both files, equal ids exactly for equivalent lines, and 0 exactly for blank lines that are to be ignored |
| LineCompare.CompareLineBytes | github.com/reechou/xdiff/xdiff.go:1078-1133 | two lines are the same exactly if their normal forms are equal, under every combination of flags that selects it; so the comparison is an equivalence |
| LineCompare.GetNextByteXspace | github.com/reechou/xdiff/xdiff.go:1062-1075 | the byte, where the next one is, and whether spaces lie between them |
| LineCompare.SqueezeAppend | github.com/reechou/xdiff/xdiff.go:1227-1247 | how one more byte changes the normal form when runs of spaces count as one and trailing ones do not count |
| LineCompare.ComputeHashBytes | github.com/reechou/xdiff/xdiff.go:1214-1257 | the hash is the byte-wise hash of the normal form, the rollback of a trailing space included, for any step function; so lines that are the same hash equally |
| LineCompare.NormalFormTwice | github.com/reechou/xdiff/xdiff.go:1078-1133 | a normal form is its own normal form |
| SameLines.CaseIgnoredIff | github.com/reechou/xdiff/xdiff.go:506-511 | with case ignored, lines are the same exactly if they have the same length and each two bytes are equal or a letter A to Z and the same letter a to z; with a space flag too, that holds for what the space flag leaves |
| SameLines.NoFlagsMeansEqual | github.com/reechou/xdiff/xdiff.go:236-240 | without flags, being the same means equal bytes |
| SameLines.InsertedIff | github.com/reechou/xdiff/xdiff.go:1083-1097 | with all space ignored, putting one more byte anywhere into a line gives the same line exactly if the byte is 32, 9, 11 or 12 |
| SameLines.SpacelessAsTheyAre | github.com/reechou/xdiff/xdiff.go:1083-1097 | and lines without those bytes are the same only if they are equal |
| SameLines.BlanksExchanged | github.com/reechou/xdiff/xdiff.go:1100-1113 | with changes of space ignored, a run of space bytes anywhere can be exchanged for any other run |
| SameLines.BlanksAtEnds | github.com/reechou/xdiff/xdiff.go:1100-1113 | runs of space bytes at both ends of a line do not matter |
| SameLines.BlanksNeeded | github.com/reechou/xdiff/xdiff.go:1100-1113 | a run of space bytes between two other bytes is never the same as none |
| SameLines.SingleSpacedAsTheyAre | github.com/reechou/xdiff/xdiff.go:1100-1113 | and lines with single spaces between other bytes are the same only if they are equal |
| Foreign.DropForeign | github.com/reechou/xdiff/xdiff.go:1438-1456 | leaving out lines that the other file does not have keeps the length |
| Foreign.TrimmedSolved | github.com/reechou/xdiff/xdiff.go:1438-1476 | a solution of the window between the trimmed ends solves the whole |
| Foreign.MergingKeepsLength | github.com/reechou/xdiff/xdiff.go:1499-1541 | merging runs of lines that the other file does not have keeps the length |
| Foreign.EntriesApart | github.com/reechou/xdiff/xdiff.go:1501-1538 | the ids of merged entries occur in no entry of the other file |
| Foreign.KeptExpand | github.com/reechou/xdiff/xdiff.go:1582-1592 | expanding marks of entries to marks of lines keeps what is left, if merged entries are marked |
| Foreign.OnlySharedKept | github.com/reechou/xdiff/xdiff.go:1438-1476 | in a common subsequence every line that the other file does not have is marked |
| Foreign.ExpandSolution | github.com/reechou/xdiff/xdiff.go:1560-1594 | a solution for the entries, expanded, is a solution for the lines |
| Compress.TrimFront | github.com/reechou/xdiff/xdiff.go:1441-1456 | what is trimmed in front is part of a longest common subsequence |
| Compress.TrimBack | github.com/reechou/xdiff/xdiff.go:1461-1476 | the same at the end |
| Compress.MergeForeign | github.com/reechou/xdiff/xdiff.go:1519-1544 | the entries represent the lines of the window run by run, and merged entries have negative ids of their own |
| Compress.CompressEquivIds | github.com/reechou/xdiff/xdiff.go:1425-1554 | either the early return has solved the problem, or window and entries are ready for the diff |
| Compress.ExpandChangeList | github.com/reechou/xdiff/xdiff.go:1560-1594 | within the window each line is marked as its entry is, and nothing changes outside it |
| Compress.DiffLines | github.com/reechou/xdiff/xdiff.go:1919-1929 | compression, diff and expansion together leave a longest common subsequence of the ids |
| Shift.DoShiftBoundary | github.com/reechou/xdiff/xdiff.go:2128-2141 | moves one block of marks by the offset and nothing else |
| Shift.FindShiftBoundary | github.com/reechou/xdiff/xdiff.go:2143-2165 | the end of the block, how far it can slide each way, and exactly when it then meets another block or an end |
| Shift.SlideUpKept | github.com/reechou/xdiff/xdiff.go:2128-2141 | sliding a block up past equal values keeps the unmarked values and the number of marks |
| Shift.SlideDownKept | github.com/reechou/xdiff/xdiff.go:2128-2141 | the same for sliding down |
| Shift.BestOffset | github.com/reechou/xdiff/xdiff.go:2231-2241 | the best score within reach, the first of equal ones, and no move without a gain |
| Shift.ShiftBlock | github.com/reechou/xdiff/xdiff.go:2193-2255 | each round moves one block exactly where it should go (into a neighbour above, else below, else to the best score within its full reach), leaves the cursor exactly where the next round starts, and lowers a lexicographic measure, also when the cursor goes back |
| Shift.ShiftBoundaries | github.com/reechou/xdiff/xdiff.go:2193-2255 | for every scoring the loop ends, the new marks are those that such rounds lead to from the old ones until nothing is marked behind the cursor, and the unmarked values and the number of marks are kept; without scoring no block is left that could merge, and nothing changes exactly if there was none before |
| ShiftRuns.ShiftedOnce | github.com/reechou/xdiff/xdiff.go:2193-2255 | the marks that a whole pass leads to are determined by the marks before it and the scores |
| Report.NextChangeSegment | github.com/reechou/xdiff/xdiff.go:392-408 | the whole changed run, and its part without blank lines at the ends |
| Report.AddChangeSegment | github.com/reechou/xdiff/xdiff.go:415-441 | exactly which operations are handed on and which are kept, with their context |
| Report.OneIsMarked | github.com/reechou/xdiff/xdiff.go:495-496 | with equal unmarked lines on both sides the branch that should not be reached is not reached |
| Report.AccountsAppend | github.com/reechou/xdiff/xdiff.go:415-441 | one more operation keeps order, disjointness, coverage, and clean context |
| Report.PatchIgnoresSame | github.com/reechou/xdiff/xdiff.go:447-503 | context operations do not change what the edits build |
| Report.ReportNext | github.com/reechou/xdiff/xdiff.go:455-498 | one round of the scan advances and keeps the report of what was scanned |
| Report.ReportDiff | github.com/reechou/xdiff/xdiff.go:447-503 | the groups are exactly those of the edits that the marks give; all operations are ordered and disjoint in both files, cover every marked line that is not blank by exactly one edit and none by context, rebuild the second file up to blank lines, and the result is true exactly if some marked line is not blank |
| Hunks.ChangesInOrder | github.com/reechou/xdiff/xdiff.go:455-498 | the edits of any marks lie in order and apart in both files |
| Hunks.HunkShape | github.com/reechou/xdiff/xdiff.go:415-441 | each group is some edits in a row with their context; groups lie more than two contexts apart in both files, and the edits of one group at most two contexts apart in one of them |
| Hunks.HunkEnds | github.com/reechou/xdiff/xdiff.go:423-435 | a group begins and ends with an edit or with at most one context of lines |
| Hunks.ShownIff | github.com/reechou/xdiff/xdiff.go:422-435 | exactly which unchanged lines are in some operation, in either file: a gap within a group shows only the context before the next edit |
| Report.SkippedLines | github.com/reechou/xdiff/xdiff.go:422-435 | marks whose report is one group with lines between its two edits that are in no operation |
| Matches.LongestOfLines | github.com/reechou/xdiff/xdiff.go:1919-1929 | a longest common subsequence of ids is a longest match of lines |
| Blanks.QuietIff | github.com/reechou/xdiff/xdiff.go:392-441 | exactly when marks show no change with blank lines ignored: the files agree but for blank lines, and every other line is kept |
| Blanks.QuietAtMost | github.com/reechou/xdiff/xdiff.go:1352-1358 | marks that show no change keep no more than matching blank lines run by run allows |
| Blanks.PairingKeeps | github.com/reechou/xdiff/xdiff.go:1352-1358 | files that agree but for blank lines have marks that show no change and keep that much |
| Blanks.QuietPossibleIff | github.com/reechou/xdiff/xdiff.go:1352-1358 | exactly when some longest match shows no change: the files agree but for blank lines, and no match is longer than one that keeps all other lines |
| Blanks.QuietAlwaysIff | github.com/reechou/xdiff/xdiff.go:1352-1358 | exactly when every longest match shows no change: each line that is not blank, on either side, makes the longest match longer |
| Blanks.NoBlankIsNeeded | github.com/reechou/xdiff/xdiff.go:1352-1358 | that is so for files that agree but for blank lines if one of them has none |
| Matches.PatchOfLines | github.com/reechou/xdiff/xdiff.go:1919-1965 | unless blank lines are ignored, the edits turn the ids of file 1 into those of file 2, and so its lines into matching ones |
| Verdict.PatchAgrees | github.com/reechou/xdiff/xdiff.go:1919-1965 | with blank lines ignored or not, the edits turn file 1 into lines that agree with file 2 |
| Verdict.VerdictIff | github.com/reechou/xdiff/xdiff.go:1965-1978 | "unchanged" is always given if each line that counts makes the longest match longer, on both sides; never if the files do not agree or some match is longer than one that keeps those lines; and otherwise exactly if the longest match found keeps them |
| Verdict.AlwaysUnchangedIff | github.com/reechou/xdiff/xdiff.go:1352-1358 | on lines: exactly when every longest match shows no change |
| Verdict.NeverUnchangedIff | github.com/reechou/xdiff/xdiff.go:1352-1358 | on lines: exactly when none does |
| Verdict.DecidedByMatch | github.com/reechou/xdiff/xdiff.go:1352-1358 | two files for which it depends on the longest match that is found |
| Verdict.ChangedIff | github.com/reechou/xdiff/xdiff.go:1965-1978 | unless blank lines are ignored, no change is reported exactly if the files match line by line |
| Verdict.BlankLinesCompete | github.com/reechou/xdiff/xdiff.go:1352-1358 | files that agree but for blank lines and are reported as changed whatever longest match is found |
| DiffFile.DiffFile | github.com/reechou/xdiff/xdiff.go:1918-1965 | the whole way from lines to edits: longest match, settled blocks, the exact groups of a complete report, a patch that agrees with file 2, and a verdict judged exactly, with blank lines ignored or not |
| DiffData.DiffOfData | github.com/reechou/xdiff/xdiff.go:1887-1965 | the same from bytes, under the flags: identical, binary, or all that is promised of a diff of the lines |
| SplitLines.SplitTiles | github.com/reechou/xdiff/xdiff.go:1708-1736 | the lines with their endings are the data |
| SplitLines.SplitHasNoBreaks | github.com/reechou/xdiff/xdiff.go:1708-1736 | no line contains a byte 10 or 13 |
| SplitLines.EndOfLine | github.com/reechou/xdiff/xdiff.go:1714-1721 | bytes 13 10, a single 10, and a 13 that no 10 follows each end one line |
| SplitLines.SplitJoin | github.com/reechou/xdiff/xdiff.go:1708-1736 | lines without breaks, joined with line feeds, are split into the same lines |
| SplitLines.SplitStable | github.com/reechou/xdiff/xdiff.go:1708-1736 | joining the lines of any data with line feeds and splitting again gives the same lines |
| SplitLines.FinishSplits | github.com/reechou/xdiff/xdiff.go:1714-1733 | byte by byte, from any point of the data on, the lines are those of the reference |
| SplitLines.HasNulIff | github.com/reechou/xdiff/xdiff.go:1722-1725 | data counts as binary exactly if one of its first 65536 bytes is a NUL |
| SplitLines.SplitData | github.com/reechou/xdiff/xdiff.go:1708-1736 | binary exactly if there is such a NUL, and otherwise the lines of the reference for any mix of endings |
| Render.SplitRunes | github.com/reechou/xdiff/xdiff.go:516-551 | the positions tile the line rune by rune, and each key is that of its rune under the case flags |
| Render.RunesAgree | github.com/reechou/xdiff/xdiff.go:523-545 | ASCII characters have equal keys exactly if they are equal or, with case ignored, the same letter; other runes have the key and size that decoder and table give |
| Render.TokensOfWrite | github.com/reechou/xdiff/xdiff.go:557-580 | HTML that is written token by token is read back as the same tokens |
| Render.SpansOfChanges | github.com/reechou/xdiff/xdiff.go:732-741 | the text of a change stands between the span tag of class chg and its end tag |
| Render.ParseTexts | github.com/reechou/xdiff/xdiff.go:557-580 | undoing the entities of escaped text gives back the text and opens or closes no span |
| Render.WriteHtmlBytes | github.com/reechou/xdiff/xdiff.go:557-580 | exactly the escaped text is appended |
| Render.MarkingIsLine | github.com/reechou/xdiff/xdiff.go:724-742 | what is to be shown is the line itself, every byte with the mark of its rune |
| Render.WriteHtmlLineChange | github.com/reechou/xdiff/xdiff.go:724-742 | read back, the output is balanced and shows exactly the line with exactly the changed runes in spans |
| Render.RenderPair | github.com/reechou/xdiff/xdiff.go:846-859 | both lines are shown in full; what is highlighted is what the pass with the rune scores makes of the marks of the diff, and the rest is a longest common subsequence |
| Render.EdgeScores | github.com/reechou/xdiff/xdiff.go:2168-2190 | a change scores the sum for its first and last character: 100 for space, tab, vertical tab and form feed, 40 for angle, round and square brackets and quotes, 0 for all else |
| Render.WholeTagShown | github.com/reechou/xdiff/xdiff.go:2231-2246 | an inserted tag that the diff marks as `a> <` is shifted to ` <a>` |
| TimingWheel.IndexIsSlot | utils/xman_timewheel.go:61 | the index, where it is not negative, is the place that many steps around the ring, and exactly when it is negative |
| TimingWheel.Truncates | utils/xman_timewheel.go:61 | Go's quotient and remainder belong together, the remainder smaller than the divisor and with the sign of the dividend |
| TimingWheel.StepsPass | utils/xman_timewheel.go:61 | a number of ticks is more than the steps exactly if it is at least one and takes longer than the timeout |
| TimingWheel.StepsBelow | utils/xman_timewheel.go:55-61 | timeouts below the maximum stay within the ring, and truncation makes the steps negative only from minus one interval on |
| TimingWheel.RingTurns | utils/xman_timewheel.go:85-88 | replacing the channel at pos and advancing pos keeps the ring in the order of closing |
| TimingWheel.Wheel.constructor | utils/xman_timewheel.go:28-48 | a ring of open, distinct channels, or an empty one |
| TimingWheel.Wheel.After | utils/xman_timewheel.go:54-68 | for a timeout above minus one interval and below the maximum, the channel that the first tick closes with which more than the timeout has passed; for all timeouts, exactly when it panics and which channel it gives |
| TimingWheel.Wheel.OnTicker | utils/xman_timewheel.go:82-93 | closes exactly the channel whose turn it is, which was open, and adds a new one |
| TimingWheel.Wheel.Run | utils/xman_timewheel.go:54-93 | over any run a channel handed out is closed exactly if at least one tick has followed and the ticks that have take longer than the timeout |
| RequestProxy.TakeKeeps | xman/xman_conn_proxy.go:235-242 | registering or cancelling keeps the invariant unless the number is registered to another caller |
| RequestProxy.ReceiveKeeps | xman/xman_conn_proxy.go:243-255 | delivering or dropping a package keeps it |
| RequestProxy.CancelKeeps | xman/xman_conn_proxy.go:93-96 | a cancel keeps it |
| RequestRuns.RunKeeps | xman/xman_conn_proxy.go:64-98 | every run in which no number is disputed keeps it |
| RequestRuns.WindowSuffices | xman/xman_conn_proxy.go:70 | if fewer than 2^32 requests start while one is live, no number is ever disputed |
| RequestRuns.LossIff | xman/xman_conn_proxy.go:235-240 | exactly when a step loses a waiting caller: the manager takes another caller's message with the number that it is registered under |
| RequestRuns.AnswersAreOwn | xman/xman_conn_proxy.go:88-97 | a caller gets the first package of its own number that arrived after its registration, its channel is sent to at most once, and the manager never blocks on it |
| RequestRuns.NothingIsLost | xman/xman_conn_proxy.go:384-405 | the request of a waiting caller is queued, registered or answered |
| RequestRuns.CanBeAnswered | xman/xman_conn_proxy.go:88-97 | within the window every waiting caller can be answered with any package, by steps of the manager and the server and its own return alone |
| RequestRuns.CanGiveUp | xman/xman_conn_proxy.go:93-96 | every waiting caller can give up, and its cancel is then queued |
| RequestRuns.DrainedIsEmpty | xman/xman_conn_proxy.go:233-257 | when all callers have returned and the queue is empty, the map is empty |
| RequestRuns.LostBeyondWindow | xman/xman_conn_proxy.go:70 | a run beyond the window in which a waiting caller is lost |
| ConnManager.ConnMgr.OnRequest | xman/xman_conn_proxy.go:235-241 | the new map and what is sent on, channels of registered requests staying empty and distinct |
| ConnManager.ConnMgr.OnDatagram | xman/xman_conn_proxy.go:243-255 | exactly the channel of the number gets the package and leaves the map |
| ConnManager.ConnMgr.OnStream | xman/xman_conn_proxy.go:394-404 | the same for several packages, in whatever order they are visited |
| ConfigText.OptionSurvivesIff | config/xman_config.go:351-358 | exactly when an option is read back from the line it is written on |
| ConfigText.NameSurvivesIff | config/xman_config.go:345-349 | exactly when a section name is read back from its header |
| ConfigText.SectionSurvivesIff | config/xman_config.go:340-361 | exactly when a section is read back, keys listed twice included |
| ConfigText.ReadCounts | config/xman_config.go:54-65 | reading adds one section for each header and one option for each option line |
| ConfigText.SavedCounts | config/xman_config.go:108-111 | no more option lines are seen than options were saved, and equally many only if each is seen as one |
| ConfigText.SaveReadIff | config/xman_config.go:108-111 | the sections are read back as they were saved if and only if there is one global section, in front, and each section survives |
| ConfigLines.OptionMeans | config/xman_config.go:391-408 | key and value are what stands before and behind the first `=`, or the first `:` if there is no `=`, without the spaces around; without either the line is the key |
| ConfigLines.TrimCuts | config/xman_config.go:57 | trimming takes away characters of the set at both ends, and all that it can |
| ConfigLines.LineMeans | config/xman_config.go:54-60 | empty lines and lines with # or ; in front say nothing, and a line with [ in front begins an empty section with the trimmed name |
| ConfigLines.OtherLineMeans | config/xman_config.go:60-63 | any other line sets and lists one option of the last section, and leaves all else |
| ConfigLines.LinesEnd | config/xman_config.go:52-54 | a line ends with a line feed, or a carriage return and a line feed, and the last line needs no end |
| ConfigLines.BodyMeans | config/xman_config.go:54-65 | lines without a header extend the last section: of each key the last value counts, all keys are listed in order, other options and sections stay |
| ConfigLines.OptionIsRead | config/xman_config.go:50-71 | after reading a whole file, the section that was active at an option line has that option, unless the key comes again before the next header |
| ConfigLines.GlobalFirst | config/xman_config.go:50 | the first section of every file is called global |
| Grouping.RegroupKeeps | config/xman_config.go:188-218 | going through the sections name by name keeps the order of names and the list of each |
| Grouping.RegroupTotal | config/xman_config.go:188-218 | and loses or repeats nothing, whatever is counted |
| Config.Section.Add | config/xman_config.go:301-312 | the option has the new value, is listed once, and the old value is returned |
| Config.Section.AddOption | config/xman_config.go:379-389 | the key that is read from the line has the value that is read from it, and is listed once more |
| Config.Section.ToString | config/xman_config.go:340-361 | the header and option lines of the section |
| Config.Configuration.AddSection | config/xman_config.go:410-423 | one more section, listed under its name, names in the order of their first sections |
| Config.Configuration.AllSections | config/xman_config.go:184-218 | the sections name by name |
| Config.Read | config/xman_config.go:50-71 | the sections that the lines of the text describe |
| Config.Save | config/xman_config.go:100-111 | the text of all sections, name by name |
| Config.ConfigurationRoundTrip | config/xman_config.go:50-111 | saved and read again, the sections are the same, and the configuration is the same, if and only if the sections survive; duplicate section names included |
| Config.SaveAndRead | config/xman_config.go:50-111 | the same for the two methods, in both directions |

## Left out

- File access, memory mapping, decompression, directories, the job queue and output locks of the diff program.
- HTML and text page layout: headers, legends, tables, line numbers, and the text printers.
- The comparison and hash that follow Unicode case and space tables. For `split_runes` the decoder and the lower-case table are arbitrary functions, except that a rune has at least one byte and at most all that is left.
- The CRC tables: hash functions and hash steps are arbitrary functions, consistent with the comparison where interning needs that. The bucket index is taken modulo the number of buckets, which for powers of two is the bit mask of the source.
- Running time. Only termination is proved, with the bound that the loop of the middle snake search has by the size of `v`.
- Integer widths of Go's `int`: lengths, ids and scores are unbounded. Sequence numbers are modelled modulo 2^32.
- The read-only slices of ids and data are values; the slices that are written are arrays, with windows given by offsets.
- `algorithm_sms` is split into its two passes, and `report_diff`, `shift_boundaries`, `split_runes`, `algorithm_lcs`,
  `compress_equiv_ids` and `expand_change_list` into one method for each part of their loops or branches.
- Interning.EquivTable.Lookup: the head of a bucket and the rest of its chain are scanned by the same loop.
- Shift.ShiftBoundaries: that no block is left to merge is stated for the unscored use only; a scored pass may leave such blocks.
- The blocking of `sendChan`, `recvChan` and a full `reqChan`: queues are unbounded, which only adds runs.
- Dialling, reconnecting, connection status, the connection pool, and the choice among several servers of `chooseRemoteSrv`.
- The packing and unpacking of packages: what arrives is an arbitrary number with an arbitrary package.
- Tickers and the quit channel of the timing wheel; a tick is an event of the run. The product of interval and bucket count does not overflow.
- Locks: each method of the wheel and of a configuration runs as one step.
- Lines longer than the scanner's buffer, on which `Read` returns an error, and errors of the file system.
- `Delete` and `Find` of configurations, which use regular expressions, and the accessors.
