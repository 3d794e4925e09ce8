/** Splitting file data into lines, for any mix of line endings. */
module SplitLines {
  import opened Wrappers
  import opened Interning

  const LF := 10
  const CR := 13
  const BINARY_CHECK_SIZE := 65536

  datatype SplitResult = Binary | Lines(lines: seq<Line>)

  predicate IsBreak(b: int) { b == LF || b == CR }

  /** The position of the first line break, or the length if there is none. */
  function FirstBreak(s: Line): (k: nat)
    ensures k <= |s| && (k < |s| ==> IsBreak(s[k]))
    ensures forall i :: 0 <= i < k ==> !IsBreak(s[i])
  {
    if s == [] || IsBreak(s[0]) then 0 else 1 + FirstBreak(s[1..])
  }

  /** A line feed right after a carriage return belongs to the same ending. */
  function AfterReturn(last: int, s: Line): (r: Line)
  {
    if last == CR && s != [] && s[0] == LF then s[1..] else s
  }

  /** The reference: cut at every line ending, and drop what is empty after the last one. */
  function Split(s: Line): (lines: seq<Line>)
    decreases |s|
  {
    if s == [] then []
    else
      var k := FirstBreak(s);
      if k == |s| then [s] else [s[..k]] + Split(AfterReturn(s[k], s[k + 1..]))
  }

  /** The line ending that begins at k: CR LF, CR or LF. */
  function Ending(s: Line, k: nat): (t: Line)
    requires k < |s| && IsBreak(s[k])
    ensures s == s[..k] + t + AfterReturn(s[k], s[k + 1..]) && (t == [CR, LF] || t == [CR] || t == [LF])
  {
    if s[k] == CR && k + 1 < |s| && s[k + 1] == LF then s[k..k + 2] else s[k..k + 1]
  }

  /** The ending of each line; the last line's may be empty. */
  function Endings(s: Line): (endings: seq<Line>)
    ensures |endings| == |Split(s)|
    decreases |s|
  {
    if s == [] then []
    else
      var k := FirstBreak(s);
      if k == |s| then [[]] else [Ending(s, k)] + Endings(AfterReturn(s[k], s[k + 1..]))
  }

  function Join(lines: seq<Line>, endings: seq<Line>): Line
    requires |lines| == |endings|
  {
    if lines == [] then [] else lines[0] + endings[0] + Join(lines[1..], endings[1..])
  }

  function JoinLf(lines: seq<Line>): Line
  {
    if lines == [] then [] else lines[0] + [LF] + JoinLf(lines[1..])
  }

  predicate NoBreak(line: Line) { forall i :: 0 <= i < |line| ==> !IsBreak(line[i]) }

  lemma JoinNext(line: Line, lines: seq<Line>, ending: Line, endings: seq<Line>)
    requires |lines| == |endings|
    ensures Join([line] + lines, [ending] + endings) == line + ending + Join(lines, endings)
  {
    assert ([line] + lines)[1..] == lines && ([ending] + endings)[1..] == endings;
  }

  /** Nothing is lost or added: the lines with their endings are the data. */
  lemma {:induction false} SplitTiles(s: Line)
    ensures Join(Split(s), Endings(s)) == s
    decreases |s|
  {
    if s != [] {
      var k := FirstBreak(s);
      if k < |s| {
        var rest := AfterReturn(s[k], s[k + 1..]);
        SplitTiles(rest);
        JoinNext(s[..k], Split(rest), Ending(s, k), Endings(rest));
      } else {
        assert s + [] + [] == s;
      }
    }
  }

  lemma {:induction false} SplitHasNoBreaks(s: Line, i: nat)
    requires i < |Split(s)|
    ensures NoBreak(Split(s)[i]) && Plain(Split(s)[i])
    decreases |s|
  {
    var k := FirstBreak(s);
    if k < |s| && i > 0 {
      SplitHasNoBreaks(AfterReturn(s[k], s[k + 1..]), i - 1);
    }
  }

  lemma BreakAt(s: Line, k: nat)
    requires k < |s| && IsBreak(s[k]) && forall i :: 0 <= i < k ==> !IsBreak(s[i])
    ensures FirstBreak(s) == k
  {
  }

  lemma SplitAtBreak(s: Line, k: nat, line: Line, b: int, rest: Line)
    requires k < |s| && IsBreak(s[k]) && forall i :: 0 <= i < k ==> !IsBreak(s[i])
    requires line == s[..k] && b == s[k] && rest == s[k + 1..]
    ensures Split(s) == [line] + Split(AfterReturn(b, rest))
  {
    BreakAt(s, k);
  }

  /** A line of bytes other than line feeds (10) and carriage returns (13). */
  predicate Plain(line: Line) { forall i :: 0 <= i < |line| ==> line[i] != 10 && line[i] != 13 }

  lemma PlainHasNoBreak(x: Line)
    requires Plain(x)
    ensures NoBreak(x)
  {
  }

  lemma ReturnAndFeed(x: Line, y: Line)
    requires NoBreak(x)
    ensures Split(x + [13, 10] + y) == [x] + Split(y)
  {
    assert [13, 10] + y == [13] + ([10] + y);
    Reassociate(x, [13, 10], y);
    Reassociate(x, [13], [10] + y);
    BreakNext(x, 13, [10] + y);
    AfterFeed(y);
  }

  lemma AfterFeed(y: Line)
    ensures AfterReturn(13, [10] + y) == y
  {
  }

  /** A carriage return with a line feed, or either of them alone, ends a line. */
  lemma EndOfLine(x: Line, y: Line)
    requires Plain(x)
    ensures Split(x + [13, 10] + y) == [x] + Split(y)
    ensures Split(x + [10] + y) == [x] + Split(y)
    ensures y == [] || y[0] != 10 ==> Split(x + [13] + y) == [x] + Split(y)
    ensures Split(x) == if x == [] then [] else [x]
  {
    PlainHasNoBreak(x);
    ReturnAndFeed(x, y);
    BreakNext(x, 10, y);
    BreakNext(x, 13, y);
    SplitNoBreak(x);
  }

  /** Any lines without breaks come back when they are joined with LF and split again. */
  lemma {:induction false} SplitJoin(lines: seq<Line>)
    requires forall i :: 0 <= i < |lines| ==> NoBreak(lines[i])
    ensures Split(JoinLf(lines)) == lines
  {
    if lines != [] {
      var rest := JoinLf(lines[1..]);
      var s := lines[0] + [LF] + rest;
      var k := |lines[0]|;
      assert s[..k] == lines[0] && s[k + 1..] == rest;
      SplitAtBreak(s, k, lines[0], LF, rest);
      SplitJoin(lines[1..]);
    }
  }

  /** Splitting is stable: with its endings replaced by LF, the data splits into the same lines. */
  lemma SplitStable(s: Line)
    ensures Split(JoinLf(Split(s))) == Split(s)
  {
    forall i | 0 <= i < |Split(s)|
      ensures NoBreak(Split(s)[i])
    {
      SplitHasNoBreaks(s, i);
    }
    SplitJoin(Split(s));
  }

  /** What becomes of the rest of the data, with `line` begun and `last` the byte before the rest. */
  function Finish(lines: seq<Line>, line: Line, last: int, rest: Line): seq<Line>
    decreases |rest|, 0
  {
    if rest == [] then if line == [] then lines else lines + [line]
    else Next(lines, line, last, rest[0], rest[1..])
  }

  function Next(lines: seq<Line>, line: Line, last: int, b: int, rest: Line): seq<Line>
    decreases |rest|, 1
  {
    if b == LF && last == CR then Finish(lines, [], b, rest)
    else if IsBreak(b) then Finish(lines + [line], [], b, rest)
    else Finish(lines, line + [b], b, rest)
  }

  lemma BreakNext(line: Line, b: int, rest: Line)
    requires NoBreak(line) && IsBreak(b)
    ensures Split(line + [b] + rest) == [line] + Split(AfterReturn(b, rest))
  {
    var s := line + [b] + rest;
    assert s[..|line|] == line && s[|line| + 1..] == rest;
    SplitAtBreak(s, |line|, line, b, rest);
  }

  lemma SplitNoBreak(line: Line)
    requires NoBreak(line)
    ensures Split(line) == if line == [] then [] else [line]
  {
    if line != [] {
      assert FirstBreak(line) == |line|;
    }
  }

  /** Byte by byte, the data is split as the reference says. */
  lemma {:induction false} FinishSplits(lines: seq<Line>, line: Line, last: int, rest: Line)
    requires NoBreak(line) && (last == CR ==> line == [])
    ensures Finish(lines, line, last, rest) == lines + Split(line + AfterReturn(last, rest))
    decreases |rest|, 0
  {
    if rest == [] {
      assert line + rest == line && lines + [] == lines;
      SplitNoBreak(line);
    } else {
      NextSplits(lines, line, last, rest[0], rest[1..]);
      assert rest == [rest[0]] + rest[1..];
    }
  }

  lemma {:induction false} NextSplits(lines: seq<Line>, line: Line, last: int, b: int, rest: Line)
    requires NoBreak(line) && (last == CR ==> line == [])
    ensures Next(lines, line, last, b, rest) == lines + Split(line + AfterReturn(last, [b] + rest))
    decreases |rest|, 1
  {
    NothingBefore(AfterReturn(b, rest));
    if b == LF && last == CR {
      FinishSplits(lines, [], b, rest);
      AfterPair(rest);
    } else if IsBreak(b) {
      FinishSplits(lines + [line], [], b, rest);
      BreakNext(line, b, rest);
      Regroup(lines, line, Split(AfterReturn(b, rest)));
      AfterOther(line, last, b, rest);
    } else {
      FinishSplits(lines, line + [b], b, rest);
      AfterOther(line, last, b, rest);
    }
  }

  lemma AfterPair(rest: Line)
    ensures [] + AfterReturn(CR, [LF] + rest) == AfterReturn(LF, rest)
  {
    assert ([LF] + rest)[1..] == rest;
  }

  lemma AfterOther(line: Line, last: int, b: int, rest: Line)
    requires !(b == LF && last == CR)
    ensures line + AfterReturn(last, [b] + rest) == line + [b] + rest
    ensures !IsBreak(b) ==> line + [b] + AfterReturn(b, rest) == line + [b] + rest
  {
    assert line + ([b] + rest) == line + [b] + rest;
  }

  lemma Regroup(lines: seq<Line>, line: Line, rest: seq<Line>)
    ensures lines + ([line] + rest) == (lines + [line]) + rest
  {
  }

  /** One of the first n bytes is a NUL that counts. */
  predicate HasNul(data: Line, n: nat)
    requires n <= |data|
  {
    n > 0 && (HasNul(data, n - 1) || (n - 1 < BINARY_CHECK_SIZE && data[n - 1] == 0))
  }

  lemma {:induction false} HasNulIff(data: Line, n: nat)
    requires n <= |data|
    ensures HasNul(data, n) <==> exists i :: 0 <= i < n && i < 65536 && data[i] == 0
  {
    if n > 0 {
      HasNulIff(data, n - 1);
    }
  }

  lemma {:induction false} FoundNul(data: Line, i: nat, n: nat)
    requires i < n <= |data| && i < BINARY_CHECK_SIZE && data[i] == 0
    ensures HasNul(data, n)
  {
    if i < n - 1 {
      FoundNul(data, i, n - 1);
    }
  }

  lemma FinishNext(data: Line, lines: seq<Line>, previ: nat, i: nat, last: int)
    requires previ <= i < |data|
    ensures Finish(lines, data[previ..i], last, data[i..]) == Next(lines, data[previ..i], last, data[i], data[i + 1..])
    ensures data[i + 1..i + 1] == [] && data[previ..i + 1] == data[previ..i] + [data[i]]
  {
    assert data[i..][1..] == data[i + 1..];
  }

  /** Binary data has a NUL among its first bytes; any other data is split. */
  method SplitData(data: Line) returns (r: SplitResult)
    ensures r == if HasNul(data, |data|) then Binary else Lines(Split(data))
  {
    var lines: seq<Line> := [];
    var previ, last := 0, 0;
    ghost var result := Finish([], [], 0, data);
    assert data[0..0] == [] && data[0..] == data;
    for i := 0 to |data|
      invariant 0 <= previ <= i && !HasNul(data, i)
      invariant Finish(lines, data[previ..i], last, data[i..]) == result
    {
      var b := data[i];
      FinishNext(data, lines, previ, i, last);
      if b == LF && last == CR {
        previ := i + 1;
      } else if b == LF || b == CR {
        lines := lines + [data[previ..i]];
        previ := i + 1;
      } else if b == 0 && i < BINARY_CHECK_SIZE {
        FoundNul(data, i, |data|);
        return Binary;
      }
      last := b;
    }
    SplitWhole(data);
    assert data[|data|..] == [] && data[previ..|data|] == data[previ..];
    if |data| > previ {
      lines := lines + [data[previ..]];
    }
    r := Lines(lines);
  }

  lemma SplitWhole(data: Line)
    ensures Finish([], [], 0, data) == Split(data)
  {
    FinishSplits([], [], 0, data);
    assert AfterReturn(0, data) == data;
    NothingBefore(data);
    NothingBefore(Split(data));
  }
}
