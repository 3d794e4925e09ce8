/** When two lines count as the same: comparison and hashing under the case and space flags. */
module LineCompare {
  import opened Interning

  datatype Flags = Flags(ignoreCase: bool, ignoreSpaceChange: bool, ignoreAllSpace: bool)

  /** The flags that select the byte versions of comparison and hash. */
  predicate Selected(flags: Flags)
  {
    flags.ignoreCase || flags.ignoreSpaceChange || flags.ignoreAllSpace
  }

  const SPACE := 32

  predicate IsSpace(b: int) { b == 32 || b == 9 || b == 11 || b == 12 }

  function ToLower(b: int): int
  {
    if 65 <= b <= 90 then b - 65 + 97 else b
  }

  function Fold(flags: Flags, b: int): int
  {
    if flags.ignoreCase then ToLower(b) else b
  }

  // ----- The reference: lines are the same if they have the same normal form -----

  function FoldAll(flags: Flags, line: Line): (r: Line)
    ensures |r| == |line|
  {
    if line == [] then [] else [Fold(flags, line[0])] + FoldAll(flags, line[1..])
  }

  function DropSpaces(line: Line): Line
  {
    if line == [] then []
    else if IsSpace(line[0]) then DropSpaces(line[1..])
    else [line[0]] + DropSpaces(line[1..])
  }

  /** The line from its first byte on that is no space. */
  function SkipSpaces(line: Line): (r: Line)
    ensures |r| <= |line|
    ensures r != [] ==> !IsSpace(r[0])
  {
    if line != [] && IsSpace(line[0]) then SkipSpaces(line[1..]) else line
  }

  /** Every run of spaces is one space, except that there is none at the ends. */
  function SqueezeSpaces(line: Line): Line
    decreases |line|
  {
    var t := SkipSpaces(line);
    if t == [] then []
    else
      var rest := SkipSpaces(t[1..]);
      var gap := if rest != [] && rest != t[1..] then [SPACE] else [];
      [t[0]] + gap + SqueezeSpaces(rest)
  }

  function NormalForm(flags: Flags, line: Line): Line
  {
    if flags.ignoreAllSpace then FoldAll(flags, DropSpaces(line))
    else if flags.ignoreSpaceChange then FoldAll(flags, SqueezeSpaces(line))
    else FoldAll(flags, line)
  }

  // ----- Comparison -----

  method SkipSpaceByte(line: Line, start: nat) returns (i: nat)
    requires start <= |line|
    ensures start <= i <= |line| && line[i..] == SkipSpaces(line[start..])
  {
    i := start;
    while i < |line|
      invariant start <= i <= |line| && SkipSpaces(line[i..]) == SkipSpaces(line[start..])
    {
      if !IsSpace(line[i]) {
        return;
      }
      assert line[i..][1..] == line[i + 1..];
      i := i + 1;
    }
  }

  method GetNextByteNonspace(line: Line, i: nat) returns (b: int, next: nat)
    requires i < |line|
    ensures b == line[i] && i < next <= |line| && line[next..] == SkipSpaces(line[i + 1..])
  {
    next := SkipSpaceByte(line, i + 1);
    b := line[i];
  }

  /** The byte at i, whether spaces lie between it and the next one, and where that is. */
  method GetNextByteXspace(line: Line, i: nat) returns (b: int, spaceAfter: bool, next: nat)
    requires i < |line|
    ensures b == line[i] && i < next <= |line| && line[next..] == SkipSpaces(line[i + 1..])
    ensures spaceAfter <==> i + 1 < next < |line|
  {
    b, next, spaceAfter := line[i], i + 1, false;
    while next < |line|
      invariant i < next <= |line| && SkipSpaces(line[next..]) == SkipSpaces(line[i + 1..])
      invariant spaceAfter <==> i + 1 < next
    {
      if !IsSpace(line[next]) {
        break;
      }
      assert line[next..][1..] == line[next + 1..];
      spaceAfter, next := true, next + 1;
    }
    if spaceAfter && next >= |line| {
      spaceAfter := false;
    }
  }

  lemma {:induction false} DropTrimmed(line: Line)
    ensures DropSpaces(SkipSpaces(line)) == DropSpaces(line)
  {
    if line != [] && IsSpace(line[0]) {
      DropTrimmed(line[1..]);
    }
  }

  lemma TrimTwice(line: Line)
    ensures SkipSpaces(SkipSpaces(line)) == SkipSpaces(line)
  {
  }

  lemma {:induction false} FoldConcat(flags: Flags, s: Line, t: Line)
    ensures FoldAll(flags, s + t) == FoldAll(flags, s) + FoldAll(flags, t)
  {
    if s == [] {
      assert s + t == t;
    } else {
      FoldConcat(flags, s[1..], t);
      assert (s + t)[1..] == s[1..] + t;
    }
  }

  /** The normal form of what follows a position that holds no space. */
  function DropForm(flags: Flags, line: Line): Line { FoldAll(flags, DropSpaces(line)) }

  function SqueezeForm(flags: Flags, line: Line): Line { FoldAll(flags, SqueezeSpaces(line)) }

  lemma DropFormStep(flags: Flags, t: Line)
    requires t != [] && !IsSpace(t[0])
    ensures DropForm(flags, t) == [Fold(flags, t[0])] + DropForm(flags, SkipSpaces(t[1..]))
  {
    DropTrimmed(t[1..]);
    assert ([t[0]] + DropSpaces(t[1..]))[1..] == DropSpaces(t[1..]);
  }

  function Gap(t: Line): Line
    requires t != []
  {
    var rest := SkipSpaces(t[1..]);
    if rest != [] && rest != t[1..] then [SPACE] else []
  }

  lemma SqueezeFormStep(flags: Flags, t: Line)
    requires t != [] && !IsSpace(t[0])
    ensures SqueezeForm(flags, t) == [Fold(flags, t[0])] + Gap(t) + SqueezeForm(flags, SkipSpaces(t[1..]))
  {
    var rest := SkipSpaces(t[1..]);
    FoldConcat(flags, [t[0]] + Gap(t), SqueezeSpaces(rest));
    FoldConcat(flags, [t[0]], Gap(t));
    assert FoldAll(flags, Gap(t)) == Gap(t);
    assert FoldAll(flags, [t[0]]) == [Fold(flags, t[0])];
  }

  lemma SqueezeFormFirst(flags: Flags, line: Line)
    requires line != [] && !IsSpace(line[0])
    ensures SqueezeForm(flags, line) != [] && SqueezeForm(flags, line)[0] != SPACE
  {
    SqueezeFormStep(flags, line);
  }

  lemma EqualTails(x: int, y: int, s: Line, t: Line)
    ensures [x] + s == [y] + t <==> x == y && s == t
  {
    assert ([x] + s)[1..] == s && ([y] + t)[1..] == t;
    assert ([x] + s)[0] == x && ([y] + t)[0] == y;
  }

  /** Normal forms agree exactly if the first bytes agree, a space follows both or neither, and the rests
      agree. */
  lemma SqueezeFormsAgree(flags: Flags, t1: Line, t2: Line)
    requires t1 != [] && !IsSpace(t1[0]) && t2 != [] && !IsSpace(t2[0])
    ensures SqueezeForm(flags, t1) == SqueezeForm(flags, t2) <==>
            && Fold(flags, t1[0]) == Fold(flags, t2[0]) && (Gap(t1) == [] <==> Gap(t2) == [])
            && SqueezeForm(flags, SkipSpaces(t1[1..])) == SqueezeForm(flags, SkipSpaces(t2[1..]))
  {
    var f1, f2 := SqueezeForm(flags, SkipSpaces(t1[1..])), SqueezeForm(flags, SkipSpaces(t2[1..]));
    SqueezeFormStep(flags, t1);
    SqueezeFormStep(flags, t2);
    assert SqueezeForm(flags, t1) == [Fold(flags, t1[0])] + (Gap(t1) + f1);
    assert SqueezeForm(flags, t2) == [Fold(flags, t2[0])] + (Gap(t2) + f2);
    EqualTails(Fold(flags, t1[0]), Fold(flags, t2[0]), Gap(t1) + f1, Gap(t2) + f2);
    if SkipSpaces(t1[1..]) != [] {
      SqueezeFormFirst(flags, SkipSpaces(t1[1..]));
    }
    if SkipSpaces(t2[1..]) != [] {
      SqueezeFormFirst(flags, SkipSpaces(t2[1..]));
    }
    GapsAgree(Gap(t1), f1, Gap(t2), f2);
  }

  lemma GapsAgree(g1: Line, f1: Line, g2: Line, f2: Line)
    requires (g1 == [] || g1 == [SPACE]) && (g2 == [] || g2 == [SPACE])
    requires (f1 != [] ==> f1[0] != SPACE) && (f2 != [] ==> f2[0] != SPACE)
    ensures g1 + f1 == g2 + f2 <==> (g1 == [] <==> g2 == []) && f1 == f2
  {
    assert [] + f1 == f1 && [] + f2 == f2;
    EqualTails(SPACE, SPACE, f1, f2);
  }

  method CompareLineBytes(flags: Flags, line1: Line, line2: Line) returns (same: bool)
    requires Selected(flags)
    ensures same <==> NormalForm(flags, line1) == NormalForm(flags, line2)
  {
    if flags.ignoreAllSpace {
      same := CompareDropped(flags, line1, line2);
    } else if flags.ignoreSpaceChange {
      same := CompareSqueezed(flags, line1, line2);
    } else {
      same := CompareFolded(flags, line1, line2);
    }
  }

  method CompareDropped(flags: Flags, line1: Line, line2: Line) returns (same: bool)
    ensures same <==> DropForm(flags, line1) == DropForm(flags, line2)
  {
    var len1, len2 := |line1|, |line2|;
    var i := SkipSpaceByte(line1, 0);
    var j := SkipSpaceByte(line2, 0);
    assert line1[0..] == line1 && line2[0..] == line2;
    DropTrimmed(line1);
    DropTrimmed(line2);
    while i < len1 && j < len2
      invariant i <= len1 && j <= len2 && SkipSpaces(line1[i..]) == line1[i..] && SkipSpaces(line2[j..]) == line2[j..]
      invariant DropForm(flags, line1) == DropForm(flags, line2) <==>
                DropForm(flags, line1[i..]) == DropForm(flags, line2[j..])
      decreases len1 - i
    {
      DropFormStep(flags, line1[i..]);
      DropFormStep(flags, line2[j..]);
      assert line1[i..][1..] == line1[i + 1..] && line2[j..][1..] == line2[j + 1..];
      TrimTwice(line1[i + 1..]);
      TrimTwice(line2[j + 1..]);
      EqualTails(Fold(flags, line1[i]), Fold(flags, line2[j]),
                 DropForm(flags, SkipSpaces(line1[i + 1..])), DropForm(flags, SkipSpaces(line2[j + 1..])));
      var v1, v2;
      v1, i := GetNextByteNonspace(line1, i);
      v2, j := GetNextByteNonspace(line2, j);
      if flags.ignoreCase && v1 != v2 {
        v1, v2 := ToLower(v1), ToLower(v2);
      }
      if v1 != v2 {
        return false;
      }
    }
    same := !(i < len1 || j < len2);
  }

  method CompareSqueezed(flags: Flags, line1: Line, line2: Line) returns (same: bool)
    ensures same <==> SqueezeForm(flags, line1) == SqueezeForm(flags, line2)
  {
    var len1, len2 := |line1|, |line2|;
    var i := SkipSpaceByte(line1, 0);
    var j := SkipSpaceByte(line2, 0);
    assert line1[0..] == line1 && line2[0..] == line2;
    TrimTwice(line1);
    TrimTwice(line2);
    while i < len1 && j < len2
      invariant i <= len1 && j <= len2 && SkipSpaces(line1[i..]) == line1[i..] && SkipSpaces(line2[j..]) == line2[j..]
      invariant SqueezeForm(flags, line1) == SqueezeForm(flags, line2) <==>
                SqueezeForm(flags, line1[i..]) == SqueezeForm(flags, line2[j..])
      decreases len1 - i
    {
      SqueezeFormsAgree(flags, line1[i..], line2[j..]);
      assert line1[i..][1..] == line1[i + 1..] && line2[j..][1..] == line2[j + 1..];
      TrimTwice(line1[i + 1..]);
      TrimTwice(line2[j + 1..]);
      var v1, v2, spaceAfter1, spaceAfter2;
      v1, spaceAfter1, i := GetNextByteXspace(line1, i);
      v2, spaceAfter2, j := GetNextByteXspace(line2, j);
      if flags.ignoreCase && v1 != v2 {
        v1, v2 := ToLower(v1), ToLower(v2);
      }
      if v1 != v2 || spaceAfter1 != spaceAfter2 {
        return false;
      }
    }
    if i < len1 {
      SqueezeFormFirst(flags, line1[i..]);
    }
    if j < len2 {
      SqueezeFormFirst(flags, line2[j..]);
    }
    same := !(i < len1 || j < len2);
  }

  method CompareFolded(flags: Flags, line1: Line, line2: Line) returns (same: bool)
    requires flags.ignoreCase
    ensures same <==> FoldAll(flags, line1) == FoldAll(flags, line2)
  {
    if |line1| != |line2| {
      return false;
    }
    var i, j := 0, 0;
    while i < |line1| && j < |line2|
      invariant i == j <= |line1|
      invariant FoldAll(flags, line1) == FoldAll(flags, line2) <==>
                FoldAll(flags, line1[i..]) == FoldAll(flags, line2[j..])
    {
      EqualTails(ToLower(line1[i]), ToLower(line2[j]), FoldAll(flags, line1[i + 1..]), FoldAll(flags, line2[j + 1..]));
      assert line1[i..][1..] == line1[i + 1..] && line2[j..][1..] == line2[j + 1..];
      if ToLower(line1[i]) != ToLower(line2[j]) {
        return false;
      }
      i, j := i + 1, j + 1;
    }
    same := true;
  }

  // ----- Hashing -----

  /** The byte-wise hash of a whole sequence, for any step function. */
  function HashOf(step: (nat, int) -> nat, s: Line): nat
  {
    if s == [] then 0 else step(HashOf(step, s[..|s| - 1]), s[|s| - 1])
  }

  lemma HashAppend(step: (nat, int) -> nat, s: Line, b: int)
    ensures HashOf(step, s + [b]) == step(HashOf(step, s), b)
  {
    assert (s + [b])[..|s|] == s;
  }

  lemma {:induction false} DropAppend(s: Line, b: int)
    ensures DropSpaces(s + [b]) == DropSpaces(s) + if IsSpace(b) then [] else [b]
  {
    if s == [] {
      assert s + [b] == [b] && [b][1..] == [];
    } else {
      DropAppend(s[1..], b);
      assert (s + [b])[1..] == s[1..] + [b];
    }
  }

  lemma {:induction false} TrimAppend(s: Line, b: int)
    ensures SkipSpaces(s + [b]) == if SkipSpaces(s) != [] then SkipSpaces(s) + [b] else if IsSpace(b) then [] else [b]
  {
    if s == [] {
      assert s + [b] == [b] && [b][1..] == [];
    } else {
      TrimAppend(s[1..], b);
      assert (s + [b])[1..] == s[1..] + [b];
    }
  }

  lemma {:induction false} TrimEmpty(s: Line)
    ensures SkipSpaces(s) == [] <==> SqueezeSpaces(s) == []
    ensures SkipSpaces(s) == [] && s != [] ==> IsSpace(s[|s| - 1])
    ensures SkipSpaces(s) != [] ==> SkipSpaces(s)[|SkipSpaces(s)| - 1] == s[|s| - 1]
    ensures SkipSpaces(s) != s ==> s != [] && IsSpace(s[0])
  {
    if s != [] && IsSpace(s[0]) {
      TrimEmpty(s[1..]);
    }
  }

  /** How one more byte changes the squeezed line: a space shows only once another byte follows it. */
  predicate ExtendedBy(s: Line, b: int)
  {
    SqueezeSpaces(s + [b]) ==
      if IsSpace(b) then SqueezeSpaces(s)
      else SqueezeSpaces(s) + (if SqueezeSpaces(s) != [] && IsSpace(s[|s| - 1]) then [SPACE] else []) + [b]
  }

  lemma LastKept(s: Line, t: Line, rest: Line)
    requires t == SkipSpaces(s) && t != [] && rest == SkipSpaces(t[1..]) && rest != []
    ensures s != [] && rest[|rest| - 1] == s[|s| - 1] && SqueezeSpaces(rest) != [] && SqueezeSpaces(s) != []
  {
    TrimEmpty(s);
    TrimEmpty(t[1..]);
    TrimEmpty(rest);
    TrimTwice(t[1..]);
  }

  lemma ReassociateParts(first: Line, gap: Line, form: Line, space: Line, b: Line)
    ensures first + gap + (form + space + b) == first + gap + form + space + b
  {
  }

  lemma TrimmedAppend(s: Line, b: int, t: Line, rest: Line)
    requires t == SkipSpaces(s) && t != [] && rest == SkipSpaces(t[1..]) && rest != []
    ensures SkipSpaces(s + [b]) == t + [b] && SkipSpaces((t + [b])[1..]) == rest + [b]
    ensures (t + [b])[0] == t[0] && (rest + [b] == (t + [b])[1..] <==> rest == t[1..])
  {
    TrimAppend(s, b);
    TrimAppend(t[1..], b);
    assert (t + [b])[1..] == t[1..] + [b];
    assert (rest + [b])[..|rest|] == rest && (t[1..] + [b])[..|t| - 1] == t[1..];
  }

  lemma ExtendMore(s: Line, b: int, t: Line, rest: Line)
    requires t == SkipSpaces(s) && t != [] && rest == SkipSpaces(t[1..]) && rest != [] && ExtendedBy(rest, b)
    ensures ExtendedBy(s, b)
  {
    TrimmedAppend(s, b, t, rest);
    SqueezeStep(s, t, rest);
    SqueezeStep(s + [b], t + [b], rest + [b]);
    LastKept(s, t, rest);
    var gap := if rest != t[1..] then [SPACE] else [];
    ReassociateParts([t[0]], gap, SqueezeSpaces(rest), if IsSpace(s[|s| - 1]) then [SPACE] else [], [b]);
  }

  lemma ExtendLast(s: Line, b: int, t: Line)
    requires t == SkipSpaces(s) && t != [] && SkipSpaces(t[1..]) == []
    ensures ExtendedBy(s, b)
  {
    TrimAppend(s, b);
    TrimAppend(t[1..], b);
    assert (t + [b])[1..] == t[1..] + [b];
    SqueezeStep(s, t, []);
    TrimEmpty(s);
    TrimEmpty(t[1..]);
    if IsSpace(b) {
      SqueezeStep(s + [b], t + [b], []);
    } else {
      SqueezeStep(s + [b], t + [b], [b]);
      assert SqueezeSpaces([b]) == [b] by {
        SqueezeStep([b], [b], []);
      }
      assert t[1..] == [] ==> s[|s| - 1] == t[0];
    }
  }

  lemma {:induction false} SqueezeAppend(s: Line, b: int)
    ensures ExtendedBy(s, b)
    decreases |s|
  {
    var t := SkipSpaces(s);
    if t == [] {
      TrimAppend(s, b);
      TrimEmpty(s);
      assert [b][1..] == [];
    } else {
      var rest := SkipSpaces(t[1..]);
      if rest == [] {
        ExtendLast(s, b, t);
      } else {
        SqueezeAppend(rest, b);
        ExtendMore(s, b, t, rest);
      }
    }
  }

  lemma SqueezeStep(s: Line, t: Line, rest: Line)
    requires t == SkipSpaces(s) && t != [] && rest == SkipSpaces(t[1..])
    ensures SqueezeSpaces(s) == [t[0]] + (if rest != [] && rest != t[1..] then [SPACE] else []) + SqueezeSpaces(rest)
  {
  }

  lemma FoldAppend(flags: Flags, s: Line, b: int)
    ensures FoldAll(flags, s + [b]) == FoldAll(flags, s) + [Fold(flags, b)]
  {
    FoldConcat(flags, s, [b]);
    assert FoldAll(flags, [b]) == [Fold(flags, b)];
  }

  method ComputeHashBytes(flags: Flags, line: Line, step: (nat, int) -> nat) returns (hash: nat)
    requires Selected(flags)
    ensures hash == HashOf(step, NormalForm(flags, line))
  {
    if flags.ignoreAllSpace {
      hash := HashDropped(flags, line, step);
    } else if flags.ignoreSpaceChange {
      hash := HashSqueezed(flags, line, step);
    } else {
      hash := HashFolded(flags, line, step);
    }
  }

  method HashDropped(flags: Flags, line: Line, step: (nat, int) -> nat) returns (hash: nat)
    ensures hash == HashOf(step, DropForm(flags, line))
  {
    hash := 0;
    for k := 0 to |line|
      invariant hash == HashOf(step, DropForm(flags, line[..k]))
    {
      var v1 := line[k];
      assert line[..k + 1] == line[..k] + [v1];
      DropAppend(line[..k], v1);
      if !IsSpace(v1) {
        FoldAppend(flags, DropSpaces(line[..k]), v1);
        HashAppend(step, DropForm(flags, line[..k]), Fold(flags, v1));
        if flags.ignoreCase {
          v1 := ToLower(v1);
        }
        hash := step(hash, v1);
      } else {
        assert DropSpaces(line[..k]) + [] == DropSpaces(line[..k]);
      }
    }
    assert line[..|line|] == line;
  }

  /** While the last bytes are spaces, `hash` already counts one of them and `lastHash` does not; the
      rollback at the end forgets trailing spaces. */
  ghost predicate SqueezedState(step: (nat, int) -> nat, form: Line, hash: nat, lastHash: nat, lastSpace: bool)
  {
    if !lastSpace then form != [] && hash == HashOf(step, form)
    else lastHash == HashOf(step, form) && hash == if form == [] then 0 else HashOf(step, form + [SPACE])
  }

  lemma SqueezedNext(flags: Flags, s: Line, b: int)
    ensures var f := SqueezeForm(flags, s);
            SqueezeForm(flags, s + [b]) ==
            if IsSpace(b) then f
            else f + (if f != [] && IsSpace(s[|s| - 1]) then [SPACE] else []) + [Fold(flags, b)]
  {
    SqueezeAppend(s, b);
    if !IsSpace(b) {
      var q := SqueezeSpaces(s);
      FoldAppend(flags, q, SPACE);
      FoldAppend(flags, q + [SPACE], b);
      FoldAppend(flags, q, b);
      assert q + [] + [b] == q + [b] && FoldAll(flags, q) + [] == FoldAll(flags, q);
    }
  }

  /** What the loop does with one byte keeps the state. */
  lemma SqueezedStateNext(flags: Flags, s: Line, b: int, step: (nat, int) -> nat,
                          hash: nat, lastHash: nat, lastSpace: bool, hash': nat, lastHash': nat)
    requires SqueezedState(step, SqueezeForm(flags, s), hash, lastHash, lastSpace)
    requires lastSpace <==> s == [] || IsSpace(s[|s| - 1])
    requires if !IsSpace(b) then hash' == step(hash, Fold(flags, b))
             else if lastSpace then hash' == hash && lastHash' == lastHash
             else hash' == step(hash, SPACE) && lastHash' == hash
    ensures SqueezedState(step, SqueezeForm(flags, s + [b]), hash', lastHash', IsSpace(b))
  {
    var f := SqueezeForm(flags, s);
    SqueezedNext(flags, s, b);
    HashAppend(step, f, SPACE);
    HashAppend(step, f, Fold(flags, b));
    HashAppend(step, f + [SPACE], Fold(flags, b));
    assert f + [] == f;
  }

  method HashSqueezed(flags: Flags, line: Line, step: (nat, int) -> nat) returns (hash: nat)
    ensures hash == HashOf(step, SqueezeForm(flags, line))
  {
    hash := 0;
    var lastHash, lastSpace := hash, true;
    for k := 0 to |line|
      invariant lastSpace <==> k == 0 || IsSpace(line[k - 1])
      invariant SqueezedState(step, SqueezeForm(flags, line[..k]), hash, lastHash, lastSpace)
    {
      var v1 := line[k];
      ghost var hash0, lastHash0, lastSpace0 := hash, lastHash, lastSpace;
      if IsSpace(v1) {
        if !lastSpace {
          lastHash := hash;
          hash := step(hash, SPACE);
        }
        lastSpace := true;
      } else {
        if flags.ignoreCase {
          v1 := ToLower(v1);
        }
        hash := step(hash, v1);
        lastSpace := false;
      }
      SqueezedStateNext(flags, line[..k], line[k], step, hash0, lastHash0, lastSpace0, hash, lastHash);
      assert line[..k + 1] == line[..k] + [line[k]];
    }
    assert line[..|line|] == line;
    if lastSpace {
      hash := lastHash;
    }
  }

  method HashFolded(flags: Flags, line: Line, step: (nat, int) -> nat) returns (hash: nat)
    requires flags.ignoreCase
    ensures hash == HashOf(step, FoldAll(flags, line))
  {
    hash := 0;
    for k := 0 to |line|
      invariant hash == HashOf(step, FoldAll(flags, line[..k]))
    {
      var v1 := ToLower(line[k]);
      assert line[..k + 1] == line[..k] + [line[k]];
      FoldAppend(flags, line[..k], line[k]);
      HashAppend(step, FoldAll(flags, line[..k]), v1);
      hash := step(hash, v1);
    }
    assert line[..|line|] == line;
  }

  // ----- What interning needs of a comparison and its hash -----

  /** What CompareLineBytes decides and ComputeHashBytes computes. */
  function SameForm(flags: Flags): (Line, Line) -> bool
  {
    (x, y) => NormalForm(flags, x) == NormalForm(flags, y)
  }

  function FormHash(flags: Flags, step: (nat, int) -> nat): Line -> nat
  {
    line => HashOf(step, NormalForm(flags, line))
  }

  /** Comparison is an equivalence, and equivalent lines hash equally, whatever the hash step. */
  lemma FormsAreConsistent(flags: Flags, step: (nat, int) -> nat)
    ensures Equivalence(SameForm(flags)) && Consistent(SameForm(flags), FormHash(flags, step))
  {
  }

  /** A normal form is its own normal form. */
  lemma NormalFormTwice(flags: Flags, line: Line)
    ensures NormalForm(flags, NormalForm(flags, line)) == NormalForm(flags, line)
  {
    if flags.ignoreAllSpace {
      DropFormTwice(flags, line);
    } else if flags.ignoreSpaceChange {
      SqueezeFormTwice(flags, line);
    } else {
      FoldTwice(flags, line);
    }
  }

  lemma {:induction false} FoldTwice(flags: Flags, s: Line)
    ensures FoldAll(flags, FoldAll(flags, s)) == FoldAll(flags, s)
  {
    if s != [] {
      FoldTwice(flags, s[1..]);
      var r := FoldAll(flags, s[1..]);
      assert ([Fold(flags, s[0])] + r)[1..] == r;
    }
  }

  lemma {:induction false} DropFormTwice(flags: Flags, s: Line)
    ensures DropForm(flags, DropForm(flags, s)) == DropForm(flags, s)
  {
    if s != [] {
      DropFormTwice(flags, s[1..]);
      if !IsSpace(s[0]) {
        var r := DropSpaces(s[1..]);
        assert ([s[0]] + r)[1..] == r;
        var f := DropForm(flags, s[1..]);
        assert DropForm(flags, s) == [Fold(flags, s[0])] + f;
        assert ([Fold(flags, s[0])] + f)[1..] == f;
        var g := DropSpaces(f);
        assert ([Fold(flags, s[0])] + g)[1..] == g;
      }
    }
  }

  /** A byte, at most one space, and a form that begins with no space. */
  lemma FormOfParts(flags: Flags, b: int, g: Line, f: Line)
    requires !IsSpace(b) && Fold(flags, b) == b && (g == [] || (g == [SPACE] && f != []))
    requires f == SkipSpaces(f) && SqueezeForm(flags, f) == f
    ensures SqueezeForm(flags, [b] + g + f) == [b] + g + f
  {
    var whole := [b] + g + f;
    assert whole[1..] == g + f;
    assert g == [] ==> g + f == f;
    assert g != [] ==> (g + f)[0] == SPACE && (g + f)[1..] == f;
    SqueezeFormStep(flags, whole);
  }

  lemma {:induction false} SqueezeFormTwice(flags: Flags, s: Line)
    ensures SqueezeForm(flags, SqueezeForm(flags, s)) == SqueezeForm(flags, s)
    decreases |s|
  {
    var t := SkipSpaces(s);
    if t != [] {
      var rest := SkipSpaces(t[1..]);
      var f := SqueezeForm(flags, rest);
      SqueezeFormTwice(flags, rest);
      TrimTwice(s);
      SqueezeFormStep(flags, t);
      if rest != [] {
        FormStartsPlain(flags, rest);
      }
      FormOfParts(flags, Fold(flags, t[0]), Gap(t), f);
      SameAfterTrim(flags, s);
    }
  }

  lemma SameAfterTrim(flags: Flags, s: Line)
    ensures SqueezeForm(flags, SkipSpaces(s)) == SqueezeForm(flags, s)
  {
    TrimTwice(s);
  }

  lemma FormStartsPlain(flags: Flags, line: Line)
    requires line != [] && !IsSpace(line[0])
    ensures SqueezeForm(flags, line) != [] && !IsSpace(SqueezeForm(flags, line)[0])
  {
    SqueezeFormStep(flags, line);
  }
}
