/** What it means for lines to be the same, told in bytes: upper and lower case, and where spaces count. */
module SameLines {
  import opened Wrappers
  import opened Interning
  import opened LineCompare

  // ----- Case -----

  /** Equal bytes, or the same letter in upper and lower case. */
  predicate SameLetter(x: int, y: int)
  {
    x == y || (65 <= x <= 90 && y == x + 32) || (65 <= y <= 90 && x == y + 32)
  }

  predicate SameLetters(s: Line, t: Line)
  {
    |s| == |t| && forall i :: 0 <= i < |s| ==> SameLetter(s[i], t[i])
  }

  lemma {:induction false} FoldAllAt(flags: Flags, s: Line, i: nat)
    requires i < |s|
    ensures FoldAll(flags, s)[i] == Fold(flags, s[i])
  {
    if i > 0 {
      FoldAllAt(flags, s[1..], i - 1);
    }
  }

  lemma FoldsAgree(flags: Flags, s: Line, t: Line)
    requires flags.ignoreCase
    ensures FoldAll(flags, s) == FoldAll(flags, t) <==> SameLetters(s, t)
  {
    if |s| == |t| {
      forall i | 0 <= i < |s|
        ensures FoldAll(flags, s)[i] == FoldAll(flags, t)[i] <==> SameLetter(s[i], t[i])
      {
        FoldAllAt(flags, s, i);
        FoldAllAt(flags, t, i);
      }
    }
  }

  lemma {:induction false} FoldNothing(flags: Flags, line: Line)
    requires !flags.ignoreCase
    ensures FoldAll(flags, line) == line
  {
    if line != [] {
      FoldNothing(flags, line[1..]);
    }
  }

  /**
    * Ignoring case, two lines are the same exactly if their bytes agree one by one up to the case of
    * letters; with a space flag too, that is so for what the flag leaves of the lines.
    */
  lemma CaseIgnoredIff(flags: Flags, x: Line, y: Line)
    requires flags.ignoreCase
    ensures SameForm(flags)(x, y) <==>
            SameLetters(NormalForm(flags.(ignoreCase := false), x), NormalForm(flags.(ignoreCase := false), y))
    ensures !flags.ignoreSpaceChange && !flags.ignoreAllSpace ==> (SameForm(flags)(x, y) <==> SameLetters(x, y))
  {
    var plain := flags.(ignoreCase := false);
    var s := if flags.ignoreAllSpace then DropSpaces(x) else if flags.ignoreSpaceChange then SqueezeSpaces(x) else x;
    var t := if flags.ignoreAllSpace then DropSpaces(y) else if flags.ignoreSpaceChange then SqueezeSpaces(y) else y;
    FoldNothing(plain, s);
    FoldNothing(plain, t);
    FoldsAgree(flags, s, t);
  }

  /** Without flags, the same form means the same bytes. */
  lemma NoFlagsMeansEqual(flags: Flags, x: Line, y: Line)
    requires !Selected(flags)
    ensures SameForm(flags)(x, y) <==> x == y
  {
    FoldNothing(flags, x);
    FoldNothing(flags, y);
  }

  // ----- All space ignored -----

  /** A space, tab, vertical tab or form feed. */
  predicate Blank(b: int) { b == 32 || b == 9 || b == 11 || b == 12 }

  predicate Blanks(s: Line) { forall i :: 0 <= i < |s| ==> Blank(s[i]) }

  lemma {:induction false} DropConcat(s: Line, t: Line)
    ensures DropSpaces(s + t) == DropSpaces(s) + DropSpaces(t)
  {
    if s == [] {
      assert s + t == t;
    } else {
      DropConcat(s[1..], t);
      assert (s + t)[1..] == s[1..] + t;
    }
  }

  lemma {:induction false} FoldLength(flags: Flags, s: Line)
    ensures |FoldAll(flags, s)| == |s|
  {
    if s != [] {
      FoldLength(flags, s[1..]);
    }
  }

  /** Ignoring all space, a byte can be put in anywhere exactly if it is one of the four space bytes. */
  lemma InsertedIff(flags: Flags, s: Line, b: int, t: Line)
    requires flags.ignoreAllSpace
    ensures SameForm(flags)(s + [b] + t, s + t) <==> Blank(b)
  {
    DropConcat(s + [b], t);
    DropConcat(s, t);
    DropAppend(s, b);
    if IsSpace(b) {
      assert DropSpaces(s) + [] == DropSpaces(s);
    }
    FoldLength(flags, DropSpaces(s + [b] + t));
    FoldLength(flags, DropSpaces(s + t));
  }

  /** Lines without space bytes are compared as they are. */
  lemma {:induction false} DropNothing(s: Line)
    requires forall i :: 0 <= i < |s| ==> !Blank(s[i])
    ensures DropSpaces(s) == s
  {
    if s != [] {
      assert !Blank(s[0]);
      DropNothing(s[1..]);
    }
  }

  lemma SpacelessAsTheyAre(flags: Flags, x: Line, y: Line)
    requires flags.ignoreAllSpace && !flags.ignoreCase
    requires forall i :: 0 <= i < |x| ==> !Blank(x[i])
    requires forall i :: 0 <= i < |y| ==> !Blank(y[i])
    ensures SameForm(flags)(x, y) <==> x == y
  {
    DropNothing(x);
    DropNothing(y);
    FoldNothing(flags, x);
    FoldNothing(flags, y);
  }

  // ----- Changes of space ignored -----

  predicate EndsBlank(s: Line) { s != [] && IsSpace(s[|s| - 1]) }

  /** What one more byte adds to what is squeezed; `gap` says that blanks come before it. */
  function More(gap: bool, b: int): Line
  {
    if IsSpace(b) then [] else if gap then [SPACE, b] else [b]
  }

  lemma SqueezeMore(s: Line, b: int, q: Line)
    requires q == SqueezeSpaces(s)
    ensures SqueezeSpaces(s + [b]) == q + More(q != [] && EndsBlank(s), b)
  {
    SqueezeAppend(s, b);
    var gap := if q != [] && EndsBlank(s) then [SPACE] else [];
    TrimEmpty(s);
    assert q + [] == q && q + gap + [b] == q + (gap + [b]);
  }

  /** Whatever follows, it is squeezed in the same way. */
  predicate SameStart(u: Line, v: Line)
  {
    SqueezeSpaces(u) == SqueezeSpaces(v) && (SqueezeSpaces(u) == [] || (EndsBlank(u) <==> EndsBlank(v)))
  }

  lemma SameStartNext(u: Line, v: Line, b: int)
    requires SameStart(u, v)
    ensures SameStart(u + [b], v + [b])
  {
    SqueezeMore(u, b, SqueezeSpaces(u));
    SqueezeMore(v, b, SqueezeSpaces(v));
  }

  lemma {:induction false} SameStartGoesOn(u: Line, v: Line, t: Line)
    requires SameStart(u, v)
    ensures SameStart(u + t, v + t)
  {
    if t == [] {
      assert u + t == u && v + t == v;
    } else {
      var init, b := t[..|t| - 1], t[|t| - 1];
      SameStartGoesOn(u, v, init);
      SameStartNext(u + init, v + init, b);
      assert u + t == u + init + [b] && v + t == v + init + [b];
    }
  }

  /** Blanks at the end of a start do not show, and how many there are does not matter. */
  lemma {:induction false} BlanksBehind(s: Line, r: Line)
    requires Blanks(r)
    ensures SqueezeSpaces(s + r) == SqueezeSpaces(s) && (r != [] ==> EndsBlank(s + r))
  {
    if r == [] {
      assert s + r == s;
    } else {
      var init, b := r[..|r| - 1], r[|r| - 1];
      assert Blank(b) && s + r == s + init + [b];
      BlanksBehind(s, init);
      SqueezeMore(s + init, b, SqueezeSpaces(s));
    }
  }

  /** Where there are blanks, there can be any other ones. */
  lemma BlanksExchanged(flags: Flags, s: Line, r: Line, r': Line, t: Line)
    requires flags.ignoreSpaceChange && !flags.ignoreAllSpace
    requires Blanks(r) && Blanks(r') && r != [] && r' != []
    ensures SameForm(flags)(s + r + t, s + r' + t)
  {
    BlanksBehind(s, r);
    BlanksBehind(s, r');
    SameStartGoesOn(s + r, s + r', t);
  }

  /** Blanks at the ends of a line do not matter. */
  lemma BlanksAtEnds(flags: Flags, r: Line, s: Line, r': Line)
    requires flags.ignoreSpaceChange && !flags.ignoreAllSpace && Blanks(r) && Blanks(r')
    ensures SameForm(flags)(r + s + r', s)
  {
    BlanksBehind([], r);
    assert [] + r == r && [] + s == s;
    SameStartGoesOn(r, [], s);
    BlanksBehind(r + s, r');
  }

  /** Two starts that show something and end alike are continued in the same way. */
  lemma {:induction false} Continued(u: Line, v: Line, t: Line, p: Line, q: Line) returns (w: Line)
    requires p == SqueezeSpaces(u) && q == SqueezeSpaces(v) && p != [] && q != [] && (EndsBlank(u) <==> EndsBlank(v))
    ensures SqueezeSpaces(u + t) == p + w && SqueezeSpaces(v + t) == q + w
    ensures EndsBlank(u + t) <==> EndsBlank(v + t)
  {
    if t == [] {
      assert u + t == u && v + t == v;
      w := [];
    } else {
      var init, b := t[..|t| - 1], t[|t| - 1];
      var w0 := Continued(u, v, init, p, q);
      assert u + t == u + init + [b] && v + t == v + init + [b];
      SqueezeMore(u + init, b, p + w0);
      SqueezeMore(v + init, b, q + w0);
      var more := More(EndsBlank(u + init), b);
      w := w0 + more;
      Reassociate(p, w0, more);
      Reassociate(q, w0, more);
    }
  }

  lemma OneMore(s: Line, r: Line, b: int, p: Line, q: Line)
    requires s != [] && !EndsBlank(s) && Blanks(r) && r != [] && !Blank(b)
    requires p == SqueezeSpaces(s + r + [b]) && q == SqueezeSpaces(s + [b])
    ensures |p| == |q| + 1 && q != []
  {
    var shown := SqueezeSpaces(s);
    BlanksBehind(s, r);
    TrimEmpty(s);
    SqueezeMore(s + r, b, shown);
    SqueezeMore(s, b, shown);
  }

  /** Between two other bytes, blanks are not the same as none. */
  lemma BlanksNeeded(flags: Flags, s: Line, r: Line, t: Line)
    requires flags.ignoreSpaceChange && !flags.ignoreAllSpace
    requires s != [] && !Blank(s[|s| - 1]) && Blanks(r) && r != [] && t != [] && !Blank(t[0])
    ensures !SameForm(flags)(s + r + t, s + t)
  {
    var u, v := s + r + [t[0]], s + [t[0]];
    var p, q := SqueezeSpaces(u), SqueezeSpaces(v);
    OneMore(s, r, t[0], p, q);
    var w := Continued(u, v, t[1..], p, q);
    assert s + r + t == u + t[1..] && s + t == v + t[1..];
    FoldLength(flags, p + w);
    FoldLength(flags, q + w);
  }

  /** Single spaces only, each behind another byte. */
  predicate SingleSpaced(s: Line)
  {
    forall i :: 0 <= i < |s| && Blank(s[i]) ==> s[i] == 32 && 0 < i && !Blank(s[i - 1])
  }

  /** What is squeezed of a line with single spaces: the line, but for a space at its end. */
  function Shown(s: Line): Line
  {
    if EndsBlank(s) then s[..|s| - 1] else s
  }

  lemma ShownMore(init: Line, b: int)
    requires SingleSpaced(init + [b])
    ensures SingleSpaced(init)
    ensures Shown(init + [b]) == Shown(init) + More(Shown(init) != [] && EndsBlank(init), b)
  {
    var s := init + [b];
    assert forall i :: 0 <= i < |init| ==> s[i] == init[i];
    assert s[|init|] == b;
    assert s[..|init|] == init;
    if EndsBlank(init) {
      assert init == Shown(init) + [SPACE];
    }
  }

  lemma {:induction false} SqueezeNothing(s: Line)
    requires SingleSpaced(s)
    ensures SqueezeSpaces(s) == Shown(s)
  {
    if s != [] {
      var init, b := s[..|s| - 1], s[|s| - 1];
      assert s == init + [b];
      ShownMore(init, b);
      SqueezeNothing(init);
      SqueezeMore(init, b, Shown(init));
    }
  }

  /** Lines with single spaces, and none at the end, are compared as they are. */
  lemma SingleSpacedAsTheyAre(flags: Flags, x: Line, y: Line)
    requires flags.ignoreSpaceChange && !flags.ignoreAllSpace && !flags.ignoreCase
    requires SingleSpaced(x) && (x != [] ==> !Blank(x[|x| - 1]))
    requires SingleSpaced(y) && (y != [] ==> !Blank(y[|y| - 1]))
    ensures SameForm(flags)(x, y) <==> x == y
  {
    SqueezeNothing(x);
    SqueezeNothing(y);
    FoldNothing(flags, x);
    FoldNothing(flags, y);
  }
}
