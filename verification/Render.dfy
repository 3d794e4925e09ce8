/** Showing the changes within a line as HTML: cutting lines into runes, escaping, and marking. */
module Render {
  import opened Wrappers
  import opened Marks
  import opened LineCompare
  import opened SameLines
  import opened Recursion
  import opened Shift

  // ----- Cutting a line into runes; a string stands for its bytes -----

  /** The decoder of the utf8 package and the lower-case table, of which only the sizes matter. */
  datatype Unicode = Unicode(rune: string -> int, size: string -> int, lower: int -> int)
  {
    ghost predicate Valid()
    {
      forall s: string :: s != "" ==> 1 <= size(s) <= |s|
    }
  }

  datatype Mode = Mode(ignoreCase: bool, unicodeCase: bool)

  const RUNE_SELF := 0x80

  /** The bytes of the rune at the start of s. */
  function RuneSize(u: Unicode, s: string): int
    requires s != ""
  {
    if s[0] as int < RUNE_SELF then 1 else u.size(s)
  }

  /** What the rune at the start of s is compared by. */
  function RuneKey(u: Unicode, mode: Mode, s: string): int
    requires s != ""
  {
    if s[0] as int < RUNE_SELF then
      if !mode.ignoreCase then s[0] as int
      else if mode.unicodeCase then u.lower(s[0] as int)
      else ToLower(s[0] as int)
    else if mode.ignoreCase && mode.unicodeCase then u.lower(u.rune(s))
    else u.rune(s)
  }

  /** ASCII characters are compared by themselves, or as letters; other runes as the decoder and the table say. */
  lemma RunesAgree(u: Unicode, mode: Mode, s: string, t: string)
    requires s != "" && t != ""
    ensures s[0] as int < 128 ==> RuneSize(u, s) == 1
    ensures s[0] as int >= 128 ==> RuneSize(u, s) == u.size(s)
    ensures s[0] as int < 128 && t[0] as int < 128 && !mode.unicodeCase ==>
              (RuneKey(u, mode, s) == RuneKey(u, mode, t) <==>
               s[0] == t[0] || (mode.ignoreCase && SameLetter(s[0] as int, t[0] as int)))
    ensures s[0] as int >= 128 ==>
              RuneKey(u, mode, s) == if mode.ignoreCase && mode.unicodeCase then u.lower(u.rune(s)) else u.rune(s)
    ensures s[0] as int < 128 && mode.ignoreCase && mode.unicodeCase ==> RuneKey(u, mode, s) == u.lower(s[0] as int)
  {
  }

  /** The positions cut the first n bytes into non-empty pieces, in order and without gaps. */
  predicate Tiles(pos: seq<int>, n: int)
  {
    && pos != [] && pos[0] == 0 && pos[|pos| - 1] == n
    && forall i, j :: 0 <= i < j < |pos| ==> pos[i] < pos[j]
  }

  /** The start and the key of every rune of s so far, and last the position of the next one. */
  ghost predicate Cut(u: Unicode, mode: Mode, s: string, pos: seq<int>, keys: seq<int>)
  {
    && |pos| == |keys| + 1 && pos[0] == 0
    && forall k :: 0 <= k < |keys| ==> CutAt(u, mode, s, pos, keys, k)
  }

  lemma SizeInRange(u: Unicode, s: string, i: int)
    requires u.Valid() && 0 <= i < |s|
    ensures i < i + RuneSize(u, s[i..]) <= |s|
  {
    assert s[i..] != "";
  }

  /** Rune k is where and what it should be. */
  ghost predicate CutAt(u: Unicode, mode: Mode, s: string, pos: seq<int>, keys: seq<int>, k: int)
    requires 0 <= k < |keys| && |pos| == |keys| + 1
  {
    && 0 <= pos[k] < |s|
    && pos[k + 1] == pos[k] + RuneSize(u, s[pos[k]..])
    && keys[k] == RuneKey(u, mode, s[pos[k]..])
  }

  lemma CutNext(u: Unicode, mode: Mode, s: string, pos: seq<int>, keys: seq<int>, i: int, h: int, i': int)
    requires u.Valid() && Cut(u, mode, s, pos, keys) && |keys| <= i && pos[|keys|] == i < |s|
    requires i' == i + RuneSize(u, s[i..]) && h == RuneKey(u, mode, s[i..])
    ensures Cut(u, mode, s, pos + [i'], keys + [h]) && |keys| + 1 <= i' <= |s| && i < i'
  {
    SizeInRange(u, s, i);
    var pos', keys' := pos + [i'], keys + [h];
    forall k | 0 <= k < |keys'|
      ensures CutAt(u, mode, s, pos', keys', k)
    {
      assert pos'[k] == pos[k];
      assert k < |keys| ==> CutAt(u, mode, s, pos, keys, k);
    }
  }

  lemma {:induction false} CutRises(u: Unicode, mode: Mode, s: string, pos: seq<int>, keys: seq<int>, k: int, l: int)
    requires u.Valid() && Cut(u, mode, s, pos, keys) && 0 <= k < l < |pos|
    ensures pos[k] < pos[l]
    decreases l
  {
    assert CutAt(u, mode, s, pos, keys, l - 1);
    SizeInRange(u, s, pos[l - 1]);
    if k < l - 1 {
      CutRises(u, mode, s, pos, keys, k, l - 1);
    }
  }

  /** Runes that end with the line cover it without gaps. */
  lemma CutTiles(u: Unicode, mode: Mode, s: string, pos: seq<int>, keys: seq<int>)
    requires u.Valid() && Cut(u, mode, s, pos, keys) && pos[|keys|] == |s|
    ensures Tiles(pos, |s|)
  {
    forall k, l | 0 <= k < l < |pos|
      ensures pos[k] < pos[l]
    {
      CutRises(u, mode, s, pos, keys, k, l);
    }
  }

  method NextRune(u: Unicode, mode: Mode, s: string, i: int) returns (h: int, i': int)
    requires 0 <= i < |s|
    ensures h == RuneKey(u, mode, s[i..]) && i' == i + RuneSize(u, s[i..])
  {
    var b := s[i] as int;
    if b < RUNE_SELF {
      if mode.ignoreCase {
        if mode.unicodeCase {
          h := u.lower(b);
        } else {
          h := ToLower(b);
        }
      } else {
        h := b;
      }
      i' := i + 1;
    } else {
      var r, rsize := u.rune(s[i..]), u.size(s[i..]);
      if mode.ignoreCase && mode.unicodeCase {
        h := u.lower(r);
      } else {
        h := r;
      }
      i' := i + rsize;
    }
  }

  method SplitRunes(u: Unicode, mode: Mode, s: string) returns (starts: seq<int>, keys: seq<int>)
    requires u.Valid()
    ensures Cut(u, mode, s, starts, keys) && Tiles(starts, |s|)
  {
    var pos := new int[|s| + 1];
    var cmp := new int[|s|];
    var h, i, n := 0, 0, 0;
    while i < |s|
      invariant 0 <= n <= i <= |s| && Cut(u, mode, s, pos[..n] + [i], cmp[..n])
    {
      ghost var pos0, keys0, i0 := pos[..n], cmp[..n], i;
      pos[n] := i;
      assert pos[..n + 1] == pos0 + [i];
      h, i := NextRune(u, mode, s, i);
      CutNext(u, mode, s, pos0 + [i0], keys0, i0, h, i);
      cmp[n] := h;
      assert cmp[..n + 1] == keys0 + [h];
      n := n + 1;
    }
    pos[n] := i;
    assert pos[..n + 1] == pos[..n] + [i];
    starts, keys := pos[..n + 1], cmp[..n];
    CutTiles(u, mode, s, starts, keys);
  }

  // ----- The reader of the produced HTML: text, entities, and the span that marks a change -----

  const OPEN := "<span class=\"chg\">"
  const CLOSE := "</span>"

  datatype Glyph = Glyph(ch: char, changed: bool)

  datatype Token = Opening | Closing | Text(ch: char) | Bad

  datatype Reading = Reading(glyphs: seq<Glyph>, inside: bool) | Malformed

  function Entity(ch: char): string
  {
    if ch == '<' then "&lt;"
    else if ch == '>' then "&gt;"
    else if ch == '&' then "&amp;"
    else if ch == '\'' then "&#39;"
    else if ch == '"' then "&#34;"
    else [ch]
  }

  function Literal(token: Token): string
    requires !token.Bad?
  {
    match token
    case Opening => OPEN
    case Closing => CLOSE
    case Text(ch) => Entity(ch)
  }

  /** The token at the start of h, and its length. */
  function NextToken(h: string): (r: (Token, nat))
    requires h != ""
    ensures 1 <= r.1 <= |h|
    ensures !r.0.Bad? ==> Literal(r.0) <= h && r.1 == |Literal(r.0)|
  {
    if h[0] == '<' then
      if OPEN <= h then (Opening, |OPEN|) else if CLOSE <= h then (Closing, |CLOSE|) else (Bad, 1)
    else if h[0] == '&' then
      if "&lt;" <= h then (Text('<'), 4)
      else if "&gt;" <= h then (Text('>'), 4)
      else if "&amp;" <= h then (Text('&'), 5)
      else if "&#39;" <= h then (Text('\''), 5)
      else if "&#34;" <= h then (Text('"'), 5)
      else (Bad, 1)
    else if h[0] == '>' || h[0] == '\'' || h[0] == '"' then (Bad, 1)
    else (Text(h[0]), 1)
  }

  function Tokens(h: string): seq<Token>
    decreases |h|
  {
    if h == "" then []
    else
      var (token, n) := NextToken(h);
      [token] + Tokens(h[n..])
  }

  /** Spans must not nest, and only an open span can be closed. */
  predicate Fits(token: Token, inside: bool)
  {
    match token
    case Opening => !inside
    case Closing => inside
    case Text(_) => true
    case Bad => false
  }

  /** What a browser shows for the tokens, and whether it is inside a span after them. */
  function Parse(tokens: seq<Token>): Reading
  {
    if tokens == [] then Reading([], false)
    else
      var before, last := Parse(tokens[..|tokens| - 1]), tokens[|tokens| - 1];
      if before.Malformed? || !Fits(last, before.inside) then Malformed
      else if last.Text? then Reading(before.glyphs + [Glyph(last.ch, before.inside)], before.inside)
      else Reading(before.glyphs, last.Opening?)
  }

  function Read(h: string): Reading
  {
    Parse(Tokens(h))
  }

  // ----- Writing tokens, and reading them back -----

  predicate Good(tokens: seq<Token>) { forall i :: 0 <= i < |tokens| ==> !tokens[i].Bad? }

  function Write(tokens: seq<Token>): string
    requires Good(tokens)
  {
    if tokens == [] then "" else Literal(tokens[0]) + Write(tokens[1..])
  }

  /** Two literals that differ at i cannot both be at the start of h. */
  lemma PrefixesApart(literal: string, other: string, h: string, i: nat)
    requires literal <= h && i < |literal| && i < |other| && literal[i] != other[i]
    ensures !(other <= h)
  {
    assert h[i] == literal[i];
  }

  /** No literal is a prefix of another one: whatever follows it, a literal is read as its token. */
  lemma Starts(h: string, token: Token)
    requires !token.Bad? && Literal(token) <= h
    ensures h != "" && NextToken(h) == (token, |Literal(token)|)
  {
    var literal := Literal(token);
    assert h[0] == literal[0];
    if token.Closing? {
      PrefixesApart(CLOSE, OPEN, h, 1);
    } else if token.Text? && literal[0] == '&' {
      assert h[1] == literal[1];
      if token.ch == '"' {
        PrefixesApart(literal, "&#39;", h, 3);
      }
    }
  }

  /** How a change begins and ends. */
  lemma SpansOfChanges(text: string)
    ensures Write([Opening] + Texts(text) + [Closing]) == "<span class=\"chg\">" + Escape(text) + "</span>"
  {
    var tokens := [Opening] + Texts(text);
    WriteConcat(tokens, [Closing]);
    WriteConcat([Opening], Texts(text));
    WriteOne(Opening);
    WriteOne(Closing);
  }

  lemma WriteOne(token: Token)
    requires !token.Bad?
    ensures Write([token]) == Literal(token)
  {
    assert [token][1..] == [] && Good([token]);
    NothingMore(Literal(token));
  }

  lemma TokensNext(token: Token, rest: string)
    requires !token.Bad?
    ensures Tokens(Literal(token) + rest) == [token] + Tokens(rest)
  {
    Starts(Literal(token) + rest, token);
    assert (Literal(token) + rest)[|Literal(token)|..] == rest;
  }

  /** HTML that is written token by token is read back as the same tokens. */
  lemma {:induction false} TokensOfWrite(tokens: seq<Token>)
    requires Good(tokens)
    ensures Tokens(Write(tokens)) == tokens
  {
    if tokens != [] {
      TokensOfWrite(tokens[1..]);
      TokensNext(tokens[0], Write(tokens[1..]));
    }
  }

  lemma {:induction false} WriteConcat(a: seq<Token>, b: seq<Token>)
    requires Good(a) && Good(b)
    ensures Write(a + b) == Write(a) + Write(b)
  {
    if a == [] {
      assert a + b == b;
    } else {
      assert (a + b)[1..] == a[1..] + b;
      WriteConcat(a[1..], b);
    }
  }

  // ----- Escaping -----

  function Texts(text: string): (r: seq<Token>)
    ensures |r| == |text| && Good(r)
  {
    seq(|text|, i requires 0 <= i < |text| => Text(text[i]))
  }

  function Escape(text: string): string
  {
    Write(Texts(text))
  }

  function Paint(text: string, changed: bool): seq<Glyph>
  {
    seq(|text|, i requires 0 <= i < |text| => Glyph(text[i], changed))
  }

  /** Undoing the entities gives back the text, and escaped text opens or closes no span. */
  lemma {:induction false} ParseTexts(before: seq<Token>, text: string)
    requires Parse(before).Reading?
    ensures Parse(before + Texts(text)) ==
            Reading(Parse(before).glyphs + Paint(text, Parse(before).inside), Parse(before).inside)
  {
    var tokens, inside := before + Texts(text), Parse(before).inside;
    if text == "" {
      assert tokens == before && Parse(before).glyphs + Paint(text, inside) == Parse(before).glyphs;
    } else {
      var init, last := text[..|text| - 1], text[|text| - 1];
      ParseTexts(before, init);
      assert tokens[..|tokens| - 1] == before + Texts(init);
      assert Paint(text, inside) == Paint(init, inside) + [Glyph(last, inside)];
    }
  }

  /** bytes.Buffer */
  class Buffer {
    var contents: string

    method WriteString(s: string)
      modifies this
      ensures contents == old(contents) + s
    {
      contents := contents + s;
    }
  }

  lemma EscapeNext(line: string, i: nat)
    requires i < |line|
    ensures Escape(line[..i + 1]) == Escape(line[..i]) + Entity(line[i])
  {
    assert Texts(line[..i + 1]) == Texts(line[..i]) + [Text(line[i])];
    WriteConcat(Texts(line[..i]), [Text(line[i])]);
  }

  /** The bytes up to i have been written, except for those from lasti on, which need no escape. */
  ghost predicate Pending(before: string, contents: string, line: string, lasti: int, i: int)
  {
    0 <= lasti <= i <= |line| && contents + line[lasti..i] == before + Escape(line[..i])
  }

  lemma PendingNext(before: string, contents: string, line: string, lasti: int, i: int, esc: string)
    requires i < |line| && Pending(before, contents, line, lasti, i) && esc == Entity(line[i])
    ensures esc == [line[i]] ==> Pending(before, contents, line, lasti, i + 1)
    ensures Pending(before, contents + line[lasti..i] + esc, line, i + 1, i + 1)
  {
    EscapeNext(line, i);
    Reassociate(before, Escape(line[..i]), esc);
    assert line[lasti..i + 1] == line[lasti..i] + [line[i]];
    Reassociate(contents, line[lasti..i], [line[i]]);
    assert line[i + 1..i + 1] == "";
    NothingMore(contents + line[lasti..i] + esc);
  }

  lemma Appended(a: string, b: string, c: string, d: string)
    ensures a + b + c + d == a + (b + c + d)
  {
  }

  lemma NothingPending(before: string, line: string)
    ensures Pending(before, before, line, 0, 0)
  {
  }

  lemma PendingDone(before: string, contents: string, line: string, lasti: int)
    requires Pending(before, contents, line, lasti, |line|)
    ensures contents + line[lasti..] == before + Escape(line)
  {
    assert line[..|line|] == line && line[lasti..|line|] == line[lasti..];
  }

  method WriteHtmlBytes(buf: Buffer, line: string)
    modifies buf
    ensures buf.contents == old(buf.contents) + Escape(line)
  {
    var esc;
    var lasti := 0;
    ghost var before := buf.contents;
    NothingPending(before, line);
    for i := 0 to |line|
      invariant 0 <= lasti <= i && Pending(before, buf.contents, line, lasti, i)
    {
      PendingNext(before, buf.contents, line, lasti, i, Entity(line[i]));
      var v := line[i];
      if v == '<' {
        esc := "&lt;";
      } else if v == '>' {
        esc := "&gt;";
      } else if v == '&' {
        esc := "&amp;";
      } else if v == '\'' {
        esc := "&#39;";
      } else if v == '"' {
        esc := "&#34;";
      } else {
        continue;
      }
      buf.WriteString(line[lasti..i]);
      buf.WriteString(esc);
      lasti := i + 1;
    }
    PendingDone(before, buf.contents, line, lasti);
    buf.WriteString(line[lasti..]);
  }

  // ----- Marking the changes of a line -----

  /** The bytes of a line up to rune n, each with the mark of its rune. */
  function Marking(line: string, pos: seq<int>, change: seq<bool>, n: nat): (r: seq<Glyph>)
    requires n <= |change| && |pos| == |change| + 1 && Tiles(pos, |line|)
  {
    if n == 0 then []
    else Marking(line, pos, change, n - 1) + Paint(line[pos[n - 1]..pos[n]], change[n - 1])
  }

  /** The marking is the line itself, with the bytes of every rune marked as the rune is. */
  lemma {:induction false} MarkingIsLine(line: string, pos: seq<int>, change: seq<bool>, n: nat)
    requires n <= |change| && |pos| == |change| + 1 && Tiles(pos, |line|)
    ensures |Marking(line, pos, change, n)| == pos[n]
    ensures forall p :: 0 <= p < pos[n] ==> Marking(line, pos, change, n)[p].ch == line[p]
    ensures forall k, p :: 0 <= k < n && pos[k] <= p < pos[k + 1] ==>
              Marking(line, pos, change, n)[p].changed == change[k]
  {
    if n > 0 {
      MarkingIsLine(line, pos, change, n - 1);
    }
  }

  /** A run of runes with the same mark is painted as one piece. */
  lemma {:induction false} MarkingRun(line: string, pos: seq<int>, change: seq<bool>, i: nat, j: nat)
    requires i <= j <= |change| && |pos| == |change| + 1 && Tiles(pos, |line|)
    requires i < j ==> All(change, i, j, change[i])
    ensures pos[i] <= pos[j]
    ensures i < j ==> Marking(line, pos, change, j) ==
                      Marking(line, pos, change, i) + Paint(line[pos[i]..pos[j]], change[i])
  {
    if i < j {
      MarkingRun(line, pos, change, i, j - 1);
      PaintConcat(line, pos[i], pos[j - 1], pos[j], change[i]);
      if i < j - 1 {
        var before, first := Marking(line, pos, change, i), Paint(line[pos[i]..pos[j - 1]], change[i]);
        var last := Paint(line[pos[j - 1]..pos[j]], change[i]);
        assert before + first + last == before + (first + last);
      }
    }
  }

  lemma PaintConcat(line: string, a: int, b: int, c: int, changed: bool)
    requires 0 <= a <= b <= c <= |line|
    ensures Paint(line[a..c], changed) == Paint(line[a..b], changed) + Paint(line[b..c], changed)
  {
  }

  function Switch(c: bool, inChg: bool): (r: seq<Token>)
    ensures Good(r)
  {
    if c && !inChg then [Opening] else if !c && inChg then [Closing] else []
  }

  lemma WritePiece(tokens: seq<Token>, glyphs: seq<Glyph>, inChg: bool, c: bool, text: string)
    requires Good(tokens) && Parse(tokens) == Reading(glyphs, inChg)
    ensures var tokens' := tokens + Switch(c, inChg) + Texts(text);
            && Good(tokens')
            && Write(tokens') == Write(tokens) + Write(Switch(c, inChg)) + Escape(text)
            && Parse(tokens') == Reading(glyphs + Paint(text, c), c)
  {
    var switch := Switch(c, inChg);
    var turned := tokens + switch;
    WriteConcat(tokens, switch);
    WriteConcat(turned, Texts(text));
    assert Parse(turned) == Reading(glyphs, c) by {
      if switch == [] {
        assert turned == tokens;
      } else {
        assert turned[..|turned| - 1] == tokens;
      }
    }
    ParseTexts(turned, text);
  }

  /** What is written before text that is marked or not, inside or outside of a span. */
  function Tag(c: bool, inChg: bool): string
  {
    if c && !inChg then OPEN else if !c && inChg then CLOSE else ""
  }

  lemma WriteSwitch(c: bool, inChg: bool)
    ensures Write(Switch(c, inChg)) == Tag(c, inChg)
  {
    assert Tag(c, inChg) + "" == Tag(c, inChg);
  }

  /** The HTML shows exactly the line, with exactly the bytes of the marked runes in spans. */
  ghost predicate Displays(html: string, line: string, pos: seq<int>, change: seq<bool>)
    requires |pos| == |change| + 1 && Tiles(pos, |line|)
  {
    Read(html) == Reading(Marking(line, pos, change, |change|), false)
  }

  /** The first i runes have been written as these tokens. */
  ghost predicate Written(line: string, pos: seq<int>, change: seq<bool>, i: nat, tokens: seq<Token>, out: string,
                          inChg: bool)
    requires |pos| == |change| + 1 && Tiles(pos, |line|) && i <= |change|
  {
    Good(tokens) && out == Write(tokens) && Parse(tokens) == Reading(Marking(line, pos, change, i), inChg)
  }

  lemma WriteRun(line: string, pos: seq<int>, change: seq<bool>, i: nat, j: nat, tokens: seq<Token>, out: string,
                 inChg: bool)
    requires |pos| == |change| + 1 && Tiles(pos, |line|) && i < j <= |change|
    requires All(change, i, j, change[i])
    requires Written(line, pos, change, i, tokens, out, inChg)
    ensures 0 <= pos[i] <= pos[j] <= |line|
    ensures var c, text := change[i], line[pos[i]..pos[j]];
            Written(line, pos, change, j, tokens + Switch(c, inChg) + Texts(text), out + Tag(c, inChg) + Escape(text),
                    c)
  {
    MarkingRun(line, pos, change, i, j);
    WritePiece(tokens, Marking(line, pos, change, i), inChg, change[i], line[pos[i]..pos[j]]);
    WriteSwitch(change[i], inChg);
  }

  lemma WriteEnd(line: string, pos: seq<int>, change: seq<bool>, tokens: seq<Token>, out: string, inChg: bool)
    requires |pos| == |change| + 1 && Tiles(pos, |line|)
    requires Written(line, pos, change, |change|, tokens, out, inChg)
    ensures Displays(out + Tag(false, inChg), line, pos, change)
  {
    var switch := Switch(false, inChg);
    var all := tokens + switch;
    WriteConcat(tokens, switch);
    WriteSwitch(false, inChg);
    TokensOfWrite(all);
    if inChg {
      assert all[..|all| - 1] == tokens;
    } else {
      assert all == tokens;
    }
  }

  method WriteTag(buf: Buffer, c: bool, inChg: bool)
    modifies buf
    ensures buf.contents == old(buf.contents) + Tag(c, inChg)
  {
    if c && !inChg {
      buf.WriteString(OPEN);
    } else if !c && inChg {
      buf.WriteString(CLOSE);
    } else {
      assert buf.contents + "" == buf.contents;
    }
  }

  /** The end of the runes from i on that have the same mark as it. */
  method SameMarks(change: array<bool>, i: nat) returns (j: nat)
    requires i < change.Length
    ensures i < j <= change.Length && All(change[..], i, j, change[i])
  {
    j := i + 1;
    while j < change.Length && change[j] == change[i]
      invariant i < j <= change.Length && All(change[..], i, j, change[i])
    {
      j := j + 1;
    }
  }

  method WriteHtmlLineChange(buf: Buffer, line: string, pos: seq<int>, change: array<bool>)
    requires |pos| == change.Length + 1 && Tiles(pos, |line|)
    modifies buf
    ensures old(buf.contents) <= buf.contents
    ensures Displays(buf.contents[|old(buf.contents)|..], line, pos, change[..])
  {
    ghost var before := buf.contents;
    ghost var tokens, out;
    var inChg;
    inChg, tokens, out := WriteRuns(buf, line, pos, change);
    WriteEnd(line, pos, change[..], tokens, out, inChg);
    WriteTag(buf, false, inChg);
    Behind(before, out, Tag(false, inChg));
  }

  lemma Behind(before: string, out: string, tag: string)
    ensures before <= before + out + tag && (before + out + tag)[|before|..] == out + tag
  {
    assert before + out + tag == before + (out + tag);
  }

  /** The buffer holds what it held before, and the first i runes. */
  ghost predicate Rendering(before: string, contents: string, line: string, pos: seq<int>, change: seq<bool>, i: int,
                            tokens: seq<Token>, out: string, inChg: bool)
  {
    && |pos| == |change| + 1 && Tiles(pos, |line|) && 0 <= i <= |change|
    && contents == before + out && Written(line, pos, change, i, tokens, out, inChg)
  }

  /** All runs, up to the end of the span that may be open after the last one. */
  method WriteRuns(buf: Buffer, line: string, pos: seq<int>, change: array<bool>)
    returns (inChg: bool, ghost tokens: seq<Token>, ghost out: string)
    requires |pos| == change.Length + 1 && Tiles(pos, |line|)
    modifies buf
    ensures Rendering(old(buf.contents), buf.contents, line, pos, change[..], change.Length, tokens, out, inChg)
  {
    inChg, tokens, out := false, [], "";
    ghost var before := buf.contents;
    var i, end := 0, change.Length;
    BeginRendering(before, line, pos, change[..]);
    while i < end
      invariant i <= end && Rendering(before, buf.contents, line, pos, change[..], i, tokens, out, inChg)
    {
      i, inChg, tokens, out := WriteNextRun(buf, line, pos, change, i, inChg, before, tokens, out);
    }
  }

  lemma BeginRendering(before: string, line: string, pos: seq<int>, change: seq<bool>)
    requires |pos| == |change| + 1 && Tiles(pos, |line|)
    ensures Rendering(before, before, line, pos, change, 0, [], "", false)
  {
    NothingMore(before);
  }

  /** One run of runes with the same mark. */
  method WriteNextRun(buf: Buffer, line: string, pos: seq<int>, change: array<bool>, i: nat, inChg: bool,
                      ghost before: string, ghost tokens: seq<Token>, ghost out: string)
    returns (j: nat, c: bool, ghost tokens': seq<Token>, ghost out': string)
    requires Rendering(before, buf.contents, line, pos, change[..], i, tokens, out, inChg) && i < change.Length
    modifies buf
    ensures Rendering(before, buf.contents, line, pos, change[..], j, tokens', out', c) && i < j <= change.Length
  {
    j := SameMarks(change, i);
    c := change[i];
    WriteRun(line, pos, change[..], i, j, tokens, out, inChg);
    var text := line[pos[i]..pos[j]];
    tokens', out' := tokens + Switch(c, inChg) + Texts(text), out + Tag(c, inChg) + Escape(text);
    Appended(before, out, Tag(c, inChg), Escape(text));
    WriteTag(buf, c, inChg);
    WriteHtmlBytes(buf, text);
  }

  // ----- One changed line against another -----

  function EdgeScore(r: int): (score: int)
  {
    if r == 32 || r == 9 || r == 11 || r == 12 then 100
    else if r == 60 || r == 62 || r == 40 || r == 41 || r == 91 || r == 93 || r == 39 || r == 34 then 40
    else 0
  }

  function BoundaryScores(): Scoring
  {
    Score((r1, r2) => EdgeScore(r1) + EdgeScore(r2))
  }

  /** Spaces are worth most at the edge of a change, then brackets and quotes. */
  function Worth(ch: char): int
  {
    if ch in {' ', '\t', '\U{0B}', '\U{0C}'} then 100
    else if ch in {'<', '>', '(', ')', '[', ']', '\'', '"'} then 40
    else 0
  }

  /** A change scores by what its first and its last character are worth. */
  lemma EdgeScores(first: char, last: char)
    ensures BoundaryScores().Score? && BoundaryScores().f(first as int, last as int) == Worth(first) + Worth(last)
  {
  }

  /** The keys of `x <a> <b>`. */
  function TaggedKeys(): seq<int>
  {
    [120, 32, 60, 97, 62, 32, 60, 98, 62]
  }

  function TaggedMarks(): seq<bool>
  {
    [false, false, false, true, true, true, true, false, false]
  }

  lemma TagReach()
    ensures Reach(TaggedKeys(), TaggedMarks(), 3, 7, 2, 0)
  {
    var data, c := TaggedKeys(), TaggedMarks();
    assert data[0] != data[4] && data[7] != data[3];
    assert SlidesUp(data, c, 3, 7, 2);
    forall u | u > 2
      ensures !SlidesUp(data, c, 3, 7, u)
    {
      assert data[0] != data[0 + (7 - 3)];
    }
    forall u | u > 0
      ensures !SlidesDown(data, c, 3, 7, u)
    {
      assert data[7] != data[7 - (7 - 3)];
    }
  }

  lemma TagScores()
    ensures IsBest(BoundaryScores(), TaggedKeys(), 3, 7, 2, 0, -2)
  {
  }

  /** With `x <b>` on the other side, not `a> <` is highlighted, which the diff may find, but ` <a>`. */
  lemma WholeTagShown()
    ensures Shifted(TaggedKeys(), BoundaryScores(), TaggedMarks(),
                    [false, true, true, true, true, false, false, false, false])
  {
    var data, score, c := TaggedKeys(), BoundaryScores(), TaggedMarks();
    var c' := [false, true, true, true, true, false, false, false, false];
    TagReach();
    TagScores();
    assert Moved(c, c', 3, 7, -2);
    var r := Round(c, 0, 3, 7, 2, 0, -2, c', 7);
    assert OneRound(data, score, c, 3, 7, 2, 0, -2, c', 7);
    assert Leads(data, score, c, [], c, 0);
    LeadsNext(data, score, c, [], r);
    assert Leads(data, score, c, [] + [r], c', 7);
  }

  /** The marks of a diff, shifted to where they score best. */
  ghost predicate Highlighted(cmp1: seq<int>, cmp2: seq<int>, diff1: seq<bool>, diff2: seq<bool>, change1: seq<bool>,
                              change2: seq<bool>)
  {
    && Longest(cmp1, cmp2, diff1, diff2) && Longest(cmp1, cmp2, change1, change2)
    && Shifted(cmp1, BoundaryScores(), diff1, change1) && Shifted(cmp2, BoundaryScores(), diff2, change2)
  }

  /** The ghost results are the marks before they are shifted. */
  method MarkRunes(cmp1: seq<int>, cmp2: seq<int>)
    returns (change1: array<bool>, change2: array<bool>, ghost before1: seq<bool>, ghost before2: seq<bool>)
    ensures fresh(change1) && fresh(change2)
    ensures change1.Length == |cmp1| && change2.Length == |cmp2|
    ensures Highlighted(cmp1, cmp2, before1, before2, change1[..], change2[..])
  {
    change1, change2 := DoDiff(cmp1, cmp2);
    before1, before2 := change1[..], change2[..];
    ShiftBoundaries(cmp1, change1, BoundaryScores());
    ShiftBoundaries(cmp2, change2, BoundaryScores());
    LongestOfSameKept(cmp1, cmp2, before1, before2, change1[..], change2[..]);
  }

  /** html is the rendering of the line with the marks `change` on its runes. */
  ghost predicate Rendered(u: Unicode, mode: Mode, line: string, html: string, keys: seq<int>, change: seq<bool>)
  {
    exists pos ::
      Cut(u, mode, line, pos, keys) && Tiles(pos, |line|) && |change| == |keys| && Displays(html, line, pos, change)
  }

  method RenderLine(buf: Buffer, ghost u: Unicode, ghost mode: Mode, line: string, pos: seq<int>,
                    ghost keys: seq<int>, change: array<bool>)
    requires Cut(u, mode, line, pos, keys) && Tiles(pos, |line|) && change.Length == |keys|
    modifies buf
    ensures old(buf.contents) <= buf.contents
    ensures Rendered(u, mode, line, buf.contents[|old(buf.contents)|..], keys, change[..])
  {
    WriteHtmlLineChange(buf, line, pos, change);
  }

  /**
    * Two changed lines side by side: each side shows its whole line, and the runes that are not
    * highlighted are a longest common subsequence of the two. Which ones they are is decided by the diff
    * and by the pass that shifts its marks to where they score best.
    */
  method RenderPair(u: Unicode, mode: Mode, buf1: Buffer, buf2: Buffer, line1: string, line2: string)
    returns (cmp1: seq<int>, cmp2: seq<int>, change1: array<bool>, change2: array<bool>,
             ghost before1: seq<bool>, ghost before2: seq<bool>)
    requires u.Valid() && buf1 != buf2
    modifies buf1, buf2
    ensures fresh(change1) && fresh(change2)
    ensures Highlighted(cmp1, cmp2, before1, before2, change1[..], change2[..])
    ensures old(buf1.contents) <= buf1.contents && old(buf2.contents) <= buf2.contents
    ensures Rendered(u, mode, line1, buf1.contents[|old(buf1.contents)|..], cmp1, change1[..])
    ensures Rendered(u, mode, line2, buf2.contents[|old(buf2.contents)|..], cmp2, change2[..])
  {
    var pos1, pos2;
    pos1, cmp1 := SplitRunes(u, mode, line1);
    pos2, cmp2 := SplitRunes(u, mode, line2);
    change1, change2, before1, before2 := MarkRunes(cmp1, cmp2);
    RenderLine(buf1, u, mode, line1, pos1, cmp1, change1);
    RenderLine(buf2, u, mode, line2, pos2, cmp2, change2);
  }
}
