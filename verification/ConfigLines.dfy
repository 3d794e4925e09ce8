/** The meaning of a configuration file, line by line: comments, section headers, and options. */
module ConfigLines {
  import opened Wrappers
  import opened ConfigText

  // ----- One line -----

  /** Trimming takes characters of the set away at both ends, and all that it can. */
  lemma {:induction false} TrimStartCuts(s: string, cut: set<char>) returns (a: string)
    ensures s == a + TrimStart(s, cut) && forall c <- a :: c in cut
  {
    if s != "" && s[0] in cut {
      var a' := TrimStartCuts(s[1..], cut);
      a := [s[0]] + a';
      Reassociate([s[0]], a', TrimStart(s[1..], cut));
    } else {
      a := "";
    }
  }

  lemma {:induction false} TrimEndCuts(s: string, cut: set<char>) returns (b: string)
    ensures s == TrimEnd(s, cut) + b && forall c <- b :: c in cut
  {
    if s != "" && s[|s| - 1] in cut {
      var n := |s| - 1;
      var b' := TrimEndCuts(s[..n], cut);
      b := b' + [s[n]];
      assert TrimEnd(s[..n], cut) + b' + [s[n]] == s;
    } else {
      b := "";
      assert s + "" == s;
    }
  }

  lemma TrimCuts(s: string, cut: set<char>) returns (a: string, b: string)
    ensures s == a + Trim(s, cut) + b && Trimmed(Trim(s, cut), cut)
    ensures forall c <- a + b :: c in cut
  {
    a := TrimStartCuts(s, cut);
    b := TrimEndCuts(TrimStart(s, cut), cut);
    TrimTrims(s, cut);
    assert a + (Trim(s, cut) + b) == a + Trim(s, cut) + b;
  }

  /** Key and value are what is before and behind the first `=`, else the first `:`, without the spaces around. */
  lemma OptionMeans(k: string, v: string)
    requires '=' !in k
    ensures ParseOption(k + "=" + v) == Setting(Trim(k, {' '}), Trim(v, {' '}))
    ensures ':' !in k && '=' !in v ==> ParseOption(k + ":" + v) == Setting(Trim(k, {' '}), Trim(v, {' '}))
    ensures ':' !in k ==> ParseOption(k) == Setting(k, "")
  {
    ParseWritten(k, v);
    if ':' !in k && '=' !in v {
      var line := k + ":" + v;
      IndexConcat(k, ':', v);
      assert line[..|k|] == k && line[|k| + 1..] == v;
      assert line[|k|] == ':';
    }
  }

  /** Empty lines and comments say nothing, and a bracket begins a section. */
  lemma LineMeans(sections: seq<Section>, rest: string)
    requires sections != []
    ensures ReadLine(sections, "") == ReadLine(sections, "#" + rest) == ReadLine(sections, ";" + rest) == sections
    ensures ReadLine(sections, "[" + rest) == sections + [Section(Trim("[" + rest, {' ', '[', ']'}), map[], [])]
  {
  }

  /** Any other line is an option of the active section, which is the last one. */
  lemma OtherLineMeans(sections: seq<Section>, line: string, o: Setting)
    requires sections != [] && line != "" && line[0] !in {'#', ';', '['} && o == ParseOption(line)
    ensures var s, t := sections[|sections| - 1], ReadLine(sections, line)[|sections| - 1];
            && ReadLine(sections, line) == sections[|sections| - 1 := t]
            && t.name == s.name && t.options == s.options[o.key := o.value] && t.order == s.order + [o.key]
  {
    var n := |sections| - 1;
    assert sections[..n] + [AddOption(sections[n], o)] == sections[n := AddOption(sections[n], o)];
  }

  /** Lines end with a line feed, or a carriage return and a line feed; the last one needs no end. */
  lemma LinesEnd(line: string, rest: string)
    requires '\n' !in line && (line != "" ==> line[|line| - 1] != '\r')
    ensures ScanLines(line + "\n" + rest) == ScanLines(line + "\r\n" + rest) == [line] + ScanLines(rest)
    ensures ScanLines(line) == if line == "" then [] else [line]
  {
    ScanNext(line + "\n" + rest, line, rest);
    ReturnDropped(line, line + "\r", rest);
    LastLine(line);
  }

  lemma ReturnDropped(line: string, returned: string, rest: string)
    requires '\n' !in line && returned == line + "\r"
    ensures ScanLines(line + "\r\n" + rest) == [line] + ScanLines(rest)
  {
    assert "\r\n" == "\r" + "\n";
    Reassociate(line, "\r", "\n");
    ScanNext(line + "\r\n" + rest, returned, rest);
    assert DropReturn(returned) == line;
  }

  lemma LastLine(line: string)
    requires '\n' !in line && (line != "" ==> line[|line| - 1] != '\r')
    ensures ScanLines(line) == if line == "" then [] else [line]
  {
    if line != "" {
      ScanFirst(line, |line|);
      assert line[..|line|] == line;
    }
  }

  // ----- The lines of one section -----

  /** Lines without a section header. */
  predicate Body(lines: seq<string>) { forall i :: 0 <= i < |lines| ==> lines[i] == "" || lines[i][0] != '[' }

  /** The options of the lines, in order. */
  function OptionsOf(lines: seq<string>): (r: seq<Setting>)
  {
    if lines == [] then []
    else
      var last := lines[|lines| - 1];
      OptionsOf(lines[..|lines| - 1]) + if IsOption(last) then [ParseOption(last)] else []
  }

  function Keys(options: seq<Setting>): (r: seq<string>)
    ensures |r| == |options|
  {
    seq(|options|, i requires 0 <= i < |options| => options[i].key)
  }

  /** Option i is the last one of its key. */
  predicate IsLast(options: seq<Setting>, i: nat)
    requires i < |options|
  {
    options[i].key !in Keys(options[i + 1..])
  }

  /** s is what becomes of a section with these options after it: of each key the last value counts. */
  ghost predicate Extended(before: Section, options: seq<Setting>, s: Section)
  {
    && s.name == before.name && s.order == before.order + Keys(options)
    && (forall i :: 0 <= i < |options| && IsLast(options, i) ==>
          options[i].key in s.options && s.options[options[i].key] == options[i].value)
    && (forall k :: k !in Keys(options) ==>
          (k in s.options <==> k in before.options) && (k in s.options ==> s.options[k] == before.options[k]))
  }

  lemma KeysMore(options: seq<Setting>, o: Setting)
    ensures Keys(options + [o]) == Keys(options) + [o.key]
    ensures forall i :: 0 <= i < |options| && IsLast(options + [o], i) ==> IsLast(options, i) && options[i].key != o.key
  {
    forall i | 0 <= i < |options| && IsLast(options + [o], i)
      ensures IsLast(options, i) && options[i].key != o.key
    {
      assert (options + [o])[i + 1..] == options[i + 1..] + [o];
      assert Keys(options[i + 1..] + [o]) == Keys(options[i + 1..]) + [o.key];
    }
  }

  lemma ExtendedNext(before: Section, options: seq<Setting>, s: Section, o: Setting)
    requires Extended(before, options, s)
    ensures Extended(before, options + [o], AddOption(s, o))
  {
    KeysMore(options, o);
    var all, t := options + [o], AddOption(s, o);
    forall i | 0 <= i < |all| && IsLast(all, i)
      ensures all[i].key in t.options && t.options[all[i].key] == all[i].value
    {
      assert i < |options| ==> all[i] == options[i];
    }
    assert before.order + Keys(options) + [o.key] == before.order + Keys(all);
  }

  /** Lines without a header extend the active section and leave the others as they are. */
  lemma {:induction false} BodyMeans(sections: seq<Section>, lines: seq<string>) returns (s: Section)
    requires sections != [] && Body(lines)
    ensures ReadLines(sections, lines) == sections[|sections| - 1 := s]
    ensures Extended(sections[|sections| - 1], OptionsOf(lines), s)
  {
    var n := |sections| - 1;
    if lines == [] {
      s := sections[n];
      assert s.order + Keys([]) == s.order;
    } else {
      var m := |lines| - 1;
      var s0 := BodyMeans(sections, lines[..m]);
      var read := sections[n := s0];
      s := s0;
      if IsOption(lines[m]) {
        s := AddOption(s0, ParseOption(lines[m]));
        OtherLineMeans(read, lines[m], ParseOption(lines[m]));
        ExtendedNext(sections[n], OptionsOf(lines[..m]), s0, ParseOption(lines[m]));
      } else {
        assert OptionsOf(lines[..m]) + [] == OptionsOf(lines[..m]);
      }
    }
  }

  // ----- An option of a file -----

  /** Once another section has begun, or nothing follows, the sections so far stay as they are. */
  lemma {:induction false} SectionsStay(sections: seq<Section>, lines: seq<string>)
    requires sections != [] && (lines != [] ==> IsSection(lines[0]))
    ensures sections <= ReadLines(sections, lines) && (lines != [] ==> |sections| < |ReadLines(sections, lines)|)
  {
    if lines != [] {
      var n := |lines| - 1;
      SectionsStay(sections, lines[..n]);
    }
  }

  lemma {:induction false} OptionsConcat(a: seq<string>, b: seq<string>)
    ensures OptionsOf(a + b) == OptionsOf(a) + OptionsOf(b)
  {
    if b == [] {
      assert a + b == a && OptionsOf(a) + [] == OptionsOf(a);
    } else {
      assert (a + b)[..|a + b| - 1] == a + b[..|b| - 1];
      OptionsConcat(a, b[..|b| - 1]);
    }
  }

  lemma FirstOption(line: string, rest: seq<string>, o: Setting)
    requires IsOption(line) && o == ParseOption(line)
    ensures OptionsOf([line] + rest) == [o] + OptionsOf(rest)
  {
    OptionsConcat([line], rest);
    assert [line][..0] == [];
    NothingBefore([o]);
  }

  /** The active section has the option of a line if no other line of the same key follows in it. */
  lemma ActiveHas(sections: seq<Section>, line: string, rest: seq<string>, o: Setting) returns (s: Section)
    requires sections != [] && Body(rest) && line != "" && line[0] !in {'#', ';', '['} && o == ParseOption(line)
    requires o.key !in Keys(OptionsOf(rest))
    ensures ReadLines(sections, [line] + rest) == sections[|sections| - 1 := s]
    ensures o.key in s.options && s.options[o.key] == o.value
  {
    var own := [line] + rest;
    assert Body(own);
    s := BodyMeans(sections, own);
    FirstOption(line, rest, o);
    var options := OptionsOf(own);
    assert options[1..] == OptionsOf(rest) && options[0] == o;
    assert IsLast(options, 0);
  }

  /** The section whose header comes last before a line has that line's option, unless the same key follows in it. */
  lemma OptionIsRead(text: string, before: seq<string>, line: string, rest: seq<string>, later: seq<string>)
    requires ScanLines(text) == before + ([line] + rest) + later
    requires line != "" && line[0] !in {'#', ';', '['} && Body(rest) && (later != [] ==> IsSection(later[0]))
    requires ParseOption(line).key !in Keys(OptionsOf(rest))
    ensures var i, o := Headers(before), ParseOption(line);
            && i < |ReadText(text)| && o.key in ReadText(text)[i].options
            && ReadText(text)[i].options[o.key] == o.value
  {
    var first := [NewSection(GLOBAL)];
    var sections := ReadLines(first, before);
    ReadCounts(first, before);
    var s := ActiveHas(sections, line, rest, ParseOption(line));
    ReadConcat(first, before, [line] + rest);
    ReadConcat(first, before + ([line] + rest), later);
    SectionsStay(sections[|sections| - 1 := s], later);
  }

  /** Before the first header the section is the global one. */
  lemma GlobalFirst(text: string)
    ensures ReadText(text)[0].name == "global" && (text == "" ==> ReadText(text) == [Section("global", map[], [])])
  {
    ReadCounts([NewSection(GLOBAL)], ScanLines(text));
  }
}
