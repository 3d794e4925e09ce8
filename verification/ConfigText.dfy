/** The text of a configuration file: what reading a text gives, and what saving writes. */
module ConfigText {

  datatype Setting = Setting(key: string, value: string)

  datatype Section = Section(name: string, options: map<string, string>, order: seq<string>)

  const GLOBAL := "global"
  const NAME_CUT := {' ', '[', ']'}
  const OPTION_CUT := {' '}

  // ----- strings.Trim and strings.Index -----

  function TrimStart(s: string, cut: set<char>): (r: string)
    ensures |r| <= |s|
    ensures r == s <==> s == "" || s[0] !in cut
    ensures forall c <- r :: c in s
  {
    if s != "" && s[0] in cut then TrimStart(s[1..], cut) else s
  }

  function TrimEnd(s: string, cut: set<char>): (r: string)
    ensures |r| <= |s|
    ensures r == s <==> s == "" || s[|s| - 1] !in cut
    ensures forall c <- r :: c in s
    ensures r != "" && s[0] !in cut ==> r[0] == s[0]
  {
    if s != "" && s[|s| - 1] in cut then TrimEnd(s[..|s| - 1], cut) else s
  }

  function Trim(s: string, cut: set<char>): (r: string)
    ensures |r| <= |s|
    ensures forall c <- r :: c in s
  {
    TrimEnd(TrimStart(s, cut), cut)
  }

  predicate Trimmed(s: string, cut: set<char>)
  {
    s == "" || (s[0] !in cut && s[|s| - 1] !in cut)
  }

  lemma TrimKeeps(s: string, cut: set<char>)
    ensures Trim(s, cut) == s <==> Trimmed(s, cut)
  {
  }

  /** The position of the first c, or the length if there is none. */
  function Index(s: string, c: char): (i: nat)
    ensures i <= |s| && (i < |s| ==> s[i] == c)
    ensures forall j :: 0 <= j < i ==> s[j] != c
    ensures i == |s| <==> c !in s
  {
    if s == "" || s[0] == c then 0 else 1 + Index(s[1..], c)
  }

  // ----- Reading -----

  predicate Skipped(line: string) { line == "" || line[0] == '#' || line[0] == ';' }

  predicate IsSection(line: string) { line != "" && line[0] == '[' }

  predicate IsOption(line: string) { !Skipped(line) && !IsSection(line) }

  function ParseOption(line: string): Setting
  {
    if '=' in line then Split(line, Index(line, '='))
    else if ':' in line then Split(line, Index(line, ':'))
    else Setting(line, "")
  }

  function Split(line: string, i: nat): Setting
    requires i < |line|
  {
    Setting(Trim(line[..i], OPTION_CUT), Trim(line[i + 1..], OPTION_CUT))
  }

  function NewSection(name: string): Section { Section(name, map[], []) }

  function AddOption(s: Section, o: Setting): Section
  {
    s.(options := s.options[o.key := o.value], order := s.order + [o.key])
  }

  /** The sections after one more line; the last one is the active one. */
  function ReadLine(sections: seq<Section>, line: string): (r: seq<Section>)
    requires sections != []
    ensures r != []
  {
    var n := |sections| - 1;
    if Skipped(line) then sections
    else if IsSection(line) then sections + [NewSection(Trim(line, NAME_CUT))]
    else sections[..n] + [AddOption(sections[n], ParseOption(line))]
  }

  function ReadLines(sections: seq<Section>, lines: seq<string>): (r: seq<Section>)
    requires sections != []
    ensures r != []
  {
    if lines == [] then sections
    else ReadLine(ReadLines(sections, lines[..|lines| - 1]), lines[|lines| - 1])
  }

  function DropReturn(line: string): (r: string)
    ensures |r| <= |line| && (r == line <==> line == "" || line[|line| - 1] != '\r')
    ensures forall c <- r :: c in line
  {
    if line != "" && line[|line| - 1] == '\r' then line[..|line| - 1] else line
  }

  /** bufio.ScanLines: lines end with LF, and one CR before it is dropped. */
  function ScanLines(text: string): seq<string>
    decreases |text|
  {
    if text == "" then []
    else
      var i := Index(text, '\n');
      [DropReturn(text[..i])] + if i == |text| then [] else ScanLines(text[i + 1..])
  }

  function ReadText(text: string): (r: seq<Section>)
    ensures r != []
  {
    ReadLines([NewSection(GLOBAL)], ScanLines(text))
  }

  // ----- Saving -----

  function Lookup(m: map<string, string>, key: string): string
  {
    if key in m then m[key] else ""
  }

  function OptionLine(o: Setting): string
  {
    if o.value != "" then o.key + "=" + o.value else o.key
  }

  function OptionAt(s: Section, i: nat): Setting
    requires i < |s.order|
  {
    Setting(s.order[i], Lookup(s.options, s.order[i]))
  }

  function OptionLines(s: Section, n: nat): (lines: seq<string>)
    requires n <= |s.order|
    ensures |lines| == n
  {
    seq(n, i requires 0 <= i < n => OptionLine(OptionAt(s, i)))
  }

  function Header(s: Section): seq<string>
  {
    if s.name == GLOBAL then [] else ["[" + s.name + "]"]
  }

  function SectionLines(s: Section): seq<string>
  {
    Header(s) + OptionLines(s, |s.order|)
  }

  function Unlines(lines: seq<string>): string
  {
    if lines == [] then "" else lines[0] + "\n" + Unlines(lines[1..])
  }

  /** Every section is followed by an empty line. */
  function SaveLines(sections: seq<Section>): seq<string>
  {
    if sections == [] then []
    else SaveLines(sections[..|sections| - 1]) + SectionLines(sections[|sections| - 1]) + [""]
  }

  function SaveText(sections: seq<Section>): string
  {
    Unlines(SaveLines(sections))
  }

  // ----- When an option survives -----

  predicate OneLine(s: string) { '\n' !in s }

  predicate StartsOption(key: string) { key == "" || (key[0] != '#' && key[0] != ';' && key[0] != '[') }

  predicate EndsLine(s: string) { s == "" || s[|s| - 1] != '\r' }

  predicate OptionSurvives(o: Setting)
  {
    && OneLine(o.key) && OneLine(o.value)
    && StartsOption(o.key)
    && '=' !in o.key
    && (if o.value != "" then
          Trimmed(o.key, OPTION_CUT) && Trimmed(o.value, OPTION_CUT) && EndsLine(o.value)
        else
          o.key != "" && ':' !in o.key && EndsLine(o.key))
  }

  lemma IndexConcat(a: string, c: char, b: string)
    requires c !in a
    ensures Index(a + [c] + b, c) == |a|
  {
    var s := a + [c] + b;
    assert s[|a|] == c;
    assert forall j :: 0 <= j < |a| ==> s[j] == a[j];
  }

  lemma ParseWritten(key: string, value: string)
    requires '=' !in key
    ensures ParseOption(key + "=" + value) == Setting(Trim(key, OPTION_CUT), Trim(value, OPTION_CUT))
  {
    var line := key + "=" + value;
    IndexConcat(key, '=', value);
    assert line[..|key|] == key && line[|key| + 1..] == value;
    assert line[|key|] == '=';
  }

  lemma StartsWritten(key: string, value: string)
    ensures IsOption(key + "=" + value) <==> StartsOption(key)
  {
    assert key != "" ==> (key + "=" + value)[0] == key[0];
  }

  lemma ValueSurvivesIff(key: string, value: string)
    requires '=' !in key && value != ""
    ensures var line := DropReturn(key + "=" + value);
            IsOption(line) && ParseOption(line) == Setting(key, value) <==>
            StartsOption(key) && Trimmed(key, OPTION_CUT) && Trimmed(value, OPTION_CUT) && EndsLine(value)
  {
    var seen := DropReturn(value);
    assert DropReturn(key + "=" + value) == key + "=" + seen;
    ParseWritten(key, seen);
    StartsWritten(key, seen);
    TrimKeeps(key, OPTION_CUT);
    TrimKeeps(value, OPTION_CUT);
  }

  /** Exactly when an option is read back from the line that it is written on. */
  lemma OptionSurvivesIff(o: Setting)
    requires OneLine(o.key) && OneLine(o.value)
    ensures var line := DropReturn(OptionLine(o));
            OptionSurvives(o) <==> IsOption(line) && ParseOption(line) == o
  {
    if o.value == "" {
      ShorterKey(DropReturn(o.key));
    } else if '=' in o.key {
      KeyBefore(o.key, o.value);
    } else {
      ValueSurvivesIff(o.key, o.value);
    }
  }

  lemma ShorterKey(line: string)
    ensures '=' in line || ':' in line ==> |ParseOption(line).key| < |line|
  {
  }

  lemma KeyBefore(key: string, value: string)
    requires '=' in key
    ensures |ParseOption(DropReturn(key + "=" + value)).key| < |key|
  {
    var line := DropReturn(key + "=" + value);
    var k := Index(key, '=');
    assert line[k] == '=';
  }

  // ----- Lines that are written are seen again when the text is read -----

  /** The lines as the scanner returns them. */
  function Seen(lines: seq<string>): (r: seq<string>)
    ensures |r| == |lines|
  {
    seq(|lines|, i requires 0 <= i < |lines| => DropReturn(lines[i]))
  }

  predicate AllOneLine(lines: seq<string>) { forall i :: 0 <= i < |lines| ==> OneLine(lines[i]) }

  lemma AllOneLineConcat(a: seq<string>, b: seq<string>)
    requires AllOneLine(a) && AllOneLine(b)
    ensures AllOneLine(a + b)
  {
  }

  lemma ScanNext(text: string, line: string, rest: string)
    requires OneLine(line) && text == line + "\n" + rest
    ensures ScanLines(text) == [DropReturn(line)] + ScanLines(rest)
  {
    IndexConcat(line, '\n', rest);
    assert text[..|line|] == line;
    assert text[|line| + 1..] == rest;
  }

  lemma SeenFirst(lines: seq<string>)
    requires lines != []
    ensures Seen(lines) == [DropReturn(lines[0])] + Seen(lines[1..])
  {
  }

  lemma {:induction false} ScanUnlines(lines: seq<string>)
    requires AllOneLine(lines)
    ensures ScanLines(Unlines(lines)) == Seen(lines)
  {
    if lines != [] {
      ScanNext(Unlines(lines), lines[0], Unlines(lines[1..]));
      ScanUnlines(lines[1..]);
      SeenFirst(lines);
    }
  }

  lemma FirstLine(text: string)
    ensures OneLine(DropReturn(text[..Index(text, '\n')]))
  {
  }

  lemma ScanFirst(text: string, k: nat)
    requires text != "" && k == Index(text, '\n')
    ensures ScanLines(text) == [DropReturn(text[..k])] + if k == |text| then [] else ScanLines(text[k + 1..])
  {
  }

  lemma {:induction false} ScanOneLine(text: string)
    ensures AllOneLine(ScanLines(text))
    decreases |text|
  {
    if text != "" {
      var k := Index(text, '\n');
      FirstLine(text);
      ScanFirst(text, k);
      var rest := if k == |text| then [] else ScanLines(text[k + 1..]);
      if k < |text| {
        ScanOneLine(text[k + 1..]);
      }
      AllOneLineConcat([DropReturn(text[..k])], rest);
    }
  }

  // ----- Reading lines in parts -----

  lemma {:induction false} ReadConcat(sections: seq<Section>, a: seq<string>, b: seq<string>)
    requires sections != []
    ensures ReadLines(sections, a + b) == ReadLines(ReadLines(sections, a), b)
  {
    if b == [] {
      assert a + b == a;
    } else {
      var n := |b| - 1;
      assert (a + b)[..|a| + n] == a + b[..n];
      ReadConcat(sections, a, b[..n]);
    }
  }

  /** A section with the options of some more lines. */
  function AddLines(s: Section, lines: seq<string>): (r: Section)
    ensures r.name == s.name && |r.order| == |s.order| + |lines|
  {
    if lines == [] then s
    else AddOption(AddLines(s, lines[..|lines| - 1]), ParseOption(lines[|lines| - 1]))
  }

  predicate AllOptions(lines: seq<string>) { forall i :: 0 <= i < |lines| ==> IsOption(lines[i]) }

  lemma {:induction false} ReadOptions(sections: seq<Section>, s: Section, lines: seq<string>)
    requires AllOptions(lines)
    ensures ReadLines(sections + [s], lines) == sections + [AddLines(s, lines)]
  {
    if lines != [] {
      var n := |lines| - 1;
      ReadOptions(sections, s, lines[..n]);
      var added := AddLines(s, lines[..n]);
      assert (sections + [added])[..|sections|] == sections;
    }
  }

  // ----- One section, written and read -----

  function SeenOptions(s: Section): (lines: seq<string>)
    ensures |lines| == |s.order|
  {
    Seen(OptionLines(s, |s.order|))
  }

  function ReadName(name: string): string
  {
    if name == GLOBAL then GLOBAL else Trim("[" + name + "]", NAME_CUT)
  }

  /** What is read for the section where its lines are written. */
  function Reread(s: Section): Section
  {
    AddLines(NewSection(ReadName(s.name)), SeenOptions(s))
  }

  function SeenSection(s: Section): seq<string>
  {
    Seen(Header(s)) + SeenOptions(s) + [""]
  }

  lemma ReadBlank(sections: seq<Section>)
    requires sections != []
    ensures ReadLines(sections, [""]) == sections
  {
    assert ReadLines(sections, [""][..0]) == sections;
  }

  lemma ReadHeader(sections: seq<Section>, name: string)
    requires sections != [] && name != GLOBAL
    ensures ReadLines(sections, Seen(["[" + name + "]"])) == sections + [NewSection(ReadName(name))]
  {
    var line := "[" + name + "]";
    assert DropReturn(line) == line;
    assert Seen([line]) == [line];
    assert ReadLines(sections, [line][..0]) == sections;
  }

  lemma ReadSection(sections: seq<Section>, s: Section)
    requires AllOptions(SeenOptions(s))
    ensures s.name != GLOBAL && sections != [] ==> ReadLines(sections, SeenSection(s)) == sections + [Reread(s)]
    ensures s.name == GLOBAL ==> ReadLines([NewSection(GLOBAL)], SeenSection(s)) == [Reread(s)]
  {
    var options := SeenOptions(s);
    if s.name == GLOBAL {
      assert Seen(Header(s)) + options == options;
      ReadConcat([NewSection(GLOBAL)], options, [""]);
      assert [] + [NewSection(GLOBAL)] == [NewSection(GLOBAL)];
      ReadOptions([], NewSection(GLOBAL), options);
      ReadBlank([Reread(s)]);
    } else if sections != [] {
      var started := sections + [NewSection(ReadName(s.name))];
      ReadHeader(sections, s.name);
      ReadConcat(sections, Seen(Header(s)), options);
      ReadOptions(sections, NewSection(ReadName(s.name)), options);
      ReadConcat(sections, Seen(Header(s)) + options, [""]);
      ReadBlank(sections + [Reread(s)]);
    }
  }

  // ----- All sections -----

  predicate LeadingGlobal(sections: seq<Section>)
  {
    && sections != [] && sections[0].name == GLOBAL
    && forall i :: 0 < i < |sections| ==> sections[i].name != GLOBAL
  }

  function SeenLines(sections: seq<Section>): seq<string>
  {
    if sections == [] then []
    else SeenLines(sections[..|sections| - 1]) + SeenSection(sections[|sections| - 1])
  }

  lemma SeenConcat(a: seq<string>, b: seq<string>)
    ensures Seen(a + b) == Seen(a) + Seen(b)
  {
  }

  lemma {:induction false} SeenOfSaveLines(sections: seq<Section>)
    ensures Seen(SaveLines(sections)) == SeenLines(sections)
  {
    if sections != [] {
      var init, last := sections[..|sections| - 1], sections[|sections| - 1];
      SeenOfSaveLines(init);
      SeenConcat(Header(last), OptionLines(last, |last.order|));
      SeenConcat(SaveLines(init), SectionLines(last));
      SeenConcat(SaveLines(init) + SectionLines(last), [""]);
      assert Seen([""]) == [""];
      assert SeenLines(init) + (Seen(Header(last)) + SeenOptions(last) + [""])
          == SeenLines(init) + (Seen(Header(last)) + SeenOptions(last)) + [""];
    }
  }

  function Rereads(sections: seq<Section>): (r: seq<Section>)
    ensures |r| == |sections|
  {
    seq(|sections|, i requires 0 <= i < |sections| => Reread(sections[i]))
  }

  /** Every line that is written for an option is seen as one. */
  predicate AllSeen(sections: seq<Section>)
  {
    forall i :: 0 <= i < |sections| ==> AllOptions(SeenOptions(sections[i]))
  }

  lemma AllSeenLast(sections: seq<Section>, init: seq<Section>, last: Section)
    requires sections == init + [last]
    ensures AllSeen(sections) <==> AllSeen(init) && AllOptions(SeenOptions(last))
  {
    if AllSeen(sections) {
      assert sections[|init|] == last;
      forall i | 0 <= i < |init|
        ensures AllOptions(SeenOptions(init[i]))
      {
        assert sections[i] == init[i];
      }
    }
  }

  lemma RereadsMore(init: seq<Section>, last: Section)
    ensures Rereads(init + [last]) == Rereads(init) + [Reread(last)]
  {
  }

  lemma ReadNextSection(init: seq<Section>, last: Section, lines: seq<string>, seen: seq<string>)
    requires init != [] && last.name != GLOBAL && AllOptions(SeenOptions(last)) && seen == SeenSection(last)
    requires ReadLines([NewSection(GLOBAL)], lines) == Rereads(init)
    ensures ReadLines([NewSection(GLOBAL)], lines + seen) == Rereads(init + [last])
  {
    ReadSection(Rereads(init), last);
    ReadConcat([NewSection(GLOBAL)], lines, seen);
    RereadsMore(init, last);
  }

  /** With one global section in front, and every option line seen as one, sections are read one by one. */
  lemma {:induction false} ReadSeenLines(sections: seq<Section>)
    requires LeadingGlobal(sections) && AllSeen(sections)
    ensures ReadLines([NewSection(GLOBAL)], SeenLines(sections)) == Rereads(sections)
  {
    var init, last := sections[..|sections| - 1], sections[|sections| - 1];
    if init == [] {
      ReadSection([], last);
      assert SeenLines(init) + SeenSection(last) == SeenSection(last);
      assert Rereads(sections) == [Reread(last)];
    } else {
      LastNamed(sections, init, last);
      ReadSeenLines(init);
      ReadNextSection(init, last, SeenLines(init), SeenSection(last));
    }
  }

  lemma LastNamed(sections: seq<Section>, init: seq<Section>, last: Section)
    requires LeadingGlobal(sections) && AllSeen(sections)
    requires init == sections[..|sections| - 1] != [] && last == sections[|sections| - 1]
    ensures LeadingGlobal(init) && AllSeen(init) && last.name != GLOBAL && AllOptions(SeenOptions(last))
    ensures sections == init + [last]
  {
    AllSeenLast(init + [last], init, last);
    assert sections == init + [last];
  }

  // ----- When a section survives -----

  predicate SameKeys(s: Section)
  {
    (forall k <- s.options :: k in s.order) && (forall k <- s.order :: k in s.options)
  }

  predicate SectionSurvives(s: Section)
  {
    && OneLine(s.name) && Trimmed(s.name, NAME_CUT)
    && (forall i :: 0 <= i < |s.order| ==> OptionSurvives(OptionAt(s, i)))
    && SameKeys(s)
  }

  /** Nothing in the section contains a line feed. */
  predicate OneLines(s: Section)
  {
    && OneLine(s.name)
    && (forall k <- s.order :: OneLine(k))
    && (forall k <- s.options :: OneLine(s.options[k]))
  }

  lemma {:induction false} TrimStartFirst(s: string, cut: set<char>)
    ensures TrimStart(s, cut) == "" || TrimStart(s, cut)[0] !in cut
  {
    if s != "" && s[0] in cut {
      TrimStartFirst(s[1..], cut);
    }
  }

  lemma {:induction false} TrimEndLast(s: string, cut: set<char>)
    ensures TrimEnd(s, cut) == "" || TrimEnd(s, cut)[|TrimEnd(s, cut)| - 1] !in cut
  {
    if s != "" && s[|s| - 1] in cut {
      TrimEndLast(s[..|s| - 1], cut);
    }
  }

  lemma TrimTrims(s: string, cut: set<char>)
    ensures Trimmed(Trim(s, cut), cut)
  {
    TrimStartFirst(s, cut);
    TrimEndLast(TrimStart(s, cut), cut);
  }

  lemma NameSurvivesIff(name: string)
    ensures ReadName(name) == name <==> Trimmed(name, NAME_CUT)
  {
    if name != GLOBAL {
      var header := "[" + name + "]";
      TrimTrims(header, NAME_CUT);
      assert header[1..] == name + "]";
      if name != "" && Trimmed(name, NAME_CUT) {
        assert (name + "]")[..|name|] == name;
        assert TrimStart(header, NAME_CUT) == name + "]";
      } else if name == "" {
        assert header[1..][1..] == "";
      }
    }
  }

  /** The keys come in the order of the lines, and for each key some line with it has its value. */
  ghost predicate AddedFrom(r: Section, lines: seq<string>)
  {
    && |r.order| == |lines|
    && (forall i :: 0 <= i < |lines| ==> r.order[i] == ParseOption(lines[i]).key)
    && SameKeys(r)
    && (forall k <- r.options :: SomeLine(lines, Setting(k, r.options[k])))
  }

  ghost predicate SomeLine(lines: seq<string>, o: Setting)
  {
    exists i :: 0 <= i < |lines| && ParseOption(lines[i]) == o
  }

  lemma SomeLineMore(lines: seq<string>, line: string, o: Setting)
    ensures SomeLine(lines, o) ==> SomeLine(lines + [line], o)
    ensures SomeLine(lines + [line], ParseOption(line))
  {
    var more := lines + [line];
    assert more[|lines|] == line;
    if i :| 0 <= i < |lines| && ParseOption(lines[i]) == o {
      assert more[i] == lines[i];
    }
  }

  lemma AddedNext(r: Section, lines: seq<string>, line: string)
    requires AddedFrom(r, lines)
    ensures AddedFrom(AddOption(r, ParseOption(line)), lines + [line])
  {
    var o := ParseOption(line);
    var r' := AddOption(r, o);
    forall k | k in r'.options
      ensures SomeLine(lines + [line], Setting(k, r'.options[k]))
    {
      SomeLineMore(lines, line, Setting(k, r'.options[k]));
    }
  }

  lemma {:induction false} AddedLines(name: string, lines: seq<string>)
    ensures AddedFrom(AddLines(NewSection(name), lines), lines)
  {
    if lines != [] {
      var init, last := lines[..|lines| - 1], lines[|lines| - 1];
      assert lines == init + [last];
      AddedLines(name, init);
      AddedNext(AddLines(NewSection(name), init), init, last);
    }
  }

  lemma SeenOption(s: Section, i: nat)
    requires i < |s.order|
    ensures SeenOptions(s)[i] == DropReturn(OptionLine(OptionAt(s, i)))
  {
  }

  /** Each line of the section is read as the option that it was written for. */
  ghost predicate LinesMatch(s: Section)
  {
    forall i :: 0 <= i < |s.order| ==> ParseOption(SeenOptions(s)[i]) == OptionAt(s, i)
  }

  lemma SameSection(s: Section, t: Section)
    requires s.name == t.name && |s.order| == |t.order| && (forall i :: 0 <= i < |s.order| ==> s.order[i] == t.order[i])
    requires SameKeys(s) && SameKeys(t) && forall k <- s.options :: k in t.options ==> s.options[k] == t.options[k]
    ensures s == t
  {
    assert s.order == t.order;
    assert s.options == t.options;
  }

  lemma RereadIff(s: Section)
    ensures Reread(s) == s <==> ReadName(s.name) == s.name && LinesMatch(s) && SameKeys(s)
  {
    var lines, r := SeenOptions(s), Reread(s);
    AddedLines(ReadName(s.name), lines);
    if r == s {
      forall i | 0 <= i < |s.order|
        ensures ParseOption(lines[i]) == OptionAt(s, i)
      {
        var k := s.order[i];
        assert SomeLine(lines, Setting(k, r.options[k]));
        var j :| 0 <= j < |lines| && ParseOption(lines[j]) == Setting(k, r.options[k]);
        SeenOption(s, i);
        SeenOption(s, j);
        assert r.order[j] == k;
      }
    } else if ReadName(s.name) == s.name && LinesMatch(s) && SameKeys(s) {
      forall k | k in r.options && k in s.options
        ensures r.options[k] == s.options[k]
      {
        assert SomeLine(lines, Setting(k, r.options[k]));
        var j :| 0 <= j < |lines| && ParseOption(lines[j]) == Setting(k, r.options[k]);
        assert OptionAt(s, j) == Setting(k, r.options[k]);
      }
      SameSection(r, s);
    }
  }

  /** Exactly when a section is read back from its lines, and all of them are read as options. */
  lemma SectionSurvivesIff(s: Section)
    requires OneLines(s)
    ensures SectionSurvives(s) <==> AllOptions(SeenOptions(s)) && Reread(s) == s
  {
    RereadIff(s);
    NameSurvivesIff(s.name);
    forall i | 0 <= i < |s.order|
      ensures OptionSurvives(OptionAt(s, i)) <==>
              IsOption(SeenOptions(s)[i]) && ParseOption(SeenOptions(s)[i]) == OptionAt(s, i)
    {
      assert s.order[i] in s.order;
      SeenOption(s, i);
      OptionSurvivesIff(OptionAt(s, i));
    }
  }

  // ----- What is read contains no line feed -----

  lemma ParsedOneLine(line: string)
    requires OneLine(line)
    ensures OneLine(ParseOption(line).key) && OneLine(ParseOption(line).value)
  {
  }

  predicate AllOneLines(sections: seq<Section>) { forall k :: 0 <= k < |sections| ==> OneLines(sections[k]) }

  lemma OptionOneLines(s: Section, o: Setting)
    requires OneLines(s) && OneLine(o.key) && OneLine(o.value)
    ensures OneLines(AddOption(s, o))
  {
  }

  lemma ReadLineOneLines(sections: seq<Section>, line: string)
    requires sections != [] && AllOneLines(sections) && OneLine(line)
    ensures AllOneLines(ReadLine(sections, line))
  {
    ParsedOneLine(line);
    OptionOneLines(sections[|sections| - 1], ParseOption(line));
  }

  lemma {:induction false} ReadOneLines(sections: seq<Section>, lines: seq<string>)
    requires sections != [] && AllOneLines(sections) && AllOneLine(lines)
    ensures AllOneLines(ReadLines(sections, lines))
  {
    if lines != [] {
      ReadOneLines(sections, lines[..|lines| - 1]);
      ReadLineOneLines(ReadLines(sections, lines[..|lines| - 1]), lines[|lines| - 1]);
    }
  }

  // ----- Counting what is read against what was written -----

  function OptionCount(sections: seq<Section>): nat
  {
    if sections == [] then 0
    else OptionCount(sections[..|sections| - 1]) + |sections[|sections| - 1].order|
  }

  function Options(lines: seq<string>): (n: nat)
    ensures n <= |lines|
  {
    if lines == [] then 0
    else Options(lines[..|lines| - 1]) + if IsOption(lines[|lines| - 1]) then 1 else 0
  }

  function Headers(lines: seq<string>): nat
  {
    if lines == [] then 0
    else Headers(lines[..|lines| - 1]) + if IsSection(lines[|lines| - 1]) then 1 else 0
  }

  /** The sections that are written with a header. */
  function Named(sections: seq<Section>): (n: nat)
    ensures n <= |sections|
  {
    if sections == [] then 0
    else Named(sections[..|sections| - 1]) + if sections[|sections| - 1].name != GLOBAL then 1 else 0
  }

  lemma OptionCountLast(init: seq<Section>, s: Section)
    ensures OptionCount(init + [s]) == OptionCount(init) + |s.order|
  {
    assert (init + [s])[..|init|] == init;
  }

  lemma ReadLineCounts(sections: seq<Section>, line: string)
    requires sections != []
    ensures |ReadLine(sections, line)| == |sections| + if IsSection(line) then 1 else 0
    ensures OptionCount(ReadLine(sections, line)) == OptionCount(sections) + if IsOption(line) then 1 else 0
    ensures ReadLine(sections, line)[0].name == sections[0].name
  {
    var n := |sections| - 1;
    OptionCountLast(sections[..n], AddOption(sections[n], ParseOption(line)));
    OptionCountLast(sections, NewSection(Trim(line, NAME_CUT)));
  }

  lemma {:induction false} ReadCounts(sections: seq<Section>, lines: seq<string>)
    requires sections != []
    ensures |ReadLines(sections, lines)| == |sections| + Headers(lines)
    ensures OptionCount(ReadLines(sections, lines)) == OptionCount(sections) + Options(lines)
    ensures ReadLines(sections, lines)[0].name == sections[0].name
  {
    if lines != [] {
      ReadCounts(sections, lines[..|lines| - 1]);
      ReadLineCounts(ReadLines(sections, lines[..|lines| - 1]), lines[|lines| - 1]);
    }
  }

  lemma {:induction false} CountsConcat(a: seq<string>, b: seq<string>)
    ensures Options(a + b) == Options(a) + Options(b)
    ensures Headers(a + b) == Headers(a) + Headers(b)
  {
    if b == [] {
      assert a + b == a;
    } else {
      var n := |b| - 1;
      assert (a + b)[..|a| + n] == a + b[..n];
      CountsConcat(a, b[..n]);
    }
  }

  lemma {:induction false} AllCounted(lines: seq<string>)
    ensures Options(lines) == |lines| ==> AllOptions(lines)
    ensures AllOptions(lines) ==> Headers(lines) == 0
  {
    if lines != [] {
      AllCounted(lines[..|lines| - 1]);
    }
  }

  lemma SectionCounts(s: Section)
    ensures Options(SeenSection(s)) <= |s.order|
    ensures Options(SeenSection(s)) == |s.order| ==> AllOptions(SeenOptions(s))
    ensures AllOptions(SeenOptions(s)) ==> Headers(SeenSection(s)) == if s.name == GLOBAL then 0 else 1
  {
    var header, options := Seen(Header(s)), SeenOptions(s);
    CountsConcat(header + options, [""]);
    CountsConcat(header, options);
    AllCounted(options);
    assert [""][..0] == [];
    assert Options([""]) == 0 && Headers([""]) == 0;
    if s.name != GLOBAL {
      assert header == ["[" + s.name + "]"];
      assert header[..0] == [];
      assert Options(header) == 0 && Headers(header) == 1;
    }
  }

  lemma SavedCountsLast(sections: seq<Section>, init: seq<Section>, last: Section)
    requires sections == init + [last]
    ensures Options(SeenLines(sections)) == Options(SeenLines(init)) + Options(SeenSection(last))
    ensures Headers(SeenLines(sections)) == Headers(SeenLines(init)) + Headers(SeenSection(last))
    ensures OptionCount(sections) == OptionCount(init) + |last.order|
    ensures Named(sections) == Named(init) + if last.name != GLOBAL then 1 else 0
  {
    assert sections[..|sections| - 1] == init;
    CountsConcat(SeenLines(init), SeenSection(last));
  }

  lemma {:induction false} SavedCounts(sections: seq<Section>)
    ensures Options(SeenLines(sections)) <= OptionCount(sections)
    ensures Options(SeenLines(sections)) == OptionCount(sections) ==> AllSeen(sections)
    ensures AllSeen(sections) ==> Headers(SeenLines(sections)) == Named(sections)
  {
    if sections != [] {
      var init, last := sections[..|sections| - 1], sections[|sections| - 1];
      assert sections == init + [last];
      SavedCounts(init);
      SectionCounts(last);
      SavedCountsLast(sections, init, last);
      AllSeenLast(sections, init, last);
    }
  }

  lemma {:induction false} OnlyFirstUnnamed(sections: seq<Section>)
    requires sections != [] && sections[0].name == GLOBAL
    ensures Named(sections) <= |sections| - 1
    ensures Named(sections) == |sections| - 1 ==> LeadingGlobal(sections)
  {
    if |sections| > 1 {
      OnlyFirstUnnamed(sections[..|sections| - 1]);
    }
  }

  // ----- The round trip -----

  /** One global section in front, and every section survives. */
  predicate Survives(sections: seq<Section>)
  {
    LeadingGlobal(sections) && forall i :: 0 <= i < |sections| ==> SectionSurvives(sections[i])
  }

  lemma SectionOneLine(s: Section)
    requires OneLines(s)
    ensures AllOneLine(SectionLines(s) + [""])
  {
    forall i | 0 <= i < |s.order|
      ensures OneLine(OptionLine(OptionAt(s, i)))
    {
      assert s.order[i] in s.order;
    }
    assert AllOneLine(Header(s));
    assert AllOneLine(OptionLines(s, |s.order|));
    AllOneLineConcat(Header(s), OptionLines(s, |s.order|));
    AllOneLineConcat(SectionLines(s), [""]);
  }

  lemma {:induction false} SavedOneLine(sections: seq<Section>)
    requires forall i :: 0 <= i < |sections| ==> OneLines(sections[i])
    ensures AllOneLine(SaveLines(sections))
  {
    if sections != [] {
      var init, last := sections[..|sections| - 1], sections[|sections| - 1];
      SavedOneLine(init);
      SectionOneLine(last);
      AllOneLineConcat(SaveLines(init), SectionLines(last) + [""]);
      assert SaveLines(sections) == SaveLines(init) + (SectionLines(last) + [""]);
    }
  }

  lemma ReadSaved(sections: seq<Section>)
    requires forall i :: 0 <= i < |sections| ==> OneLines(sections[i])
    ensures ReadText(SaveText(sections)) == ReadLines([NewSection(GLOBAL)], SeenLines(sections))
  {
    SavedOneLine(sections);
    ScanUnlines(SaveLines(sections));
    SeenOfSaveLines(sections);
  }

  lemma SurvivorsOneLines(s: Section)
    requires SectionSurvives(s)
    ensures OneLines(s)
  {
    forall k | k in s.order
      ensures OneLine(k) && OneLine(Lookup(s.options, k))
    {
      var i :| 0 <= i < |s.order| && s.order[i] == k;
      assert OptionSurvives(OptionAt(s, i));
    }
  }

  /** What survives is read back as it was saved. */
  lemma SurvivorsReadBack(sections: seq<Section>)
    requires Survives(sections)
    ensures ReadText(SaveText(sections)) == sections
  {
    forall i | 0 <= i < |sections|
      ensures OneLines(sections[i]) && AllOptions(SeenOptions(sections[i])) && Reread(sections[i]) == sections[i]
    {
      SurvivorsOneLines(sections[i]);
      SectionSurvivesIff(sections[i]);
    }
    ReadSaved(sections);
    ReadSeenLines(sections);
    assert Rereads(sections) == sections;
  }

  /** What is read back as it was saved survives. */
  lemma ReadBackSurvives(sections: seq<Section>)
    requires ReadText(SaveText(sections)) == sections
    ensures Survives(sections)
  {
    var first := [NewSection(GLOBAL)];
    var text := SaveText(sections);
    ScanOneLine(text);
    ReadOneLines(first, ScanLines(text));
    ReadSaved(sections);
    ReadCounts(first, SeenLines(sections));
    OptionCountLast([], NewSection(GLOBAL));
    SavedCounts(sections);
    OnlyFirstUnnamed(sections);
    ReadSeenLines(sections);
    forall i | 0 <= i < |sections|
      ensures SectionSurvives(sections[i])
    {
      assert Rereads(sections)[i] == sections[i];
      SectionSurvivesIff(sections[i]);
    }
  }

  /** Exactly when the sections of a configuration are read back as they were saved. */
  lemma SaveReadIff(sections: seq<Section>)
    ensures ReadText(SaveText(sections)) == sections <==> Survives(sections)
  {
    if ReadText(SaveText(sections)) == sections {
      ReadBackSurvives(sections);
    } else if Survives(sections) {
      SurvivorsReadBack(sections);
    }
  }
}