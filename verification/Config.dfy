/** Configurations of named sections with options: reading them, changing them, and saving them. */
module Config {
  import opened Wrappers
  import opened Grouping
  import T = ConfigText

  class Section {
    const fqn: string
    var options: map<string, string>
    var orderedOptions: seq<string>

    constructor (fqn: string)
      ensures this.fqn == fqn && Value() == T.NewSection(fqn)
    {
      this.fqn, options, orderedOptions := fqn, map[], [];
    }

    function Value(): T.Section
      reads this
    {
      T.Section(fqn, options, orderedOptions)
    }

    /** An option of its own, or a new value for one that is there already. */
    method Add(option: string, value: string) returns (oldValue: string)
      modifies this
      ensures oldValue == T.Lookup(old(options), option)
      ensures options == old(options)[option := value]
      ensures orderedOptions == old(orderedOptions) + if option in old(options) then [] else [option]
      ensures T.SameKeys(old(Value())) ==> T.SameKeys(Value())
    {
      oldValue := if option in options then options[option] else "";
      if option !in options {
        orderedOptions := orderedOptions + [option];
      }
      options := options[option := value];
    }

    /** An option line of a file; a key that comes twice is listed twice. */
    method AddOption(line: string)
      modifies this
      ensures var o := T.ParseOption(line);
              options == old(options)[o.key := o.value] && orderedOptions == old(orderedOptions) + [o.key]
    {
      var o := T.ParseOption(line);
      if o.value != "" {
        options := options[o.key := o.value];
      } else {
        options := options[o.key := ""];
      }
      orderedOptions := orderedOptions + [o.key];
    }

    method ToString() returns (text: string)
      ensures text == T.Unlines(T.SectionLines(Value()))
    {
      ghost var s := Value();
      text := if fqn == T.GLOBAL then "" else "[" + fqn + "]\n";
      FirstLine(s);
      for i := 0 to |orderedOptions|
        invariant text == T.Unlines(T.Header(s) + T.OptionLines(s, i))
      {
        var opt := orderedOptions[i];
        var value := if opt in options then options[opt] else "";
        NextLine(s, i, text);
        if value != "" {
          text := text + (opt + "=" + value) + "\n";
        } else {
          text := text + opt + "\n";
        }
      }
    }
  }

  lemma {:induction false} UnlinesConcat(a: seq<string>, b: seq<string>)
    ensures T.Unlines(a + b) == T.Unlines(a) + T.Unlines(b)
  {
    if a == [] {
      assert a + b == b;
    } else {
      UnlinesConcat(a[1..], b);
      assert (a + b)[1..] == a[1..] + b;
      assert a[0] + "\n" + (T.Unlines(a[1..]) + T.Unlines(b)) == a[0] + "\n" + T.Unlines(a[1..]) + T.Unlines(b);
    }
  }

  lemma UnlinesOne(line: string)
    ensures T.Unlines([line]) == line + "\n"
  {
    assert T.Unlines([line][1..]) == "";
    assert line + "\n" + "" == line + "\n";
  }

  lemma LinesNext(s: T.Section, i: nat)
    requires i < |s.order|
    ensures T.OptionLines(s, i + 1) == T.OptionLines(s, i) + [T.OptionLine(T.OptionAt(s, i))]
  {
  }

  lemma FirstLine(s: T.Section)
    ensures T.Unlines(T.Header(s) + T.OptionLines(s, 0)) == if s.name == T.GLOBAL then "" else "[" + s.name + "]\n"
  {
    NothingMore(T.Header(s));
    if s.name != T.GLOBAL {
      UnlinesOne("[" + s.name + "]");
      assert "[" + s.name + "]" + "\n" == "[" + s.name + "]\n";
    }
  }

  lemma NextLine(s: T.Section, i: nat, text: string)
    requires i < |s.order| && text == T.Unlines(T.Header(s) + T.OptionLines(s, i))
    ensures text + T.OptionLine(T.OptionAt(s, i)) + "\n" == T.Unlines(T.Header(s) + T.OptionLines(s, i + 1))
  {
    var lines, line := T.Header(s) + T.OptionLines(s, i), T.OptionLine(T.OptionAt(s, i));
    LinesNext(s, i);
    Reassociate(T.Header(s), T.OptionLines(s, i), [line]);
    UnlinesConcat(lines, [line]);
    UnlinesOne(line);
    Reassociate(text, line, "\n");
  }

  function Names(sections: seq<Section>): (r: seq<string>)
    ensures |r| == |sections|
  {
    seq(|sections|, i requires 0 <= i < |sections| => sections[i].fqn)
  }

  ghost function Values(sections: seq<Section>): (r: seq<T.Section>)
    reads sections
    ensures |r| == |sections|
  {
    if sections == [] then []
    else Values(sections[..|sections| - 1]) + [sections[|sections| - 1].Value()]
  }

  /** The sections are listed by name, and the names in the order in which they came. */
  ghost predicate Listed(sections: map<string, seq<Section>>, order: seq<string>, all: seq<Section>)
  {
    && order == FirstNames(Names(all))
    && (forall n :: n in sections <==> n in Names(all))
    && (forall n <- sections :: sections[n] == ByName(all, Names(all), n))
  }

  lemma ListedNext(sections: map<string, seq<Section>>, order: seq<string>, all: seq<Section>, s: Section)
    requires Listed(sections, order, all)
    ensures var before := if s.fqn in sections then sections[s.fqn] else [];
            Listed(sections[s.fqn := before + [s]], AddName(order, s.fqn), all + [s])
    ensures s.fqn in order <==> s.fqn in sections
  {
    var names, names' := Names(all), Names(all + [s]);
    FirstNamesAre(names);
    assert names' == names + [s.fqn];
    assert names'[..|names|] == names && (all + [s])[..|all|] == all;
    if s.fqn !in sections {
      NoneByName(all, names, s.fqn);
    }
    forall n | n in sections && n != s.fqn
      ensures sections[n] == ByName(all + [s], names', n)
    {
      assert sections[n] + [] == sections[n];
    }
  }

  class Configuration {
    var sections: map<string, seq<Section>>
    var orderedSections: seq<string>

    /** All sections in the order in which they were added. */
    ghost var all: seq<Section>

    ghost predicate Valid()
      reads this
    {
      && Listed(sections, orderedSections, all)
      && (forall i, j :: 0 <= i < j < |all| ==> all[i] != all[j])
    }

    /** The section that was added last. */
    ghost predicate Active(section: Section)
      reads this
    {
      Valid() && all != [] && section == all[|all| - 1]
    }

    constructor ()
      ensures Valid() && all == []
    {
      sections, orderedSections, all := map[], [], [];
    }

    method AddSection(fqn: string) returns (section: Section)
      requires Valid()
      modifies this
      ensures Valid() && fresh(section) && section.Value() == T.NewSection(fqn)
      ensures all == old(all) + [section]
    {
      section := new Section(fqn);
      ListedNext(sections, orderedSections, all, section);
      ghost var sections0 := sections;
      if fqn !in sections {
        sections := sections[fqn := []];
        orderedSections := orderedSections + [fqn];
      }
      sections := sections[fqn := sections[fqn] + [section]];
      assert sections == sections0[fqn := (if fqn in sections0 then sections0[fqn] else []) + [section]];
      all := all + [section];
    }

    /** All sections, those of one name together. */
    method AllSections() returns (r: seq<Section>)
      requires Valid()
      ensures r == Regroup(all, Names(all))
    {
      r := [];
      FirstNamesAre(Names(all));
      for i := 0 to |orderedSections|
        invariant r == Blocks(all, Names(all), orderedSections[..i])
      {
        var fqn := orderedSections[i];
        assert orderedSections[..i + 1][..i] == orderedSections[..i];
        if fqn in sections {
          r := r + sections[fqn];
        }
      }
      assert orderedSections[..|orderedSections|] == orderedSections;
    }
  }

  // ----- Saving and reading -----

  lemma {:induction false} ValuesAt(sections: seq<Section>, i: nat)
    requires i < |sections|
    ensures Values(sections)[i] == sections[i].Value()
  {
    if i < |sections| - 1 {
      ValuesAt(sections[..|sections| - 1], i);
    }
  }

  lemma ValuesNext(sections: seq<Section>, s: Section)
    ensures Values(sections + [s]) == Values(sections) + [s.Value()]
  {
    assert (sections + [s])[..|sections|] == sections;
  }

  method Save(c: Configuration) returns (text: string)
    requires c.Valid()
    ensures text == T.SaveText(Values(Regroup(c.all, Names(c.all))))
  {
    var s := c.AllSections();
    text := "";
    for i := 0 to |s|
      invariant Saved(s, i, text)
    {
      var v := s[i].ToString();
      NextSaved(s, i, text, v);
      text := text + v;
      text := text + "\n";
    }
    assert s[..|s|] == s;
  }

  lemma SaveTextMore(before: seq<T.Section>, last: T.Section)
    ensures T.SaveText(before + [last]) == T.SaveText(before) + T.Unlines(T.SectionLines(last)) + "\n"
  {
    assert (before + [last])[..|before|] == before;
    UnlinesConcat(T.SaveLines(before) + T.SectionLines(last), [""]);
    UnlinesConcat(T.SaveLines(before), T.SectionLines(last));
    UnlinesOne("");
    NothingBefore("\n");
  }

  /** The text of the first i sections. */
  ghost predicate Saved(s: seq<Section>, i: nat, text: string)
    reads s
  {
    i <= |s| && text == T.SaveText(Values(s[..i]))
  }

  lemma NextSaved(s: seq<Section>, i: nat, text: string, v: string)
    requires i < |s| && Saved(s, i, text) && v == T.Unlines(T.SectionLines(s[i].Value()))
    ensures Saved(s, i + 1, text + v + "\n")
  {
    assert s[..i + 1] == s[..i] + [s[i]];
    ValuesNext(s[..i], s[i]);
    SaveTextMore(Values(s[..i]), s[i].Value());
  }

  /** The lines of a file, one by one. */
  method Read(text: string) returns (config: Configuration)
    ensures fresh(config) && config.Valid()
    ensures Values(config.all) == T.ReadText(text)
  {
    config := new Configuration();
    var activeSection := config.AddSection(T.GLOBAL);
    ValuesNext([], activeSection);
    var lines := T.ScanLines(text);
    for i := 0 to |lines|
      invariant fresh(config) && fresh(activeSection) && config.Active(activeSection)
      invariant Values(config.all) == T.ReadLines([T.NewSection(T.GLOBAL)], lines[..i])
    {
      ReadLinesNext(lines, i);
      activeSection := ReadLine(config, activeSection, lines[i]);
    }
    assert lines[..|lines|] == lines;
  }

  lemma ReadLinesNext(lines: seq<string>, i: nat)
    requires i < |lines|
    ensures T.ReadLines([T.NewSection(T.GLOBAL)], lines[..i + 1]) ==
            T.ReadLine(T.ReadLines([T.NewSection(T.GLOBAL)], lines[..i]), lines[i])
  {
    assert lines[..i + 1][..i] == lines[..i];
  }

  /** One line of a file, for the section that is active. */
  method ReadLine(config: Configuration, activeSection: Section, line: string) returns (active: Section)
    requires config.Active(activeSection)
    modifies config, activeSection
    ensures config.Active(active) && (active == activeSection || fresh(active))
    ensures Values(config.all) == T.ReadLine(old(Values(config.all)), line)
  {
    active := activeSection;
    if !(line != "" && (line[0] == '#' || line[0] == ';')) && |line| > 0 {
      if T.IsSection(line) {
        var fqn := T.Trim(line, T.NAME_CUT);
        ghost var before := config.all;
        active := config.AddSection(fqn);
        ValuesNext(before, active);
      } else {
        AddToActive(config, active, line);
      }
    }
  }

  /** An option line goes to the section that is active, and no other section changes. */
  method AddToActive(config: Configuration, active: Section, line: string)
    requires config.Active(active) && T.IsOption(line)
    modifies active
    ensures config.Active(active)
    ensures Values(config.all) == T.ReadLine(old(Values(config.all)), line)
  {
    ghost var init := config.all[..|config.all| - 1];
    assert active !in init;
    active.AddOption(line);
    assert Values(init) == old(Values(init));
  }

  // ----- What was saved is read back -----

  function NamesOf(sections: seq<T.Section>): (r: seq<string>)
    ensures |r| == |sections|
  {
    seq(|sections|, i requires 0 <= i < |sections| => sections[i].name)
  }

  /** What a configuration shows: the order of its names, and the sections of each name. */
  ghost predicate SameConfiguration(a: seq<T.Section>, b: seq<T.Section>)
  {
    && FirstNames(NamesOf(a)) == FirstNames(NamesOf(b))
    && forall name :: ByName(a, NamesOf(a), name) == ByName(b, NamesOf(b), name)
  }

  lemma {:induction false} NamesOfByName(sections: seq<T.Section>, names: seq<string>, name: string)
    requires names == NamesOf(sections)
    ensures NamesOf(ByName(sections, names, name)) == ByName(names, names, name)
  {
    if sections != [] {
      var n := |sections| - 1;
      assert names[..n] == NamesOf(sections[..n]);
      NamesOfByName(sections[..n], names[..n], name);
      ByNameLength(sections[..n], names[..n], names[..n], name);
    }
  }

  lemma {:induction false} NamesOfBlocks(sections: seq<T.Section>, names: seq<string>, order: seq<string>)
    requires names == NamesOf(sections)
    ensures NamesOf(Blocks(sections, names, order)) == Blocks(names, names, order)
  {
    if order != [] {
      NamesOfBlocks(sections, names, order[..|order| - 1]);
      NamesOfByName(sections, names, order[|order| - 1]);
    }
  }

  /** AllSections shows the same configuration as the sections in the order of their coming. */
  lemma RegroupIsSame(sections: seq<T.Section>)
    ensures SameConfiguration(Regroup(sections, NamesOf(sections)), sections)
  {
    var names := NamesOf(sections);
    NamesOfBlocks(sections, names, FirstNames(names));
    RegroupKeeps(sections, names, "");
    forall name
      ensures ByName(Regroup(sections, names), Regroup(names, names), name) == ByName(sections, names, name)
    {
      RegroupKeeps(sections, names, name);
    }
  }

  function OptionWeight(): T.Section -> nat { (s: T.Section) => |s.order| }

  lemma {:induction false} OptionCountIsTotal(sections: seq<T.Section>)
    ensures T.OptionCount(sections) == Total(sections, OptionWeight())
  {
    if sections != [] {
      OptionCountIsTotal(sections[..|sections| - 1]);
    }
  }

  /** What a configuration saves has the same sections as the same configuration in another order. */
  lemma SameCounts(saved: seq<T.Section>, read: seq<T.Section>)
    requires saved == Regroup(read, NamesOf(read))
    ensures |saved| == |read| && T.OptionCount(saved) == T.OptionCount(read)
    ensures forall i :: 0 <= i < |saved| ==> saved[i] in read
  {
    RegroupTotal(read, NamesOf(read), OptionWeight());
    OptionCountIsTotal(saved);
    OptionCountIsTotal(read);
    RegroupTotal(read, NamesOf(read), _ => 1);
    TotalOnes(saved, _ => 1);
    TotalOnes(read, _ => 1);
    forall i | 0 <= i < |saved|
      ensures saved[i] in read
    {
      BlocksMember(read, NamesOf(read), FirstNames(NamesOf(read)), saved[i]);
    }
  }

  lemma SameIsRegrouped(sections: seq<T.Section>, read: seq<T.Section>)
    requires SameConfiguration(read, sections)
    ensures Regroup(sections, NamesOf(sections)) == Regroup(read, NamesOf(read))
  {
    BlocksSame(sections, NamesOf(sections), read, NamesOf(read), FirstNames(NamesOf(read)));
  }

  /** What is read back, if it is the same configuration, was written with every section and option seen. */
  lemma AllReadBack(saved: seq<T.Section>, read: seq<T.Section>)
    requires read == T.ReadText(T.SaveText(saved))
    requires saved == Regroup(read, NamesOf(read)) && FirstNames(NamesOf(saved)) == FirstNames(NamesOf(read))
    ensures T.LeadingGlobal(saved) && T.AllSeen(saved) && read == T.Rereads(saved)
  {
    var first := [T.NewSection(T.GLOBAL)];
    var text := T.SaveText(saved);
    SameCounts(saved, read);
    AllOneLines(saved, read, text);
    T.ReadSaved(saved);
    T.ReadCounts(first, T.SeenLines(saved));
    T.OptionCountLast([], T.NewSection(T.GLOBAL));
    T.SavedCounts(saved);
    FirstOfFirstNames(NamesOf(saved));
    FirstOfFirstNames(NamesOf(read));
    T.OnlyFirstUnnamed(saved);
    T.ReadSeenLines(saved);
  }

  lemma AllOneLines(saved: seq<T.Section>, read: seq<T.Section>, text: string)
    requires read == T.ReadText(text) && forall i :: 0 <= i < |saved| ==> saved[i] in read
    ensures forall i :: 0 <= i < |saved| ==> T.OneLines(saved[i])
  {
    T.ScanOneLine(text);
    T.ReadOneLines([T.NewSection(T.GLOBAL)], T.ScanLines(text));
  }

  lemma ReadNameTrimmed(name: string)
    ensures NameTrimmed(T.ReadName(name))
  {
    T.TrimTrims("[" + name + "]", T.NAME_CUT);
  }

  predicate NameTrimmed(name: string) { T.Trimmed(name, T.NAME_CUT) }

  /** The other half: what is read back as the same configuration survives. */
  lemma SameSurvives(sections: seq<T.Section>)
    requires var saved := Regroup(sections, NamesOf(sections));
             SameConfiguration(T.ReadText(T.SaveText(saved)), sections)
    ensures T.Survives(Regroup(sections, NamesOf(sections)))
  {
    var saved := Regroup(sections, NamesOf(sections));
    var read := T.ReadText(T.SaveText(saved));
    SameIsRegrouped(sections, read);
    RegroupIsSame(sections);
    AllReadBack(saved, read);
    SameCounts(saved, read);
    NamesReadBack(saved, read);
    SameByNames(saved, read, NamesOf(saved));
    T.ReadBackSurvives(saved);
  }

  lemma NamesReadBack(saved: seq<T.Section>, read: seq<T.Section>)
    requires read == T.Rereads(saved) && forall i :: 0 <= i < |saved| ==> saved[i] in read
    ensures NamesOf(saved) == NamesOf(read)
  {
    forall i | 0 <= i < |saved|
      ensures saved[i].name == read[i].name
    {
      var j :| 0 <= j < |read| && read[j] == saved[i];
      ReadNameTrimmed(saved[j].name);
      T.NameSurvivesIff(saved[i].name);
    }
  }

  /**
    * Saving the sections of a configuration and reading the text gives the same sections in the same
    * order if and only if they survive, and the same configuration if and only if they survive,
    * however the sections of the same name were spread over it.
    */
  lemma ConfigurationRoundTrip(sections: seq<T.Section>)
    ensures var saved := Regroup(sections, NamesOf(sections));
            && (T.ReadText(T.SaveText(saved)) == saved <==> T.Survives(saved))
            && (SameConfiguration(T.ReadText(T.SaveText(saved)), sections) <==> T.Survives(saved))
  {
    var saved := Regroup(sections, NamesOf(sections));
    T.SaveReadIff(saved);
    RegroupIsSame(sections);
    if SameConfiguration(T.ReadText(T.SaveText(saved)), sections) {
      SameSurvives(sections);
    }
  }

  /** The sections that are saved are the values of the sections, regrouped. */
  lemma {:induction false} ValuesByName(sections: seq<Section>, names: seq<string>, name: string)
    requires |names| == |sections|
    ensures Values(ByName(sections, names, name)) == ByName(Values(sections), names, name)
  {
    if sections != [] {
      var n := |sections| - 1;
      var before := ByName(sections[..n], names[..n], name);
      ValuesByName(sections[..n], names[..n], name);
      assert Values(sections)[..n] == Values(sections[..n]);
      assert (before + [sections[n]])[..|before|] == before;
      assert before + [] == before && Values(before) + [] == Values(before);
    }
  }

  lemma {:induction false} ValuesConcat(a: seq<Section>, b: seq<Section>)
    ensures Values(a + b) == Values(a) + Values(b)
  {
    if b == [] {
      assert a + b == a;
    } else {
      assert (a + b)[..|a + b| - 1] == a + b[..|b| - 1];
      ValuesConcat(a, b[..|b| - 1]);
    }
  }

  lemma {:induction false} ValuesOfBlocks(sections: seq<Section>, names: seq<string>, order: seq<string>)
    requires |names| == |sections|
    ensures Values(Blocks(sections, names, order)) == Blocks(Values(sections), names, order)
  {
    if order != [] {
      var init, last := order[..|order| - 1], order[|order| - 1];
      ValuesOfBlocks(sections, names, init);
      ValuesByName(sections, names, last);
      ValuesConcat(Blocks(sections, names, init), ByName(sections, names, last));
    }
  }

  lemma NamesOfValues(sections: seq<Section>)
    ensures NamesOf(Values(sections)) == Names(sections)
  {
    forall i | 0 <= i < |sections|
      ensures NamesOf(Values(sections))[i] == Names(sections)[i]
    {
      ValuesAt(sections, i);
    }
  }

  lemma ValuesOfRegroup(sections: seq<Section>)
    ensures Values(Regroup(sections, Names(sections))) == Regroup(Values(sections), NamesOf(Values(sections)))
  {
    NamesOfValues(sections);
    ValuesOfBlocks(sections, Names(sections), FirstNames(Names(sections)));
  }

  /** Saving a configuration and reading the file again. */
  method SaveAndRead(c: Configuration) returns (again: Configuration)
    requires c.Valid()
    ensures again.Valid() && fresh(again)
    ensures SameConfiguration(Values(again.all), Values(c.all)) <==>
              T.Survives(Regroup(Values(c.all), NamesOf(Values(c.all))))
  {
    var text := Save(c);
    ValuesOfRegroup(c.all);
    ConfigurationRoundTrip(Values(c.all));
    again := Read(text);
  }
}
