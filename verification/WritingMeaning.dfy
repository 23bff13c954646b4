/** What the text of a configuration file looks like, part by part. */
module WritingMeaning {
  import opened Wrappers
  import opened OptionValue
  import opened OptionLaws
  import opened ConfigText

  // ----- lines in a row

  lemma {:induction false} JoinedParts(a: seq<string>, b: seq<string>)
    ensures Joined(a + b) == Joined(a) + Joined(b)
  {
    if a == [] {
      assert a + b == b;
    } else {
      assert (a + b)[1..] == a[1..] + b;
      JoinedParts(a[1..], b);
      Regrouped(a[0], Joined(a[1..]), Joined(b));
    }
  }

  lemma Regrouped(line: string, a: string, b: string)
    ensures line + "\n" + (a + b) == line + "\n" + a + b
  {
  }

  lemma JoinedOne(line: string)
    ensures Joined([line]) == line + "\n"
  {
    assert Joined([line][1..]) == "";
  }

  lemma JoinedTwo(a: string, b: string)
    ensures Joined([a, b]) == a + "\n" + b + "\n"
  {
    assert [a, b] == [a] + [b];
    JoinedOne(a);
    JoinedOne(b);
    JoinedParts([a], [b]);
  }

  // ----- options

  /** The line of an option: a backslash in front of a name that starts with one of
      three characters; null is the name alone; a string stands in quotes, and
      nothing else does. */
  lemma LineOfOption(e: Entry)
    requires SoundValue(e.spec, e.state.value) && e.name != ""
    ensures var name := (if e.name[0] in "#[\\" then "\\" else "") + e.name;
      OptionLine(e) ==
        if e.state.value.None? then name
        else if e.spec.kind.String? then name + " = \"" + Rendered(e.spec, e.state.value) + "\""
        else name + " = " + Rendered(e.spec, e.state.value)
  {
    var name := (if e.name[0] in "#[\\" then "\\" else "") + e.name;
    assert Escape(e.name) + e.name == name;
    if e.state.value.Some? && e.spec.kind.String? {
      QuotedText(name, Rendered(e.spec, e.state.value));
    }
  }

  lemma QuotedText(name: string, s: string)
    ensures name + (" = " + ("\"" + s + "\"")) == name + " = \"" + s + "\""
  {
  }

  // ----- the parts of a file

  predicate Printable(options: seq<Entry>) {
    forall j :: 0 <= j < |options| ==> Writable(options[j].spec, options[j].state.value)
  }

  /** Options come one by one, in their order. */
  lemma {:induction false} OneMoreOption(options: seq<Entry>, e: Entry)
    requires Printable(options) && Writable(e.spec, e.state.value)
    ensures Printable(options + [e])
    ensures OptionLines(options + [e]) == OptionLines(options) + [OptionLine(e)]
  {
    if options == [] {
      assert options + [e] == [e];
    } else {
      assert (options + [e])[1..] == options[1..] + [e];
      OneMoreOption(options[1..], e);
    }
  }

  predicate AllPrintable(sections: seq<Section>) {
    forall i :: 0 <= i < |sections| ==> Printable(sections[i].options)
  }

  /** The lines of a section: an empty one, its name in brackets, its options. */
  function LinesOf(s: Section): seq<string>
    requires Printable(s.options)
  {
    ["", "[" + s.name + "]"] + OptionLines(s.options)
  }

  lemma PrintableSections(sections: seq<Section>)
    requires AllPrintable(sections)
    ensures forall i, j :: 0 <= i < |sections| && 0 <= j < |sections[i].options| ==>
      Writable(sections[i].options[j].spec, sections[i].options[j].state.value)
  {
  }

  /** Sections come one by one, in their order. */
  lemma {:induction false} OneMoreSection(sections: seq<Section>, s: Section)
    requires AllPrintable(sections) && Printable(s.options)
    ensures forall i, j :: 0 <= i < |sections| && 0 <= j < |sections[i].options| ==>
      Writable(sections[i].options[j].spec, sections[i].options[j].state.value)
    ensures var t := sections + [s];
      && (forall i, j :: 0 <= i < |t| && 0 <= j < |t[i].options| ==>
            Writable(t[i].options[j].spec, t[i].options[j].state.value))
      && SectionLines(t) == SectionLines(sections) + LinesOf(s)
  {
    var t := sections + [s];
    PrintableSections(sections);
    PrintableSections(t);
    if sections == [] {
      assert t == [s];
      assert SectionLines([s][1..]) == [];
    } else {
      assert t[1..] == sections[1..] + [s];
      OneMoreSection(sections[1..], s);
    }
  }

  lemma VersionText(f: File)
    ensures Joined(VersionLines(f)) == if f.version > 1 then "\nconfig_version = " + IntText(f.version) + "\n" else ""
  {
    if f.version > 1 {
      JoinedTwo("", VERSION_OPTION + " = " + IntText(f.version));
      LineBehindEmpty("config_version", IntText(f.version));
    }
  }

  lemma LineBehindEmpty(name: string, right: string)
    ensures "" + "\n" + (name + " = " + right) + "\n" == "\n" + name + " = " + right + "\n"
    ensures "\n" + "config_version" + " = " == "\nconfig_version = "
  {
  }

  /** The whole file: a number sign in front of each comment, the version if it is not
      the first, and the sections. */
  lemma WholeText(comments: seq<string>, f: File)
    requires FileWritable(f)
    ensures Written(comments, f)
         == Joined(HeaderLines(comments))
            + (if f.version > 1 then "\nconfig_version = " + IntText(f.version) + "\n" else "")
            + Joined(SectionLines(f.sections))
  {
    JoinedParts(HeaderLines(comments) + VersionLines(f), SectionLines(f.sections));
    JoinedParts(HeaderLines(comments), VersionLines(f));
    VersionText(f);
  }

  lemma HeaderIs(comments: seq<string>, i: nat)
    requires i < |comments|
    ensures |HeaderLines(comments)| == |comments| && HeaderLines(comments)[i] == "#" + comments[i]
  {
    if i > 0 {
      HeaderIs(comments[1..], i - 1);
    } else if |comments| > 1 {
      HeaderIs(comments[1..], 0);
    }
  }

  /** The text of a section. */
  lemma SectionText(s: Section)
    requires Printable(s.options)
    ensures Joined(LinesOf(s)) == "\n[" + s.name + "]\n" + Joined(OptionLines(s.options))
  {
    JoinedParts(["", "[" + s.name + "]"], OptionLines(s.options));
    JoinedTwo("", "[" + s.name + "]");
    NameBetween(s.name);
  }

  lemma NameBetween(name: string)
    ensures "" + "\n" + ("[" + name + "]") + "\n" == "\n[" + name + "]\n"
  {
  }
}
