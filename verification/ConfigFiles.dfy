/** Writing, reading and reloading a configuration file on the heap. */
module ConfigFiles {
  import opened Wrappers
  import opened OptionValue
  import opened OptionLaws
  import opened Names
  import opened ConfigWorld
  import opened ConfigStore
  import opened ConfigReload
  import ConfigRegistry
  import ConfigSearch
  import ConfigLines
  import opened SaveReload
  import Text = ConfigText

  // ----- what a file on the heap looks like

  ghost function EntryOf(o: ConfigOption): Text.Entry
    reads o`name, o`value, o`default, o`loaded
  {
    Text.Entry(o.name, o.spec, o.State(), o.loaded)
  }

  ghost predicate AreEntries(entries: seq<Text.Entry>, s: seq<ConfigOption>)
    reads s`name, s`value, s`default, s`loaded
  {
    |entries| == |s| && forall i {:trigger entries[i]} :: 0 <= i < |s| ==> entries[i] == EntryOf(s[i])
  }

  // ----- one option

  lemma {:induction false} FoundIs(entries: seq<Text.Entry>, names: seq<string>, j: nat)
    requires |entries| == |names| && (forall i :: 0 <= i < |names| ==> entries[i].name == names[i])
    requires Unique(names) && j < |names|
    ensures Text.IndexOfOption(entries, names[j]) == Some(j)
    decreases j
  {
    if j > 0 {
      assert names[0] != names[j];
      FoundIs(entries[1..], names[1..], j - 1);
    }
  }

  lemma {:induction false} NotFoundIs(entries: seq<Text.Entry>, names: seq<string>, name: string)
    requires |entries| == |names| && (forall i :: 0 <= i < |names| ==> entries[i].name == names[i])
    requires name !in names
    ensures Text.IndexOfOption(entries, name) == None
    decreases entries
  {
    if entries != [] {
      assert names[0] in names && forall x :: x in names[1..] ==> x in names;
      NotFoundIs(entries[1..], names[1..], name);
    }
  }

  /** An option of a file that is read: it is set, and counts as loaded even if its
      value is refused. */
  method LoadOption(option: ConfigOption, value: Option<string>, hooks: Hooks)
    requires option.Valid()
    modifies option`value, option`loaded, hooks
    ensures option.Valid() && EntryOf(option) == Text.Load(old(EntryOf(option)), value)
    ensures hooks.sent == old(hooks.sent) + OpNotes(option.Key(), old(EntryOf(option)), OpSet(value))
  {
    var _ := option.Set(value, hooks);
    option.loaded := true;
  }

  /** Where an option that was found is. */
  lemma PlaceIs(s: Section, option: ConfigOption, entries: seq<Text.Entry>) returns (j: nat)
    requires s.Linked() && s.Sorted() && option in s.nodes && AreEntries(entries, s.nodes)
    ensures j < |s.nodes| && s.nodes[j] == option && Text.IndexOfOption(entries, option.name) == Some(j)
    ensures forall i :: 0 <= i < |s.nodes| && i != j ==> s.nodes[i] != option
  {
    j := s.PlaceOf(option);
    FoundIs(entries, s.names, j);
  }

  /** The option at a place is loaded, and no other. */
  method LoadAt(option: ConfigOption, value: Option<string>, hooks: Hooks,
                ghost nodes: seq<ConfigOption>, ghost j: nat, ghost entries: seq<Text.Entry>)
    requires j < |nodes| && nodes[j] == option && forall i :: 0 <= i < |nodes| && i != j ==> nodes[i] != option
    requires AreEntries(entries, nodes) && forall o :: o in nodes ==> o.Valid()
    modifies option`value, option`loaded, hooks
    ensures forall o :: o in nodes ==> o.Valid()
    ensures Sound(entries[j].spec, entries[j].state)
    ensures AreEntries(entries[j := Text.Load(entries[j], value)], nodes)
    ensures hooks.sent == old(hooks.sent) + OpNotes(option.Key(), entries[j], OpSet(value))
  {
    LoadOption(option, value, hooks);
    forall o | o in nodes ensures o.Valid() {
      assert o != option ==> old(o.Valid());
    }
  }

  lemma EntriesSound(entries: seq<Text.Entry>, nodes: seq<ConfigOption>)
    requires AreEntries(entries, nodes) && forall o :: o in nodes ==> o.Valid()
    ensures SoundEntries(entries)
  {
    forall j | 0 <= j < |entries| ensures Sound(entries[j].spec, entries[j].state) {
      assert nodes[j].Valid();
    }
  }

  /** The look-up on the heap is the one in the text. */
  method Find(s: Section, name: string, ghost entries: seq<Text.Entry>) returns (option: ConfigOption?)
    requires s.Linked() && s.Sorted() && AreEntries(entries, s.nodes)
    ensures option != null ==> option in s.nodes && option.name == name
    ensures option == null ==> Text.IndexOfOption(entries, name) == None
  {
    option := s.SearchOption(name);
    if option == null {
      TableMissing(s.names, s.nodes, name);
      NotFoundIs(entries, s.names, name);
    }
  }

  method LoadFound(s: Section, option: ConfigOption, value: Option<string>, hooks: Hooks,
                   ghost entries: seq<Text.Entry>)
    requires s.Linked() && s.Sorted() && (forall o :: o in s.nodes ==> o.Valid()) && AreEntries(entries, s.nodes)
    requires option in s.nodes && SoundEntries(entries)
    modifies option`value, option`loaded, hooks
    ensures forall o :: o in s.nodes ==> o.Valid()
    ensures AreEntries(Text.LoadIn(entries, option.name, value), s.nodes)
    ensures hooks.sent == old(hooks.sent) + LoadInNotes(s.fileName, s.name, entries, option.name, value)
  {
    ghost var j := PlaceIs(s, option, entries);
    LoadAt(option, value, hooks, s.nodes, j, entries);
  }

  /** The part of config_file_read_internal that looks for an option and sets it. */
  method LoadIn(s: Section, name: string, value: Option<string>, hooks: Hooks, ghost entries: seq<Text.Entry>)
    requires s.Linked() && s.Sorted() && (forall o :: o in s.nodes ==> o.Valid()) && AreEntries(entries, s.nodes)
    modifies s.nodes`value, s.nodes`loaded, hooks
    ensures forall o :: o in s.nodes ==> o.Valid()
    ensures SoundEntries(entries)
    ensures AreEntries(Text.LoadIn(entries, name, value), s.nodes)
    ensures hooks.sent == old(hooks.sent) + LoadInNotes(s.fileName, s.name, entries, name, value)
  {
    EntriesSound(entries, s.nodes);
    var option := Find(s, name, entries);
    if option != null {
      LoadFound(s, option, value, hooks, entries);
    }
  }

  // ----- the sections of a file

  type ConfigFile = ConfigRegistry.ConfigFile

  /** The options of the sections are among all. */
  ghost predicate Covered(sections: seq<Section>, all: set<ConfigOption>)
    reads sections`nodes
  {
    forall s, o :: s in sections && o in s.nodes ==> o in all
  }

  ghost predicate Listed(sections: seq<Section>, all: set<ConfigOption>)
    requires Covered(sections, all)
    reads sections`options, sections`lastOption, sections`nodes, sections`names, all`prev, all`next, all`name
  {
    forall s :: s in sections ==> s.Linked() && s.Sorted()
  }

  ghost predicate AllSound(all: set<ConfigOption>)
    reads all`value, all`default
  {
    forall o :: o in all ==> o.Valid()
  }

  /** A section looks like a text. */
  ghost predicate ShowsSection(t: Text.Section, s: Section)
    reads s`nodes, s.nodes`name, s.nodes`value, s.nodes`default, s.nodes`loaded
  {
    t.name == s.name && AreEntries(t.options, s.nodes)
  }

  ghost predicate ShowsSections(texts: seq<Text.Section>, sections: seq<Section>, all: set<ConfigOption>)
    requires Covered(sections, all)
    reads sections`nodes, all`name, all`value, all`default, all`loaded
  {
    |texts| == |sections| && forall i :: 0 <= i < |sections| ==> ShowsSection(texts[i], sections[i])
  }

  /** A section whose options have not changed looks as before. */
  twostate lemma StillShows(s: Section)
    requires s.nodes == old(s.nodes) && forall o :: o in s.nodes ==> EntryOf(o) == old(EntryOf(o))
    ensures forall t :: old(ShowsSection(t, s)) ==> ShowsSection(t, s)
  {
    forall t | old(ShowsSection(t, s)) ensures ShowsSection(t, s) {
      forall i | 0 <= i < |s.nodes| ensures t.options[i] == EntryOf(s.nodes[i]) {
        assert s.nodes[i] in s.nodes;
      }
    }
  }

  /** The texts when one section has other options. */
  function Updated(texts: seq<Text.Section>, i: nat, options: seq<Text.Entry>): seq<Text.Section>
    requires i < |texts|
  {
    texts[i := texts[i].(options := options)]
  }

  /** Options of other sections are not touched. */
  method LoadApart(section: Section, name: string, value: Option<string>, hooks: Hooks,
                   ghost entries: seq<Text.Entry>, ghost all: set<ConfigOption>)
    requires section.Linked() && section.Sorted() && AreEntries(entries, section.nodes)
    requires AllSound(all) && forall o :: o in section.nodes ==> o in all
    modifies section.nodes`value, section.nodes`loaded, hooks
    ensures AllSound(all)
    ensures SoundEntries(entries)
    ensures AreEntries(Text.LoadIn(entries, name, value), section.nodes)
    ensures hooks.sent == old(hooks.sent) + LoadInNotes(section.fileName, section.name, entries, name, value)
    ensures forall o :: o in all && o.section != section ==> EntryOf(o) == old(EntryOf(o))
  {
    LoadIn(section, name, value, hooks, entries);
    forall o | o in all ensures o.Valid() {
      assert o !in section.nodes ==> old(o.Valid());
    }
  }

  method LoadInSection(section: Section, name: string, value: Option<string>, hooks: Hooks,
                       ghost texts: seq<Text.Section>, ghost sections: seq<Section>, ghost i: nat,
                       ghost all: set<ConfigOption>)
    requires Covered(sections, all) && Listed(sections, all) && AllSound(all) && ConfigSearch.Distinct(sections)
    requires i < |sections| && sections[i] == section && ShowsSections(texts, sections, all)
    modifies section.nodes`value, section.nodes`loaded, hooks
    ensures Listed(sections, all) && AllSound(all)
    ensures SoundEntries(texts[i].options)
    ensures hooks.sent == old(hooks.sent) + LoadInNotes(section.fileName, section.name, texts[i].options, name, value)
    ensures ShowsSections(Updated(texts, i, Text.LoadIn(texts[i].options, name, value)), sections, all)
  {
    assert ShowsSection(texts[i], section);
    LoadApart(section, name, value, hooks, texts[i].options, all);
    forall k | 0 <= k < |sections| && k != i ensures ShowsSection(texts[k], sections[k]) {
      assert old(ShowsSection(texts[k], sections[k]));
      assert sections[k] != section && sections[k].Linked();
      StillShows(sections[k]);
    }
    forall s | s in sections ensures s.Linked() && s.Sorted() {
      s.Untouched();
    }
  }

  // ----- one line

  /** The section pointer of the reader and the number of the section. */
  ghost predicate Tracks(position: Text.Position, ptr: Section?, sections: seq<Section>) {
    match position
    case None => ptr == null
    case Some(i) => i < |sections| && sections[i] == ptr
  }

  /** The sections of a file know its name. */
  ghost predicate OfFile(sections: seq<Section>, name: string) {
    forall s :: s in sections ==> s.fileName == name
  }

  /** What the reader has read so far is what the heap looks like. */
  ghost predicate InStep(r: Text.Read, ptr: Section?, f: ConfigFile, all: set<ConfigOption>)
    requires Covered(f.sections, all)
    reads f, f.sections`nodes, all`name, all`value, all`default, all`loaded
  {
    && Text.Readable(r) && r.file.version == f.version && OfFile(f.sections, r.file.name)
    && SoundSections(r.file.sections) && ShowsSections(r.file.sections, f.sections, all)
    && Tracks(r.section, ptr, f.sections)
  }

  lemma {:induction false} SectionIs(texts: seq<Text.Section>, sections: seq<Section>, i: nat)
    requires |texts| == |sections| && (forall j :: 0 <= j < |texts| ==> texts[j].name == sections[j].name)
    requires ConfigSearch.Distinct(sections) && i < |sections|
    ensures Text.IndexOfSection(texts, sections[i].name) == Some(i)
    decreases i
  {
    if i > 0 {
      assert sections[0].name != sections[i].name;
      SectionIs(texts[1..], sections[1..], i - 1);
    }
  }

  lemma {:induction false} NoSectionIs(texts: seq<Text.Section>, sections: seq<Section>, name: string)
    requires |texts| == |sections| && (forall j :: 0 <= j < |texts| ==> texts[j].name == sections[j].name)
    requires forall s :: s in sections ==> s.name != name
    ensures Text.IndexOfSection(texts, name) == None
    decreases texts
  {
    if texts != [] {
      assert sections[0] in sections && forall s :: s in sections[1..] ==> s in sections;
      NoSectionIs(texts[1..], sections[1..], name);
    }
  }

  /** The beginning of a section in the file. */
  method EnterSection(sections: seq<Section>, name: string, ghost texts: seq<Text.Section>) returns (ptr: Section?)
    requires |texts| == |sections| && forall j :: 0 <= j < |texts| ==> texts[j].name == sections[j].name
    requires ConfigSearch.Distinct(sections)
    ensures Tracks(Text.IndexOfSection(texts, name), ptr, sections)
  {
    ptr := ConfigSearch.SearchSection(sections, name);
    if ptr == null {
      NoSectionIs(texts, sections, name);
    } else {
      ghost var i :| 0 <= i < |sections| && sections[i] == ptr;
      SectionIs(texts, sections, i);
    }
  }

  /** config_file_parse_version, and what the reader does with its result. */
  method AcceptVersion(right: Option<string>, version: int) returns (go: bool)
    ensures go == match Text.ParseVersion(right) case Some(n) => n <= version case None => false
  {
    if right.None? {
      return false;
    }
    var n := ParseInt(right.value);
    if n.None? || n.value < 1 {
      return false;
    }
    go := n.value <= version;
  }

  /** An option in a section. */
  method ReadOption(f: ConfigFile, ptr: Section, name: string, value: Option<string>, hooks: Hooks,
                    ghost r: Text.Read, ghost all: set<ConfigOption>)
    requires Covered(f.sections, all) && Listed(f.sections, all) && AllSound(all) && ConfigSearch.Distinct(f.sections)
    requires InStep(r, ptr, f, all) && r.section.Some?
    modifies all`value, all`loaded, hooks
    ensures Listed(f.sections, all) && AllSound(all)
    ensures var i := r.section.value;
      var next := r.(file := r.file.(sections :=
        Updated(r.file.sections, i, Text.LoadIn(r.file.sections[i].options, name, value))));
      && InStep(next, ptr, f, all)
      && hooks.sent == old(hooks.sent)
           + LoadInNotes(r.file.name, r.file.sections[i].name, r.file.sections[i].options, name, value)
  {
    LoadInSection(ptr, name, value, hooks, r.file.sections, f.sections, r.section.value, all);
    LoadInKeepsSound(r.file.sections[r.section.value].options, name, value);
  }

  lemma NamesInStep(r: Text.Read, ptr: Section?, f: ConfigFile, all: set<ConfigOption>)
    requires Covered(f.sections, all) && InStep(r, ptr, f, all)
    ensures |r.file.sections| == |f.sections|
    ensures forall j :: 0 <= j < |f.sections| ==> r.file.sections[j].name == f.sections[j].name
  {
    forall j | 0 <= j < |f.sections| ensures r.file.sections[j].name == f.sections[j].name {
      assert ShowsSection(r.file.sections[j], f.sections[j]);
    }
  }

  /** A line in a section. */
  method ReadInSection(f: ConfigFile, name: string, value: Option<string>, ptr: Section, hooks: Hooks,
                       ghost chunk: string, ghost right: Option<string>, ghost r: Text.Read,
                       ghost all: set<ConfigOption>)
    requires Covered(f.sections, all) && Listed(f.sections, all) && AllSound(all) && ConfigSearch.Distinct(f.sections)
    requires InStep(r, ptr, f, all)
    requires Text.ParseLine(chunk) == Text.OptionText(name, right)
    requires value == match right case Some(s) => Text.ReadValue(s) case None => None
    modifies all`value, all`loaded, hooks
    ensures Listed(f.sections, all) && AllSound(all)
    ensures InStep(Text.ReadLine(r, chunk), ptr, f, all) && r.go == Text.ReadLine(r, chunk).go
    ensures hooks.sent == old(hooks.sent) + LineNotes(r, chunk)
  {
    if name != "" {
      ReadOption(f, ptr, name, value, hooks, r, all);
    }
  }

  /** A line outside of sections: only the version of the file matters. */
  method ReadOutside(name: string, right: Option<string>, version: int, ghost chunk: string, ghost r: Text.Read)
    returns (go: bool)
    requires Text.Readable(r) && r.section.None? && r.go && r.file.version == version
    requires Text.ParseLine(chunk) == Text.OptionText(name, right)
    ensures Text.ReadLine(r, chunk) == r.(go := go)
  {
    go := true;
    if name == Text.VERSION_OPTION {
      go := AcceptVersion(right, version);
    }
  }

  /** The name of a section. */
  method ReadHeader(f: ConfigFile, name: string, ghost ptr: Section?, ghost chunk: string, ghost r: Text.Read,
                    ghost all: set<ConfigOption>) returns (next: Section?)
    requires Covered(f.sections, all) && ConfigSearch.Distinct(f.sections) && InStep(r, ptr, f, all)
    requires Text.ParseLine(chunk) == Text.SectionHeader(name)
    ensures InStep(Text.ReadLine(r, chunk), next, f, all) && Text.ReadLine(r, chunk).go == r.go
  {
    NamesInStep(r, ptr, f, all);
    next := EnterSection(f.sections, name, r.file.sections);
  }

  /** A line with an option. */
  method ReadOptionText(f: ConfigFile, name: string, right: Option<string>, ptr: Section?, hooks: Hooks,
                        ghost chunk: string, ghost r: Text.Read, ghost all: set<ConfigOption>) returns (go: bool)
    requires Covered(f.sections, all) && Listed(f.sections, all) && AllSound(all) && ConfigSearch.Distinct(f.sections)
    requires InStep(r, ptr, f, all) && r.go
    requires Text.ParseLine(chunk) == Text.OptionText(name, right)
    modifies all`value, all`loaded, hooks
    ensures Listed(f.sections, all) && AllSound(all)
    ensures InStep(Text.ReadLine(r, chunk), ptr, f, all) && go == Text.ReadLine(r, chunk).go
    ensures hooks.sent == old(hooks.sent) + LineNotes(r, chunk)
  {
    go := true;
    var value := None;
    if right.Some? {
      value := ConfigLines.ReadRight(right.value);
    }
    if ptr == null {
      go := ReadOutside(name, right, f.version, chunk, r);
    } else {
      ReadInSection(f, name, value, ptr, hooks, chunk, right, r, all);
    }
  }

  /** The body of the loop of config_file_read_internal. */
  method ReadLine(f: ConfigFile, chunk: string, ptr: Section?, hooks: Hooks, ghost r: Text.Read,
                  ghost all: set<ConfigOption>)
    returns (next: Section?, go: bool)
    requires Covered(f.sections, all) && Listed(f.sections, all) && AllSound(all) && ConfigSearch.Distinct(f.sections)
    requires InStep(r, ptr, f, all) && r.go
    modifies all`value, all`loaded, hooks
    ensures Listed(f.sections, all) && AllSound(all)
    ensures InStep(Text.ReadLine(r, chunk), next, f, all) && go == Text.ReadLine(r, chunk).go
    ensures hooks.sent == old(hooks.sent) + LineNotes(r, chunk)
  {
    var line := ConfigLines.SplitLine(chunk);
    next, go := ptr, true;
    match line {
      case Ignored =>
      case SectionHeader(name) =>
        next := ReadHeader(f, name, ptr, chunk, r, all);
      case OptionText(name, right) =>
        go := ReadOptionText(f, name, right, ptr, hooks, chunk, r, all);
    }
  }

  /** config_file_read_internal, from the text of the file. */
  method Read(f: ConfigFile, text: string, hooks: Hooks, ghost file: Text.File, ghost all: set<ConfigOption>)
    requires Covered(f.sections, all) && Listed(f.sections, all) && AllSound(all) && ConfigSearch.Distinct(f.sections)
    requires InStep(Text.Read(file, None, true), null, f, all)
    modifies all`value, all`loaded, hooks
    ensures Listed(f.sections, all) && AllSound(all)
    ensures ShowsSections(Text.ReadText(Text.Read(file, None, true), text).file.sections, f.sections, all)
    ensures hooks.sent == old(hooks.sent) + ReadNotes(Text.Read(file, None, true), text)
  {
    var rest, ptr, go := text, null, true;
    ghost var start := Text.Read(file, None, true);
    ghost var r := start;
    while rest != "" && go
      invariant Listed(f.sections, all) && AllSound(all)
      invariant InStep(r, ptr, f, all) && go == r.go
      invariant Text.ReadText(start, text) == Text.ReadText(r, rest)
      invariant hooks.sent + ReadNotes(r, rest) == old(hooks.sent) + ReadNotes(start, text)
      decreases |rest|
    {
      var n := ConfigLines.Gets(rest, Text.MAX_CHUNK);
      ghost var sent := hooks.sent;
      ptr, go := ReadLine(f, rest[..n], ptr, hooks, r, all);
      Twice(sent, LineNotes(r, rest[..n]), ReadNotes(Text.ReadLine(r, rest[..n]), rest[n..]));
      r := Text.ReadLine(r, rest[..n]);
      rest := rest[n..];
    }
  }

  // ----- reloading

  /** The first k options are done, the others are as they were. */
  ghost predicate DoneTo(step: Text.Entry -> Text.Entry, k: nat, entries: seq<Text.Entry>, nodes: seq<ConfigOption>)
    requires |entries| == |nodes|
    reads nodes`name, nodes`value, nodes`default, nodes`loaded
  {
    forall i {:trigger entries[i]} :: 0 <= i < |nodes| ==>
      EntryOf(nodes[i]) == if i < k then step(entries[i]) else entries[i]
  }

  lemma AllDone(step: Text.Entry -> Text.Entry, entries: seq<Text.Entry>, nodes: seq<ConfigOption>)
    requires |entries| == |nodes| && DoneTo(step, |nodes|, entries, nodes)
    ensures AreEntries(Text.MapEntries(step, entries), nodes)
  {
    var mapped := Text.MapEntries(step, entries);
    forall i | 0 <= i < |nodes| ensures mapped[i] == EntryOf(nodes[i]) {
      assert mapped[i] == step(entries[i]);
    }
  }

  /** The first loop of config_file_reload, in one section. */
  method Unload(s: Section, ghost entries: seq<Text.Entry>)
    requires s.Linked() && AreEntries(entries, s.nodes)
    modifies s.nodes`loaded
    ensures AreEntries(Text.MapEntries(Text.Unloaded, entries), s.nodes)
  {
    var ptr := s.options;
    ghost var k := 0;
    while ptr != null
      invariant 0 <= k <= |s.nodes| && ptr == if k < |s.nodes| then s.nodes[k] else null
      invariant DoneTo(Text.Unloaded, k, entries, s.nodes)
      decreases |s.nodes| - k
    {
      assert Index(k);
      ptr.loaded := false;
      ptr := ptr.next;
      k := k + 1;
    }
    AllDone(Text.Unloaded, entries, s.nodes);
  }

  /** An option that was not in the file is reset. */
  method SettleOption(option: ConfigOption, hooks: Hooks)
    requires option.Valid()
    modifies option`value, hooks
    ensures option.Valid() && EntryOf(option) == Text.Settled(old(EntryOf(option)))
    ensures hooks.sent == old(hooks.sent) + SettleOneNotes(option.Key(), old(EntryOf(option)))
  {
    if !option.loaded {
      var _ := option.Reset(hooks);
    }
  }

  /** The last loop of config_file_reload, in one section. */
  method Settle(s: Section, hooks: Hooks, ghost entries: seq<Text.Entry>)
    requires s.Linked() && AreEntries(entries, s.nodes) && forall o :: o in s.nodes ==> o.Valid()
    modifies s.nodes`value, hooks
    ensures SoundEntries(entries) && forall o :: o in s.nodes ==> o.Valid()
    ensures AreEntries(Text.MapEntries(Text.Settled, entries), s.nodes)
    ensures hooks.sent == old(hooks.sent) + SettleNotes(s.fileName, s.name, entries)
  {
    EntriesSound(entries, s.nodes);
    var ptr := s.options;
    ghost var k := 0;
    assert entries[0..] == entries;
    while ptr != null
      invariant 0 <= k <= |s.nodes| && ptr == if k < |s.nodes| then s.nodes[k] else null
      invariant DoneTo(Text.Settled, k, entries, s.nodes)
      invariant forall o :: o in s.nodes ==> o.Valid()
      invariant hooks.sent + SettleNotes(s.fileName, s.name, entries[k..])
        == old(hooks.sent) + SettleNotes(s.fileName, s.name, entries)
      decreases |s.nodes| - k
    {
      assert Index(k);
      SettleNext(ptr, hooks, k, entries, s.nodes);
      ptr := ptr.next;
      k := k + 1;
    }
    AllDone(Text.Settled, entries, s.nodes);
  }

  lemma NextSettled(key: Key, entries: seq<Text.Entry>, k: nat, sent: seq<Note>)
    requires k < |entries| && SoundEntries(entries) && entries[k].name == key.name
    ensures sent + SettleOneNotes(key, entries[k]) + SettleNotes(key.file, key.section, entries[k + 1..])
         == sent + SettleNotes(key.file, key.section, entries[k..])
  {
    assert entries[k..][1..] == entries[k + 1..];
    Twice(sent, SettleOneNotes(key, entries[k]), SettleNotes(key.file, key.section, entries[k + 1..]));
  }

  method SettleNext(option: ConfigOption, hooks: Hooks, ghost k: nat, ghost entries: seq<Text.Entry>,
                    ghost nodes: seq<ConfigOption>)
    requires k < |nodes| == |entries| && nodes[k] == option
    requires forall i :: 0 <= i < |nodes| && i != k ==> nodes[i] != option
    requires DoneTo(Text.Settled, k, entries, nodes) && forall o :: o in nodes ==> o.Valid()
    requires SoundEntries(entries)
    modifies option`value, hooks
    ensures DoneTo(Text.Settled, k + 1, entries, nodes) && forall o :: o in nodes ==> o.Valid()
    ensures hooks.sent + SettleNotes(option.section.fileName, option.section.name, entries[k + 1..])
         == old(hooks.sent) + SettleNotes(option.section.fileName, option.section.name, entries[k..])
  {
    SettleOption(option, hooks);
    NextSettled(option.Key(), entries, k, old(hooks.sent));
    forall o | o in nodes ensures o.Valid() {
      assert o != option ==> old(o.Valid());
    }
  }

  function Stepped(step: Text.Entry -> Text.Entry, t: Text.Section): Text.Section {
    t.(options := Text.MapEntries(step, t.options))
  }

  /** The texts when the first k sections are done. */
  function PartlyStepped(step: Text.Entry -> Text.Entry, k: nat, texts: seq<Text.Section>, i: nat): Text.Section
    requires i < |texts|
  {
    if i < k then Stepped(step, texts[i]) else texts[i]
  }

  /** The first k sections are done, the others are as they were. */
  ghost predicate SectionsTo(step: Text.Entry -> Text.Entry, k: nat, texts: seq<Text.Section>, sections: seq<Section>,
                             all: set<ConfigOption>)
    requires Covered(sections, all) && |texts| == |sections|
    reads sections`nodes, all`name, all`value, all`default, all`loaded
  {
    forall i {:trigger sections[i]} :: 0 <= i < |sections| ==>
      ShowsSection(PartlyStepped(step, k, texts, i), sections[i])
  }

  lemma AllSectionsDone(step: Text.Entry -> Text.Entry, texts: seq<Text.Section>, sections: seq<Section>,
                        all: set<ConfigOption>)
    requires Covered(sections, all) && |texts| == |sections| && SectionsTo(step, |sections|, texts, sections, all)
    ensures ShowsSections(Text.MapSections(step, texts), sections, all)
  {
    var mapped := Text.MapSections(step, texts);
    forall i | 0 <= i < |sections| ensures ShowsSection(mapped[i], sections[i]) {
      assert mapped[i] == Stepped(step, texts[i]);
    }
  }

  method UnloadApart(s: Section, ghost entries: seq<Text.Entry>, ghost all: set<ConfigOption>)
    requires s.Linked() && AreEntries(entries, s.nodes)
    modifies s.nodes`loaded
    ensures AreEntries(Text.MapEntries(Text.Unloaded, entries), s.nodes)
    ensures forall o :: o in all && o.section != s ==> EntryOf(o) == old(EntryOf(o))
  {
    Unload(s, entries);
  }

  method SettleApart(s: Section, hooks: Hooks, ghost entries: seq<Text.Entry>, ghost all: set<ConfigOption>)
    requires s.Linked() && AreEntries(entries, s.nodes) && AllSound(all) && forall o :: o in s.nodes ==> o in all
    modifies s.nodes`value, hooks
    ensures AllSound(all) && SoundEntries(entries)
    ensures AreEntries(Text.MapEntries(Text.Settled, entries), s.nodes)
    ensures hooks.sent == old(hooks.sent) + SettleNotes(s.fileName, s.name, entries)
    ensures forall o :: o in all && o.section != s ==> EntryOf(o) == old(EntryOf(o))
  {
    Settle(s, hooks, entries);
    forall o | o in all ensures o.Valid() {
      assert o !in s.nodes ==> old(o.Valid());
    }
  }

  method UnloadNext(s: Section, ghost k: nat, ghost texts: seq<Text.Section>, ghost sections: seq<Section>,
                    ghost all: set<ConfigOption>)
    requires Covered(sections, all) && Listed(sections, all) && ConfigSearch.Distinct(sections)
    requires k < |sections| == |texts| && sections[k] == s && SectionsTo(Text.Unloaded, k, texts, sections, all)
    modifies s.nodes`loaded
    ensures SectionsTo(Text.Unloaded, k + 1, texts, sections, all)
  {
    assert ShowsSection(texts[k], s);
    UnloadApart(s, texts[k].options, all);
    forall i | 0 <= i < |sections| && i != k
      ensures ShowsSection(PartlyStepped(Text.Unloaded, k, texts, i), sections[i])
    {
      assert sections[i] != s && sections[i].Linked();
      assert old(ShowsSection(PartlyStepped(Text.Unloaded, k, texts, i), sections[i]));
      StillShows(sections[i]);
    }
  }

  method UnloadAll(f: ConfigFile, ghost texts: seq<Text.Section>, ghost all: set<ConfigOption>)
    requires Covered(f.sections, all) && Listed(f.sections, all) && ConfigSearch.Distinct(f.sections)
    requires ShowsSections(texts, f.sections, all)
    modifies all`loaded
    ensures ShowsSections(Text.MapSections(Text.Unloaded, texts), f.sections, all)
    ensures Listed(f.sections, all)
  {
    var i := 0;
    while i < |f.sections|
      invariant i <= |f.sections| && SectionsTo(Text.Unloaded, i, texts, f.sections, all)
      invariant Listed(f.sections, all)
    {
      UnloadNext(f.sections[i], i, texts, f.sections, all);
      i := i + 1;
    }
    AllSectionsDone(Text.Unloaded, texts, f.sections, all);
  }

  method SettleNextSection(s: Section, hooks: Hooks, ghost k: nat, ghost texts: seq<Text.Section>,
                           ghost sections: seq<Section>, ghost all: set<ConfigOption>)
    requires Covered(sections, all) && Listed(sections, all) && AllSound(all) && ConfigSearch.Distinct(sections)
    requires k < |sections| == |texts| && sections[k] == s && SectionsTo(Text.Settled, k, texts, sections, all)
    modifies s.nodes`value, hooks
    ensures AllSound(all) && SoundEntries(texts[k].options)
    ensures SectionsTo(Text.Settled, k + 1, texts, sections, all)
    ensures hooks.sent == old(hooks.sent) + SettleNotes(s.fileName, s.name, texts[k].options)
  {
    assert ShowsSection(texts[k], s);
    SettleApart(s, hooks, texts[k].options, all);
    forall i | 0 <= i < |sections| && i != k
      ensures ShowsSection(PartlyStepped(Text.Settled, k, texts, i), sections[i])
    {
      assert sections[i] != s && sections[i].Linked();
      assert old(ShowsSection(PartlyStepped(Text.Settled, k, texts, i), sections[i]));
      StillShows(sections[i]);
    }
  }

  lemma NextSectionSettled(file: string, texts: seq<Text.Section>, k: nat, sent: seq<Note>)
    requires k < |texts| && SoundSections(texts)
    ensures sent + SettleNotes(file, texts[k].name, texts[k].options) + SettleAllNotes(file, texts[k + 1..])
         == sent + SettleAllNotes(file, texts[k..])
  {
    assert texts[k..][1..] == texts[k + 1..];
    Twice(sent, SettleNotes(file, texts[k].name, texts[k].options), SettleAllNotes(file, texts[k + 1..]));
  }

  lemma NothingSettled(file: string, texts: seq<Text.Section>, sent: seq<Note>)
    requires texts == []
    ensures sent + SettleAllNotes(file, texts) == sent
  {
  }

  method SettleStep(s: Section, hooks: Hooks, ghost k: nat, ghost file: string, ghost texts: seq<Text.Section>,
                    ghost sections: seq<Section>, ghost all: set<ConfigOption>)
    requires Covered(sections, all) && Listed(sections, all) && AllSound(all) && ConfigSearch.Distinct(sections)
    requires k < |sections| == |texts| && sections[k] == s && SectionsTo(Text.Settled, k, texts, sections, all)
    requires s.fileName == file && SoundSections(texts)
    modifies s.nodes`value, hooks
    ensures Listed(sections, all) && AllSound(all)
    ensures SectionsTo(Text.Settled, k + 1, texts, sections, all)
    ensures hooks.sent + SettleAllNotes(file, texts[k + 1..]) == old(hooks.sent) + SettleAllNotes(file, texts[k..])
  {
    assert ShowsSection(texts[k], s);
    NextSectionSettled(file, texts, k, hooks.sent);
    SettleNextSection(s, hooks, k, texts, sections, all);
    forall s | s in sections ensures s.Linked() && s.Sorted() {
      s.Untouched();
    }
  }

  method SettleAll(f: ConfigFile, hooks: Hooks, ghost file: string, ghost texts: seq<Text.Section>,
                   ghost all: set<ConfigOption>)
    requires Covered(f.sections, all) && Listed(f.sections, all) && AllSound(all) && ConfigSearch.Distinct(f.sections)
    requires ShowsSections(texts, f.sections, all) && SoundSections(texts) && OfFile(f.sections, file)
    modifies all`value, hooks
    ensures AllSound(all)
    ensures ShowsSections(Text.MapSections(Text.Settled, texts), f.sections, all)
    ensures hooks.sent == old(hooks.sent) + SettleAllNotes(file, texts)
  {
    var i := 0;
    ghost var end := hooks.sent + SettleAllNotes(file, texts);
    assert texts[0..] == texts;
    while i < |f.sections|
      invariant i <= |f.sections| && AllSound(all) && SectionsTo(Text.Settled, i, texts, f.sections, all)
      invariant Listed(f.sections, all)
      invariant hooks.sent + SettleAllNotes(file, texts[i..]) == end
    {
      SettleStep(f.sections[i], hooks, i, file, texts, f.sections, all);
      i := i + 1;
    }
    NothingSettled(file, texts[i..], hooks.sent);
    AllSectionsDone(Text.Settled, texts, f.sections, all);
  }

  lemma FileSound(texts: seq<Text.Section>, sections: seq<Section>, all: set<ConfigOption>)
    requires Covered(sections, all) && AllSound(all) && ShowsSections(texts, sections, all)
    ensures SoundSections(texts)
  {
    forall i | 0 <= i < |texts| ensures SoundEntries(texts[i].options) {
      assert ShowsSection(texts[i], sections[i]);
      EntriesSound(texts[i].options, sections[i].nodes);
    }
  }

  /** The first two parts of config_file_reload. */
  method Reread(f: ConfigFile, text: string, hooks: Hooks, ghost file: Text.File, ghost all: set<ConfigOption>)
    requires Covered(f.sections, all) && Listed(f.sections, all) && AllSound(all) && ConfigSearch.Distinct(f.sections)
    requires ShowsSections(file.sections, f.sections, all) && SoundSections(file.sections)
    requires file.version == f.version && OfFile(f.sections, file.name)
    modifies all`value, all`loaded, hooks
    ensures Listed(f.sections, all) && AllSound(all)
    ensures SoundSections(Text.MapSections(Text.Unloaded, file.sections))
    ensures var start := Text.Read(Text.MapFile(Text.Unloaded, file), None, true);
      && ShowsSections(Text.ReadText(start, text).file.sections, f.sections, all)
      && hooks.sent == old(hooks.sent) + ReadNotes(start, text)
  {
    UnloadAll(f, file.sections, all);
    UnloadedSound(file.sections);
    Read(f, text, hooks, Text.MapFile(Text.Unloaded, file), all);
  }

  /** config_file_reload: options that are not in the text are reset. */
  method Reload(f: ConfigFile, text: string, hooks: Hooks, ghost file: Text.File, ghost all: set<ConfigOption>)
    requires Covered(f.sections, all) && Listed(f.sections, all) && AllSound(all) && ConfigSearch.Distinct(f.sections)
    requires ShowsSections(file.sections, f.sections, all) && file.version == f.version && OfFile(f.sections, file.name)
    modifies all`value, all`loaded, hooks
    ensures AllSound(all) && Text.WellFormedFile(file) && SoundSections(file.sections)
    ensures ShowsSections(Text.Reloaded(file, text).sections, f.sections, all)
    ensures hooks.sent == old(hooks.sent) + ReloadNotes(file, text)
  {
    FileSound(file.sections, f.sections, all);
    Reread(f, text, hooks, file, all);
    ghost var start := Text.Read(Text.MapFile(Text.Unloaded, file), None, true);
    ghost var read := Text.ReadText(start, text).file;
    ReadKeepsSound(start, text);
    Twice(old(hooks.sent), ReadNotes(start, text), SettleAllNotes(file.name, read.sections));
    SettleAll(f, hooks, file.name, read.sections, all);
  }

  // ----- writing

  lemma {:induction false} JoinedConcat(a: seq<string>, b: seq<string>)
    ensures Text.Joined(a + b) == Text.Joined(a) + Text.Joined(b)
  {
    if a == [] {
      assert a + b == b;
    } else {
      assert (a + b)[1..] == a[1..] + b;
      JoinedConcat(a[1..], b);
    }
  }

  ghost predicate Writables(entries: seq<Text.Entry>) {
    forall j :: 0 <= j < |entries| ==> Writable(entries[j].spec, entries[j].state.value)
  }

  lemma NextLine(entries: seq<Text.Entry>, k: nat)
    requires Writables(entries) && k < |entries|
    ensures Text.Joined(Text.OptionLines(entries[k..]))
         == Text.OptionLine(entries[k]) + "\n" + Text.Joined(Text.OptionLines(entries[k + 1..]))
  {
    assert entries[k..][1..] == entries[k + 1..];
  }

  lemma EntriesAreWritable(entries: seq<Text.Entry>, nodes: seq<ConfigOption>)
    requires AreEntries(entries, nodes) && forall o :: o in nodes ==> o.Valid()
    ensures Writables(entries)
  {
    forall j | 0 <= j < |entries| ensures Writable(entries[j].spec, entries[j].state.value) {
      assert nodes[j].Valid();
    }
  }

  lemma Associative(a: string, b: string, c: string)
    ensures a + b + c == a + (b + c)
  {
  }

  method WriteNextOption(o: ConfigOption, ghost entries: seq<Text.Entry>, ghost k: nat, before: string)
    returns (text: string)
    requires Writables(entries) && k < |entries| && entries[k] == EntryOf(o)
    ensures text + Text.Joined(Text.OptionLines(entries[k + 1..]))
         == before + Text.Joined(Text.OptionLines(entries[k..]))
  {
    NextLine(entries, k);
    var line := ConfigLines.WriteOption(Text.Entry(o.name, o.spec, OptionValue.State(o.value, o.default), o.loaded));
    Associative(before, line, Text.Joined(Text.OptionLines(entries[k + 1..])));
    text := before + line;
  }

  lemma NothingToWrite(entries: seq<Text.Entry>)
    requires entries == []
    ensures Text.Joined(Text.OptionLines(entries)) == ""
  {
  }

  /** The inner loop of config_file_write_internal: the options of a section. */
  method WriteOptions(s: Section, ghost entries: seq<Text.Entry>) returns (text: string)
    requires s.Linked() && AreEntries(entries, s.nodes) && forall o :: o in s.nodes ==> o.Valid()
    ensures Writables(entries) && text == Text.Joined(Text.OptionLines(entries))
  {
    EntriesAreWritable(entries, s.nodes);
    text := "";
    var ptr := s.options;
    ghost var k := 0;
    ghost var end := Text.Joined(Text.OptionLines(entries));
    assert entries[0..] == entries && text + end == end;
    while ptr != null
      invariant 0 <= k <= |s.nodes| && ptr == if k < |s.nodes| then s.nodes[k] else null
      invariant text + Text.Joined(Text.OptionLines(entries[k..])) == end
      decreases |s.nodes| - k
    {
      assert Index(k);
      assert entries[k] == EntryOf(s.nodes[k]);
      text := WriteNextOption(ptr, entries, k, text);
      ptr := ptr.next;
      k := k + 1;
    }
    NothingToWrite(entries[k..]);
    assert text + "" == text;
  }

  ghost predicate SectionsWritable(texts: seq<Text.Section>) {
    forall i, j :: 0 <= i < |texts| && 0 <= j < |texts[i].options| ==>
      Writable(texts[i].options[j].spec, texts[i].options[j].state.value)
  }

  lemma SectionsAreWritable(texts: seq<Text.Section>, sections: seq<Section>, all: set<ConfigOption>)
    requires Covered(sections, all) && AllSound(all) && ShowsSections(texts, sections, all)
    ensures SectionsWritable(texts)
  {
    forall i | 0 <= i < |texts| ensures Writables(texts[i].options) {
      assert ShowsSection(texts[i], sections[i]);
      EntriesAreWritable(texts[i].options, sections[i].nodes);
    }
    forall i, j | 0 <= i < |texts| && 0 <= j < |texts[i].options|
      ensures Writable(texts[i].options[j].spec, texts[i].options[j].state.value)
    {
      assert Writables(texts[i].options);
    }
  }

  /** The text of one section. */
  function SectionText(t: Text.Section): string
    requires forall j :: 0 <= j < |t.options| ==> Writable(t.options[j].spec, t.options[j].state.value)
  {
    "\n[" + t.name + "]\n" + Text.Joined(Text.OptionLines(t.options))
  }

  lemma JoinedHead(name: string)
    ensures Text.Joined(["", "[" + name + "]"]) == "\n[" + name + "]\n"
  {
    var head := ["", "[" + name + "]"];
    assert head[1..] == ["[" + name + "]"] && head[1..][1..] == [];
    assert Text.Joined(head[1..]) == "[" + name + "]" + "\n";
    assert Text.Joined(head) == "" + "\n" + ("[" + name + "]" + "\n");
  }

  lemma NextSection(texts: seq<Text.Section>, k: nat)
    requires SectionsWritable(texts) && k < |texts|
    ensures Text.Joined(Text.SectionLines(texts[k..]))
      == SectionText(texts[k]) + Text.Joined(Text.SectionLines(texts[k + 1..]))
  {
    var t := texts[k];
    assert texts[k..][1..] == texts[k + 1..];
    var head, options, rest := ["", "[" + t.name + "]"], Text.OptionLines(t.options), Text.SectionLines(texts[k + 1..]);
    JoinedConcat(head + options, rest);
    JoinedConcat(head, options);
    JoinedHead(t.name);
  }

  method WriteSection(s: Section, ghost t: Text.Section) returns (text: string)
    requires s.Linked() && ShowsSection(t, s) && forall o :: o in s.nodes ==> o.Valid()
    ensures forall j :: 0 <= j < |t.options| ==> Writable(t.options[j].spec, t.options[j].state.value)
    ensures text == SectionText(t)
  {
    var options := WriteOptions(s, t.options);
    text := "\n[" + s.name + "]\n" + options;
  }

  method WriteNext(s: Section, ghost texts: seq<Text.Section>, ghost i: nat, ghost sections: seq<Section>,
                   ghost all: set<ConfigOption>, before: string) returns (text: string)
    requires Covered(sections, all) && Listed(sections, all) && AllSound(all) && ShowsSections(texts, sections, all)
    requires SectionsWritable(texts) && i < |sections| && sections[i] == s
    ensures text + Text.Joined(Text.SectionLines(texts[i + 1..]))
         == before + Text.Joined(Text.SectionLines(texts[i..]))
  {
    NextSection(texts, i);
    assert ShowsSection(texts[i], s);
    var section := WriteSection(s, texts[i]);
    Associative(before, section, Text.Joined(Text.SectionLines(texts[i + 1..])));
    text := before + section;
  }

  lemma NoSectionToWrite(texts: seq<Text.Section>)
    requires texts == []
    ensures Text.Joined(Text.SectionLines(texts)) == ""
  {
  }

  /** The loop of config_file_write_internal over the sections. */
  method WriteSections(f: ConfigFile, ghost texts: seq<Text.Section>, ghost all: set<ConfigOption>)
    returns (text: string)
    requires Covered(f.sections, all) && Listed(f.sections, all) && AllSound(all)
    requires ShowsSections(texts, f.sections, all)
    ensures SectionsWritable(texts) && text == Text.Joined(Text.SectionLines(texts))
  {
    SectionsAreWritable(texts, f.sections, all);
    text := "";
    var i := 0;
    ghost var end := Text.Joined(Text.SectionLines(texts));
    assert texts[0..] == texts && text + end == end;
    while i < |f.sections|
      invariant i <= |f.sections|
      invariant text + Text.Joined(Text.SectionLines(texts[i..])) == end
    {
      text := WriteNext(f.sections[i], texts, i, f.sections, all, text);
      i := i + 1;
    }
    NoSectionToWrite(texts[i..]);
    assert text + "" == text;
  }

  /** What is written of the version. */
  method WriteVersion(version: int, ghost file: Text.File) returns (text: string)
    requires file.version == version
    ensures text == Text.Joined(Text.VersionLines(file))
  {
    text := "";
    if version > 1 {
      text := "\n" + Text.VERSION_OPTION + " = " + IntText(version) + "\n";
      VersionJoined(Text.VERSION_OPTION + " = " + IntText(version));
    }
  }

  lemma VersionJoined(line: string)
    ensures Text.Joined(["", line]) == "\n" + line + "\n"
  {
    var lines := ["", line];
    assert lines[1..] == [line] && lines[1..][1..] == [];
    assert Text.Joined(lines[1..]) == line + "\n";
    assert Text.Joined(lines) == "" + "\n" + (line + "\n");
  }

  /** config_file_write_internal: the text of the whole file. */
  method Write(f: ConfigFile, comments: seq<string>, ghost file: Text.File, ghost all: set<ConfigOption>)
    returns (text: string)
    requires Covered(f.sections, all) && Listed(f.sections, all) && AllSound(all)
    requires ShowsSections(file.sections, f.sections, all) && file.version == f.version
    ensures Text.FileWritable(file) && text == Text.Written(comments, file)
  {
    var version := WriteVersion(f.version, file);
    var sections := WriteSections(f, file.sections, all);
    text := Text.Joined(Text.HeaderLines(comments)) + version + sections;
    JoinedConcat(Text.HeaderLines(comments) + Text.VersionLines(file), Text.SectionLines(file.sections));
    JoinedConcat(Text.HeaderLines(comments), Text.VersionLines(file));
  }
}
