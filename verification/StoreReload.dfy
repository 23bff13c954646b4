/** Reloading a configuration file in the store. */
module StoreReload {
  import opened Names
  import opened ConfigWorld
  import opened ConfigStore
  import opened ConfigRegistry
  import opened ConfigSearch
  import opened ConfigRuns
  import ConfigFiles
  import ConfigReload
  import SaveReload
  import Text = ConfigText

  // ----- the text that a file stands for

  ghost function OptionsIn(sections: seq<Section>): set<ConfigOption>
    reads sections`nodes
    ensures ConfigFiles.Covered(sections, OptionsIn(sections))
  {
    set s, o | s in sections && o in s.nodes :: o
  }

  /** The options of a file. */
  ghost function OptionsOf(f: ConfigFile): set<ConfigOption>
    reads f`sections, f.sections`nodes
  {
    OptionsIn(f.sections)
  }

  ghost function EntriesOf(nodes: seq<ConfigOption>): seq<Text.Entry>
    reads nodes`name, nodes`value, nodes`default, nodes`loaded
  {
    if nodes == [] then [] else [ConfigFiles.EntryOf(nodes[0])] + EntriesOf(nodes[1..])
  }

  ghost function SectionsOf(sections: seq<Section>): seq<Text.Section>
    reads sections`nodes
    reads OptionsIn(sections)`name, OptionsIn(sections)`value, OptionsIn(sections)`default, OptionsIn(sections)`loaded
  {
    if sections == [] then []
    else
      assert sections[0] in sections && forall s :: s in sections[1..] ==> s in sections;
      [Text.Section(sections[0].name, EntriesOf(sections[0].nodes))] + SectionsOf(sections[1..])
  }

  /** The text that stands for a file. */
  ghost function FileOf(f: ConfigFile): Text.File
    reads f, f.sections`nodes, OptionsOf(f)`name, OptionsOf(f)`value, OptionsOf(f)`default, OptionsOf(f)`loaded
  {
    Text.File(f.name, f.version, SectionsOf(f.sections))
  }

  /** What it means for a text to stand for a file. */
  ghost predicate ShowsFile(file: Text.File, f: ConfigFile)
    reads f, f.sections`nodes, OptionsOf(f)`name, OptionsOf(f)`value, OptionsOf(f)`default, OptionsOf(f)`loaded
  {
    && file.name == f.name && file.version == f.version
    && ConfigFiles.ShowsSections(file.sections, f.sections, OptionsOf(f))
  }

  lemma {:induction false} EntriesShown(nodes: seq<ConfigOption>)
    ensures ConfigFiles.AreEntries(EntriesOf(nodes), nodes)
    decreases nodes
  {
    if nodes != [] {
      EntriesShown(nodes[1..]);
    }
  }

  lemma {:induction false} SectionsShown(sections: seq<Section>)
    ensures ConfigFiles.ShowsSections(SectionsOf(sections), sections, OptionsIn(sections))
    decreases sections
  {
    if sections != [] {
      EntriesShown(sections[0].nodes);
      SectionsShown(sections[1..]);
    }
  }

  lemma FileIsShown(f: ConfigFile)
    ensures ShowsFile(FileOf(f), f)
  {
    SectionsShown(f.sections);
  }

  /** The text stays the same as long as nothing in it changes. */
  twostate lemma FileKept(f: ConfigFile)
    requires f.version == old(f.version) && f.sections == old(f.sections)
    requires forall s :: s in f.sections ==> s.nodes == old(s.nodes)
    requires forall o :: o in OptionsOf(f) ==>
      o.name == old(o.name) && o.value == old(o.value) && o.default == old(o.default) && o.loaded == old(o.loaded)
    ensures FileOf(f) == old(FileOf(f))
  {
    assert OptionsOf(f) == old(OptionsOf(f));
  }

  /** There is only one. */
  lemma OneText(file: Text.File, f: ConfigFile)
    requires ShowsFile(file, f)
    ensures file == FileOf(f)
  {
    var other := FileOf(f);
    FileIsShown(f);
    forall i | 0 <= i < |f.sections| ensures file.sections[i] == other.sections[i] {
      assert ConfigFiles.ShowsSection(file.sections[i], f.sections[i]);
      assert ConfigFiles.ShowsSection(other.sections[i], f.sections[i]);
      SameEntries(file.sections[i].options, other.sections[i].options, f.sections[i].nodes);
    }
    assert file.sections == other.sections;
  }

  lemma SameEntries(a: seq<Text.Entry>, b: seq<Text.Entry>, nodes: seq<ConfigOption>)
    requires ConfigFiles.AreEntries(a, nodes) && ConfigFiles.AreEntries(b, nodes)
    ensures a == b
  {
    forall i | 0 <= i < |a| ensures a[i] == b[i] {
      assert a[i] == ConfigFiles.EntryOf(nodes[i]);
    }
  }

  // ----- what the reader needs and changes

  lemma FileInStore(st: Store, f: ConfigFile)
    requires st.Shaped() && Searchable(st) && f in st.files
    ensures OptionsOf(f) <= st.all && ConfigFiles.OfFile(f.sections, f.name)
    ensures forall s :: s in f.sections ==> s.Linked()
  {
    forall s | s in f.sections ensures s in st.sections && s.fileName == f.name {
    }
  }

  /** What the reader of a file relies on. */
  lemma FileIsReady(st: Store, f: ConfigFile)
    requires Ready(st) && f in st.files
    ensures OptionsOf(f) <= st.all && ConfigFiles.Listed(f.sections, OptionsOf(f))
    ensures ConfigFiles.AllSound(OptionsOf(f)) && ConfigFiles.OfFile(f.sections, f.name)
  {
    forall s | s in f.sections ensures s in st.sections && s.fileName == f.name {
    }
  }

  lemma EntriesAreKnown(st: Store, s: Section, entries: seq<Text.Entry>)
    requires st.Collected() && st.Ordered() && st.Shown()
    requires s in st.sections && ConfigFiles.AreEntries(entries, s.nodes)
    ensures ConfigReload.KnowsEntries(st.world, s.fileName, s.name, entries) && SaveReload.UniqueOptions(entries)
  {
    forall j | 0 <= j < |entries|
      ensures ConfigReload.KnowsEntry(st.world, Key(s.fileName, s.name, entries[j].name), entries[j])
      ensures entries[j].name == s.names[j]
    {
      var o := s.nodes[j];
      assert o in st.all && o.section == s;
      assert st.world.options[o.Key()] == o.Item();
    }
    forall i, j | 0 <= i < j < |entries| ensures entries[i].name != entries[j].name {
      assert s.names[i] != s.names[j];
    }
  }

  lemma FileIsKnown(st: Store, f: ConfigFile, file: Text.File)
    requires Ready(st) && f in st.files && ShowsFile(file, f)
    ensures ConfigReload.Knows(st.world, file.name, file.sections) && ConfigReload.UniqueKeys(file.sections)
  {
    forall i | 0 <= i < |file.sections|
      ensures ConfigReload.KnowsEntries(st.world, file.name, file.sections[i].name, file.sections[i].options)
      ensures SaveReload.UniqueOptions(file.sections[i].options) && file.sections[i].name == f.sections[i].name
    {
      assert ConfigFiles.ShowsSection(file.sections[i], f.sections[i]);
      assert f.sections[i] in f.sections;
      EntriesAreKnown(st, f.sections[i], file.sections[i].options);
    }
  }

  lemma OwnShown(f: ConfigFile, file: Text.File, w: World, o: ConfigOption)
    requires ShowsFile(file, f) && ConfigFiles.OfFile(f.sections, f.name) && o in OptionsOf(f)
    requires forall s :: s in f.sections ==> s.Linked()
    requires ConfigReload.Knows(w, file.name, file.sections)
    ensures o.Key() in w.options && w.options[o.Key()].spec == o.spec && w.options[o.Key()].state == o.State()
  {
    var s :| s in f.sections && o in s.nodes;
    var i :| 0 <= i < |f.sections| && f.sections[i] == s;
    var j :| 0 <= j < |s.nodes| && s.nodes[j] == o;
    assert ConfigFiles.ShowsSection(file.sections[i], s);
    var e := file.sections[i].options[j];
    assert e == ConfigFiles.EntryOf(o);
    assert ConfigReload.KnowsEntries(w, file.name, file.sections[i].name, file.sections[i].options);
    assert ConfigReload.KnowsEntry(w, Key(file.name, s.name, e.name), e);
  }

  /** Only the options of a file have its keys. */
  lemma KeyOfFile(st: Store, f: ConfigFile, file: Text.File, o: ConfigOption)
    requires st.Keyed() && OptionsOf(f) <= st.all && ShowsFile(file, f) && ConfigFiles.OfFile(f.sections, f.name)
    requires forall s :: s in f.sections ==> s.Linked()
    requires o in st.all && o.Key() in ConfigReload.FileKeys(file.name, file.sections)
    ensures o in OptionsOf(f)
  {
    var i :| 0 <= i < |file.sections|
      && o.Key() in ConfigReload.KeysOf(file.name, file.sections[i].name, file.sections[i].options);
    var j :| 0 <= j < |file.sections[i].options| && file.sections[i].options[j].name == o.name;
    var s := f.sections[i];
    assert ConfigFiles.ShowsSection(file.sections[i], s);
    var p := s.nodes[j];
    assert s in f.sections && p.section == s;
    assert file.sections[i].options[j] == ConfigFiles.EntryOf(p);
    assert p.Key() == o.Key();
    assert p in OptionsOf(f);
  }

  /** What the store shows after the values of a file have changed. */
  lemma ReloadedShown(st: Store, f: ConfigFile, file: Text.File, w: World)
    requires st.Keyed() && OptionsOf(f) <= st.all && ShowsFile(file, f) && ConfigFiles.OfFile(f.sections, f.name)
    requires forall s :: s in f.sections ==> s.Linked()
    requires st.ShownBut(OptionsOf(f))
    requires ConfigReload.Follows(st.world, w, ConfigReload.FileKeys(file.name, file.sections))
    requires ConfigReload.Knows(w, file.name, file.sections)
    ensures st.ShowsOptions(w.options)
  {
    forall o | o in st.all ensures w.options[o.Key()] == o.Item() {
      if o in OptionsOf(f) {
        OwnShown(f, file, w, o);
      } else if o.Key() in ConfigReload.FileKeys(file.name, file.sections) {
        KeyOfFile(st, f, file, o);
      }
    }
  }

  /** At most the values of some options have changed, and that they are loaded. */
  twostate predicate OnlyValues(st: Store, own: set<ConfigOption>)
    reads st`all, st.all`name, st.all`value, st.all`default, st.all`parentName
  {
    && st.all == old(st.all)
    && (forall o :: o in st.all ==> o.Key() == old(o.Key()) && o.parentName == old(o.parentName))
    && forall o :: o in st.all && o !in own ==> o.Item() == old(o.Item())
  }

  /** The part that touches the options, with what does not change. */
  method ReloadValues(st: Store, f: ConfigFile, text: string, ghost file: Text.File, ghost own: set<ConfigOption>)
    requires ConfigFiles.Covered(f.sections, own) && ConfigFiles.Listed(f.sections, own)
    requires ConfigFiles.AllSound(own) && ConfigSearch.Distinct(f.sections) && ConfigFiles.OfFile(f.sections, file.name)
    requires ConfigFiles.ShowsSections(file.sections, f.sections, own) && file.version == f.version
    modifies own`value, own`loaded, st.hooks
    ensures Text.WellFormedFile(file) && SaveReload.SoundSections(file.sections)
    ensures ConfigFiles.ShowsSections(Text.Reloaded(file, text).sections, f.sections, own)
    ensures st.hooks.sent == old(st.hooks.sent) + ConfigReload.ReloadNotes(file, text)
    ensures st.SameLists() && OnlyValues(st, own)
  {
    ConfigFiles.Reload(f, text, st.hooks, file, own);
  }

  /** The same in a store that is ready. */
  method ReloadOptions(st: Store, f: ConfigFile, text: string, ghost file: Text.File, ghost own: set<ConfigOption>)
    requires Ready(st) && f in st.files && ShowsFile(file, f) && own == OptionsOf(f)
    modifies own`value, own`loaded, st.hooks
    ensures Text.WellFormedFile(file) && SaveReload.SoundSections(file.sections)
    ensures ShowsFile(Text.Reloaded(file, text), f)
    ensures st.hooks.sent == old(st.hooks.sent) + ConfigReload.ReloadNotes(file, text)
    ensures st.SameLists() && OnlyValues(st, own)
  {
    FileIsReady(st, f);
    ReloadValues(st, f, text, file, own);
    ConfigReload.ReloadKeepsVersion(file, text);
  }

  /** The lists are as they were. */
  method ReloadInLists(st: Store, f: ConfigFile, text: string, ghost file: Text.File, ghost own: set<ConfigOption>)
    requires Ready(st) && f in st.files && ShowsFile(file, f) && own == OptionsOf(f)
    modifies own`value, own`loaded, st.hooks
    ensures Text.WellFormedFile(file) && SaveReload.SoundSections(file.sections)
    ensures ShowsFile(Text.Reloaded(file, text), f)
    ensures st.hooks.sent == old(st.hooks.sent) + ConfigReload.ReloadNotes(file, text)
    ensures st.Shaped() && Searchable(st) && st.SameLists() && OnlyValues(st, own)
  {
    FileIsReady(st, f);
    ReloadOptions(st, f, text, file, own);
    st.ShapeKept();
  }

  /** Nothing but the values of this file has changed. */
  method ReloadInStore(st: Store, f: ConfigFile, text: string, ghost file: Text.File, ghost own: set<ConfigOption>)
    requires Ready(st) && f in st.files && ShowsFile(file, f) && own == OptionsOf(f)
    modifies own`value, own`loaded, st.hooks
    ensures Text.WellFormedFile(file) && SaveReload.SoundSections(file.sections)
    ensures ShowsFile(Text.Reloaded(file, text), f)
    ensures st.hooks.sent == old(st.hooks.sent) + ConfigReload.ReloadNotes(file, text)
    ensures st.Shaped() && Searchable(st) && st.SameLists() && st.ShownBut(OptionsOf(f))
  {
    FileIsReady(st, f);
    ReloadInLists(st, f, text, file, own);
    st.OtherValuesShown(own);
  }

  ghost method SetWorld(st: Store, w: World)
    requires st.Shaped() && Searchable(st) && st.ShowsOptions(w.options) && st.hooks.sent == w.sent
    requires ConfigWorld.Valid(w) && Coherent(w)
    modifies st`world
    ensures Ready(st) && st.world == w
  {
    st.world := w;
    st.ListsKept();
    st.ListedKept();
    st.SoundAsShown();
  }

  ghost method ShowReloaded(st: Store, f: ConfigFile, file: Text.File, w: World)
    requires st.Shaped() && Searchable(st) && f in st.files && st.ShownBut(OptionsOf(f)) && ShowsFile(file, f)
    requires ConfigReload.Follows(st.world, w, ConfigReload.FileKeys(file.name, file.sections))
    requires ConfigReload.Knows(w, file.name, file.sections) && st.hooks.sent == w.sent
    modifies st`world
    ensures Ready(st) && st.world == w && ShowsFile(file, f)
  {
    st.KeysDiffer();
    FileInStore(st, f);
    ReloadedShown(st, f, file, w);
    SetWorld(st, w);
  }

  /** The world after a reload. */
  lemma ReloadedWorld(st: Store, f: ConfigFile, text: string, file: Text.File)
    requires Ready(st) && f in st.files && ShowsFile(file, f)
    ensures Text.WellFormedFile(file) && SaveReload.SoundSections(file.sections)
    ensures var w := Run(st.world, ConfigReload.ReloadActions(file, text));
      && ConfigReload.Follows(st.world, w, ConfigReload.FileKeys(file.name, Text.Reloaded(file, text).sections))
      && ConfigReload.Knows(w, file.name, Text.Reloaded(file, text).sections)
      && w.sent == st.world.sent + ConfigReload.ReloadNotes(file, text)
  {
    FileIsKnown(st, f, file);
    ConfigReload.ReloadIsRun(st.world, file, text);
  }

  /** The same for any text that stands for the file. */
  method ReloadShown(st: Store, f: ConfigFile, text: string, ghost file: Text.File)
    requires Ready(st) && f in st.files && ShowsFile(file, f)
    modifies OptionsOf(f)`value, OptionsOf(f)`loaded, st.hooks, st`world
    ensures Text.WellFormedFile(file)
    ensures Ready(st) && st.world == Run(old(st.world), ConfigReload.ReloadActions(file, text))
    ensures ShowsFile(Text.Reloaded(file, text), f)
  {
    ReloadedWorld(st, f, text, file);
    ghost var w := Run(st.world, ConfigReload.ReloadActions(file, text));
    ReloadInStore(st, f, text, file, OptionsOf(f));
    ShowReloaded(st, f, Text.Reloaded(file, text), w);
  }

  /** config_file_reload in the store. It is a run of calls on the world: one set
      for every line of the text with an option of the file, then one reset for
      every option that was not in the text. So it leaves the store ready, and
      listeners know every value it restored. */
  method Reload(st: Store, f: ConfigFile, text: string)
    requires Ready(st) && f in st.files
    modifies OptionsOf(f)`value, OptionsOf(f)`loaded, st.hooks, st`world
    ensures Text.WellFormedFile(old(FileOf(f)))
    ensures Ready(st) && st.world == Run(old(st.world), ConfigReload.ReloadActions(old(FileOf(f)), text))
    ensures FileOf(f) == Text.Reloaded(old(FileOf(f)), text)
  {
    ghost var file := FileOf(f);
    FileIsShown(f);
    ReloadShown(st, f, text, file);
    OneText(Text.Reloaded(file, text), f);
  }

  method WriteShown(st: Store, f: ConfigFile, comments: seq<string>, ghost file: Text.File) returns (text: string)
    requires Ready(st) && f in st.files && ShowsFile(file, f)
    ensures Text.FileWritable(file) && text == Text.Written(comments, file)
  {
    FileIsReady(st, f);
    text := ConfigFiles.Write(f, comments, file, OptionsOf(f));
  }

  /** config_file_write of a file of the store. */
  method Write(st: Store, f: ConfigFile, comments: seq<string>) returns (text: string)
    requires Ready(st) && f in st.files
    ensures Text.FileWritable(old(FileOf(f))) && text == Text.Written(comments, old(FileOf(f)))
  {
    ghost var file := FileOf(f);
    FileIsShown(f);
    text := WriteShown(st, f, comments, file);
  }
}
