/** Whole sessions with a store: the checkpoint that a written file is, and runs of
    calls of every kind. */
module ConfigSession {
  import opened OptionLaws
  import opened Names
  import opened ConfigWorld
  import opened ConfigStore
  import opened ConfigRegistry
  import opened ConfigSearch
  import opened ConfigRuns
  import opened StoreReload
  import opened SaveReload
  import Checkpoint
  import ConfigFiles
  import ConfigReload
  import Text = ConfigText

  // ----- the checkpoint

  /** The text that stands for a file, while only values change. */
  twostate lemma SameShape(f: ConfigFile)
    requires f.sections == old(f.sections) && f.version == old(f.version)
    requires forall s :: s in f.sections ==> s.nodes == old(s.nodes)
    requires forall o :: o in OptionsOf(f) ==> o.name == old(o.name)
    requires old(ShowsFile(FileOf(f), f))
    ensures SameSections(old(FileOf(f)).sections, FileOf(f).sections) && FileOf(f).version == old(FileOf(f)).version
  {
    FileIsShown(f);
    var a, b := old(FileOf(f)).sections, FileOf(f).sections;
    forall i | 0 <= i < |a| ensures a[i].name == b[i].name && SameOptions(a[i].options, b[i].options) {
      assert old(ConfigFiles.ShowsSection(a[i], f.sections[i])) && ConfigFiles.ShowsSection(b[i], f.sections[i]);
      var nodes := f.sections[i].nodes;
      forall j | 0 <= j < |nodes|
        ensures a[i].options[j].name == b[i].options[j].name && a[i].options[j].spec == b[i].options[j].spec
      {
        assert a[i].options[j] == old(ConfigFiles.EntryOf(nodes[j]));
        assert b[i].options[j] == ConfigFiles.EntryOf(nodes[j]);
        assert nodes[j] in OptionsOf(f);
      }
    }
  }

  /** Values in the text are values of options. */
  twostate lemma ValuesBack(f: ConfigFile)
    requires f.sections == old(f.sections) && forall s :: s in f.sections ==> s.nodes == old(s.nodes)
    requires old(ShowsFile(FileOf(f), f)) && Checkpoint.SameValues(old(FileOf(f)).sections, FileOf(f).sections)
    ensures forall o :: o in OptionsOf(f) ==> o.value == old(o.value)
  {
    FileIsShown(f);
    var a, b := old(FileOf(f)).sections, FileOf(f).sections;
    forall o | o in OptionsOf(f) ensures o.value == old(o.value) {
      var s :| s in f.sections && o in s.nodes;
      var i :| 0 <= i < |f.sections| && f.sections[i] == s;
      var j :| 0 <= j < |s.nodes| && s.nodes[j] == o;
      assert old(ConfigFiles.ShowsSection(a[i], f.sections[i])) && ConfigFiles.ShowsSection(b[i], f.sections[i]);
      assert a[i].options[j] == old(ConfigFiles.EntryOf(o)) && b[i].options[j] == ConfigFiles.EntryOf(o);
    }
  }

  /** Edits, then a reload of a text that was written before them. */
  method EditReload(st: Store, f: ConfigFile, text: string, edits: seq<(Key, Op)>, ghost comments: seq<string>,
                    ghost saved: Text.File)
    requires Ready(st) && f in st.files && forall i :: 0 <= i < |edits| ==> Callable(edits[i].1)
    requires saved == FileOf(f) && GoodComments(comments) && GoodFile(saved)
    requires Text.FileWritable(saved) && text == Text.Written(comments, saved)
    modifies st.all`value, st.all`default, st.all`loaded, st.hooks, st`world
    ensures Ready(st) && Checkpoint.SameValues(saved.sections, FileOf(f).sections)
  {
    FileIsShown(f);
    FileInStore(st, f);
    RunEdits(st, edits);
    SameShape(f);
    ghost var now := FileOf(f);
    SaveThenReload(comments, saved, now);
    Checkpoint.RestoredHaveValues(saved.sections, now.sections);
    Reload(st, f, text);
  }

  method WriteBack(st: Store, f: ConfigFile, comments: seq<string>, edits: seq<(Key, Op)>, ghost saved: Text.File)
    requires Ready(st) && f in st.files && forall i :: 0 <= i < |edits| ==> Callable(edits[i].1)
    requires saved == FileOf(f) && GoodComments(comments) && GoodFile(saved)
    modifies st.all`value, st.all`default, st.all`loaded, st.hooks, st`world
    ensures Ready(st) && Checkpoint.SameValues(saved.sections, FileOf(f).sections)
  {
    FileIsShown(f);
    var text := WriteShown(st, f, comments, saved);
    FileKept(f);
    EditReload(st, f, text, edits, comments, saved);
  }

  /** On the heap: write a file, run any operations on the options of the store,
      reload: every option of the file has the value it had when it was written. */
  method WriteEditReload(st: Store, f: ConfigFile, comments: seq<string>, edits: seq<(Key, Op)>)
    requires Ready(st) && f in st.files && forall i :: 0 <= i < |edits| ==> Callable(edits[i].1)
    requires GoodComments(comments) && GoodFile(FileOf(f))
    modifies st.all`value, st.all`default, st.all`loaded, st.hooks, st`world
    ensures Ready(st) && forall o :: o in OptionsOf(f) ==> o.value == old(o.value)
  {
    FileIsShown(f);
    WriteBack(st, f, comments, edits, FileOf(f));
    ValuesBack(f);
  }

  // ----- calls of every kind

  /** A call on the store: on its options, on its files and sections, or the
      reload of a file. */
  datatype Request =
    | OnOption(action: Action)
    | AddFile(text: string)
    | AddSection(file: string, section: string)
    | ReloadFile(file: string, text: string)

  /** Everything that is there was there before, or is fresh. */
  twostate predicate Grown(st: Store)
    reads st`files, st`sections, st`all
  {
    && (forall i :: 0 <= i < |st.files| ==> st.files[i] in old(st.files) || fresh(st.files[i]))
    && fresh(st.sections - old(st.sections)) && fresh(st.all - old(st.all))
  }

  predicate AllAllowed(actions: seq<Action>) {
    forall i :: 0 <= i < |actions| ==> Allowed(actions[i])
  }

  /** The calls on options that the reload of a file amounts to. */
  ghost predicate IsReload(file: Text.File, text: string, actions: seq<Action>) {
    Text.WellFormedFile(file) && actions == ConfigReload.ReloadActions(file, text)
  }

  method ServeOption(st: Store, a: Action) returns (ghost actions: seq<Action>)
    requires Ready(st) && Allowed(a)
    modifies st`all, st`world, st.sections, st.all, st.hooks
    ensures Ready(st) && fresh(st.all - old(st.all))
    ensures actions == if old(Possible(st, a)) then [a] else []
    ensures st.world == Run(old(st.world), actions)
  {
    actions := [];
    if a.New? {
      var section := SearchKeySection(st, Key(a.file, a.section, ""));
      if section == null {
        return;
      }
    }
    actions := [a];
    ghost var w := st.world;
    Call(st, a);
    RunOne(w, a);
  }

  lemma RunOne(w: World, a: Action)
    requires ConfigWorld.Valid(w) && Coherent(w) && Allowed(a)
    ensures Run(w, [a]) == Step(w, a)
  {
    StepCoherent(w, a);
    assert [a][1..] == [];
  }

  method ServeFile(st: Store, text: string)
    requires Ready(st)
    modifies st`files
    ensures Ready(st) && Grown(st)
    ensures st.world == old(st.world)
  {
    var _ := NewFile(st, text);
  }

  method AddTo(st: Store, f: ConfigFile, name: string)
    requires Ready(st) && f in st.files
    modifies st`sections, f`sections
    ensures Ready(st) && fresh(st.sections - old(st.sections)) && st.world == old(st.world)
  {
    var _ := NewSection(st, f, name);
  }

  method ServeSection(st: Store, fileName: string, name: string)
    requires Ready(st)
    modifies st`sections, st.files`sections
    ensures Ready(st) && fresh(st.sections - old(st.sections)) && st.world == old(st.world)
  {
    var f := SearchFile(st.files, fileName);
    if f != null {
      AddTo(st, f, name);
    }
  }

  /** The reload of a file of the store, as a run. */
  method ReloadFound(st: Store, f: ConfigFile, text: string) returns (ghost actions: seq<Action>)
    requires Ready(st) && f in st.files
    modifies st.all`value, st.all`loaded, st.hooks, st`world
    ensures Ready(st) && AllAllowed(actions) && st.world == Run(old(st.world), actions)
    ensures IsReload(old(FileOf(f)), text, actions)
  {
    FileInStore(st, f);
    ghost var shown := FileOf(f);
    Reload(st, f, text);
    actions := ConfigReload.ReloadActions(shown, text);
  }

  method ServeReload(st: Store, name: string, text: string) returns (f: ConfigFile?, ghost actions: seq<Action>)
    requires Ready(st)
    modifies st.all`value, st.all`loaded, st.hooks, st`world
    ensures Ready(st) && AllAllowed(actions) && st.world == Run(old(st.world), actions)
    ensures f == null ==> name !in FileNames(old(st.files)) && actions == []
    ensures f != null ==> f in old(st.files) && f.name == name && IsReload(old(FileOf(f)), text, actions)
  {
    actions := [];
    f := SearchFile(st.files, name);
    if f != null {
      FileKept(f);
      actions := ReloadFound(st, f, text);
    }
  }

  /** Any call. The calls on options that it amounts to are a run of the world. */
  method Serve(st: Store, q: Request) returns (ghost actions: seq<Action>)
    requires Ready(st) && (q.OnOption? ==> Allowed(q.action))
    modifies st`files, st`sections, st`all, st`world, st.files`sections, st.sections, st.all, st.hooks
    ensures Ready(st) && Grown(st)
    ensures AllAllowed(actions) && st.world == Run(old(st.world), actions)
    ensures match q
      case OnOption(a) => actions == if old(Possible(st, a)) then [a] else []
      case AddFile(_) => actions == []
      case AddSection(_, _) => actions == []
      case ReloadFile(name, text) =>
        || (name !in FileNames(old(st.files)) && actions == [])
        || exists f :: f in old(st.files) && f.name == name && IsReload(old(FileOf(f)), text, actions)
  {
    actions := [];
    match q {
      case OnOption(a) => actions := ServeOption(st, a);
      case AddFile(text) => ServeFile(st, text);
      case AddSection(file, section) => ServeSection(st, file, section);
      case ReloadFile(file, text) =>
        var _, made := ServeReload(st, file, text);
        actions := made;
    }
  }

  lemma RunJoined(w: World, a: seq<Action>, b: seq<Action>)
    requires ConfigWorld.Valid(w) && Coherent(w) && AllAllowed(a) && AllAllowed(b)
    ensures AllAllowed(a + b)
    ensures var w' := Run(w, a); ConfigWorld.Valid(w') && Coherent(w') && Run(w, a + b) == Run(w', b)
  {
    ConfigReload.RunConcat(w, a, b);
  }

  /** Calls of every kind, in any order, from any store that is ready, so from a new
      one: the store is ready in between and in the end, and shows the world after
      the calls on options that they amount to. */
  method ServeAll(st: Store, requests: seq<Request>) returns (ghost actions: seq<Action>)
    requires Ready(st) && forall i :: 0 <= i < |requests| && requests[i].OnOption? ==> Allowed(requests[i].action)
    modifies st`files, st`sections, st`all, st`world, st.files`sections, st.sections, st.all, st.hooks
    ensures Ready(st) && Grown(st)
    ensures AllAllowed(actions) && st.world == Run(old(st.world), actions)
    decreases |requests|
  {
    actions := [];
    if requests != [] {
      ghost var w := st.world;
      var first := Serve(st, requests[0]);
      var rest := ServeAll(st, requests[1..]);
      RunJoined(w, first, rest);
      actions := first + rest;
    }
  }
}
