/** What listeners hear of each option while a file is read and reloaded. */
module ReloadTelling {
  import opened Wrappers
  import opened OptionValue
  import opened OptionLaws
  import opened Names
  import opened ConfigWorld
  import opened ConfigText
  import opened SaveReload
  import opened ConfigReload
  import opened ReloadMeaning

  /** The notifications with a name, in their order. */
  function About(notes: seq<Note>, name: string): seq<Note> {
    if notes == [] then []
    else (if notes[0].name == name then [notes[0]] else []) + About(notes[1..], name)
  }

  /** What is said of an option with a new value: the value as users see it, or NULL. */
  function Now(name: string, o: Spec, v: Option<Value>): Note
    requires SoundValue(o, v)
  {
    Note(name, if v.None? then None else Some(Rendered(o, v)))
  }

  /** One notification for each text that changes the value, in their order. */
  function Changes(name: string, o: Spec, s: State, texts: seq<Option<string>>): seq<Note>
    requires Sound(o, s)
    decreases texts
  {
    if texts == [] then []
    else
      DoKeepsSound(o, s, OpSet(texts[0]));
      var t := Set(o, s, texts[0]).0;
      (if t != s then [Now(name, o, t.value)] else []) + Changes(name, o, t, texts[1..])
  }

  lemma {:induction false} AboutParts(a: seq<Note>, b: seq<Note>, name: string)
    ensures About(a + b, name) == About(a, name) + About(b, name)
    decreases a
  {
    if a == [] {
      assert a + b == b;
    } else {
      assert (a + b)[1..] == a[1..] + b;
      AboutParts(a[1..], b, name);
      Regrouped(if a[0].name == name then [a[0]] else [], About(a[1..], name), About(b, name));
    }
  }

  lemma Regrouped(a: seq<Note>, b: seq<Note>, c: seq<Note>)
    ensures a + (b + c) == a + b + c
  {
  }

  lemma AboutOne(n: Note, name: string)
    ensures About([n], name) == (if n.name == name then [n] else []) && About([], name) == []
  {
    assert [n][1..] == [];
  }

  // ----- one option

  /** What a set tells, under the name of the option and under any other. */
  lemma SetTells(k: Key, e: Entry, value: Option<string>, name: string)
    requires Sound(e.spec, e.state)
    ensures About(OpNotes(k, e, OpSet(value)), name)
         == if FullName(k) == name then Changes(name, e.spec, e.state, [value]) else []
  {
    DoKeepsSound(e.spec, e.state, OpSet(value));
    ResultIsTruthful(e.spec, e.state, OpSet(value));
    var t := Set(e.spec, e.state, value).0;
    ShownIsRendered(e.spec, t.value);
    AboutOne(Note(FullName(k), Shown(e.spec, t.value)), name);
    assert [value][1..] == [];
    assert Changes(name, e.spec, t, []) == [];
  }

  lemma ResetTells(k: Key, e: Entry, name: string)
    requires Sound(e.spec, e.state)
    ensures About(OpNotes(k, e, OpReset), name)
         == if FullName(k) == name && e.state.value != e.state.default then [Now(name, e.spec, e.state.default)] else []
  {
    DoKeepsSound(e.spec, e.state, OpReset);
    ShownIsRendered(e.spec, e.state.default);
    AboutOne(Note(FullName(k), Shown(e.spec, e.state.default)), name);
  }

  lemma MoreChanges(name: string, o: Spec, s: State, some: seq<Option<string>>, more: seq<Option<string>>)
    requires Sound(o, s) && |some| <= 1
    ensures Sound(o, SetAll(o, s, some))
    ensures Changes(name, o, s, some + more) == Changes(name, o, s, some) + Changes(name, o, SetAll(o, s, some), more)
  {
    if some == [] {
      assert some + more == more;
    } else {
      var t := Set(o, s, some[0]).0;
      DoKeepsSound(o, s, OpSet(some[0]));
      assert (some + more)[1..] == more && some[1..] == [];
      assert SetAll(o, t, []) == t && Changes(name, o, t, []) == [];
    }
  }

  // ----- names

  /** A file whose options have different full names. */
  ghost predicate Named(f: File) {
    NoDot(f.name) && UniqueKeys(f.sections) && forall i :: 0 <= i < |f.sections| ==> NoDot(f.sections[i].name)
  }

  function KeyOf(f: File, i: nat, j: nat): Key
    requires i < |f.sections| && j < |f.sections[i].options|
  {
    Key(f.name, f.sections[i].name, f.sections[i].options[j].name)
  }

  lemma DifferentNames(f: File, i: nat, j: nat, a: nat, b: nat)
    requires Named(f) && i < |f.sections| && j < |f.sections[i].options|
    requires a < |f.sections| && b < |f.sections[a].options|
    ensures FullName(KeyOf(f, i, j)) == FullName(KeyOf(f, a, b)) <==> i == a && j == b
  {
    assert i != a ==> f.sections[i].name != f.sections[a].name;
    assert UniqueOptions(f.sections[i].options);
    if FullName(KeyOf(f, i, j)) == FullName(KeyOf(f, a, b)) {
      FullNameInjective(KeyOf(f, i, j), KeyOf(f, a, b));
    }
  }

  lemma SameKey(f: File, g: File, i: nat, j: nat)
    requires SameShape(f, g) && i < |f.sections| && j < |f.sections[i].options|
    ensures KeyOf(f, i, j) == KeyOf(g, i, j)
    ensures Named(f) ==> Named(g)
  {
    SameKeys(f.name, f.sections, g.sections);
  }

  // ----- reading

  /** What a line of an option in section k tells about option j of section i. */
  lemma OptionLineTells(f: File, k: nat, name: string, value: Option<string>, i: nat, j: nat)
    requires Named(f) && SoundSections(f.sections) && k < |f.sections| && name != ""
    requires i < |f.sections| && j < |f.sections[i].options|
    ensures var s, e := f.sections[k], f.sections[i].options[j];
      var full := FullName(KeyOf(f, i, j));
      About(LoadInNotes(f.name, s.name, s.options, name, value), full)
      == Changes(full, e.spec, e.state, if IsNamed(f, Some(k), name, i, j) then [value] else [])
  {
    var options := f.sections[k].options;
    match IndexOfOption(options, name) {
      case Some(b) =>
        SetTells(KeyOf(f, k, b), options[b], value, FullName(KeyOf(f, i, j)));
        DifferentNames(f, i, j, k, b);
      case None =>
    }
  }

  lemma ChunkTells(f: File, r: Read, chunk: string, i: nat, j: nat)
    requires Readable(r) && SameShape(f, r.file) && Named(f) && SoundSections(r.file.sections)
    requires i < |f.sections| && j < |f.sections[i].options|
    ensures var e, full := r.file.sections[i].options[j], FullName(KeyOf(f, i, j));
      About(LineNotes(r, chunk), full)
      == Changes(full, e.spec, e.state, TextsOf(f, r.section, ParseLine(chunk), i, j))
  {
    match ParseLine(chunk) {
      case OptionText(name, right) =>
        if r.section.Some? && name != "" {
          SameKey(f, r.file, i, j);
          SameOptionIndex(f.sections[i].options, r.file.sections[i].options, name);
          OptionLineTells(r.file, r.section.value, name, LineValue(right), i, j);
        }
      case _ =>
    }
  }

  lemma {:induction false} TextTells(f: File, r: Read, text: string, i: nat, j: nat)
    requires Readable(r) && SameShape(f, r.file) && r.go && Named(f) && SoundSections(r.file.sections)
    requires i < |f.sections| && j < |f.sections[i].options|
    ensures var e, full := r.file.sections[i].options[j], FullName(KeyOf(f, i, j));
      About(ReadNotes(r, text), full) == Changes(full, e.spec, e.state, TextsFor(f, r.section, text, i, j))
    decreases |text|
  {
    if text != "" {
      var n := ChunkLength(text, MAX_CHUNK);
      var r1, line := ReadLine(r, text[..n]), ParseLine(text[..n]);
      var e, full := r.file.sections[i].options[j], FullName(KeyOf(f, i, j));
      ChunkLoads(f, r, text[..n], i, j);
      ChunkTells(f, r, text[..n], i, j);
      LineKeepsSound(r, text[..n]);
      AboutParts(LineNotes(r, text[..n]), ReadNotes(r1, text[n..]), full);
      if r1.go {
        TextTells(f, r1, text[n..], i, j);
        MoreChanges(full, e.spec, e.state, TextsOf(f, r.section, line, i, j), TextsFor(f, r1.section, text[n..], i, j));
      }
    }
  }

  // ----- resetting

  /** What is told of an option that is reset unless it was loaded. */
  function ResetNews(name: string, e: Entry): seq<Note>
    requires Sound(e.spec, e.state)
  {
    if !e.loaded && e.state.value != e.state.default then [Now(name, e.spec, e.state.default)] else []
  }

  lemma OneSettled(f: File, a: nat, b: nat, i: nat, j: nat)
    requires Named(f) && SoundSections(f.sections)
    requires i < |f.sections| && j < |f.sections[i].options|
    requires a < |f.sections| && b < |f.sections[a].options|
    ensures var full := FullName(KeyOf(f, i, j));
      About(SettleOneNotes(KeyOf(f, a, b), f.sections[a].options[b]), full)
      == if a == i && b == j then ResetNews(full, f.sections[i].options[j]) else []
  {
    ResetTells(KeyOf(f, a, b), f.sections[a].options[b], FullName(KeyOf(f, i, j)));
    DifferentNames(f, i, j, a, b);
  }

  lemma FirstOption(options: seq<Entry>, todo: seq<Entry>, b: nat)
    requires SoundEntries(todo) && b < |options| && todo == options[b..]
    ensures todo != [] && todo[0] == options[b] && todo[1..] == options[b + 1..]
    ensures SoundEntries(todo[1..])
  {
  }

  lemma {:induction false} ListSettled(f: File, todo: seq<Entry>, a: nat, b: nat, i: nat, j: nat)
    requires Named(f) && SoundSections(f.sections) && SoundEntries(todo)
    requires i < |f.sections| && j < |f.sections[i].options|
    requires a < |f.sections| && b <= |f.sections[a].options| && todo == f.sections[a].options[b..]
    ensures var full := FullName(KeyOf(f, i, j));
      About(SettleNotes(f.name, f.sections[a].name, todo), full)
      == if a == i && b <= j then ResetNews(full, f.sections[i].options[j]) else []
    decreases |todo|
  {
    if b < |f.sections[a].options| {
      var full := FullName(KeyOf(f, i, j));
      FirstOption(f.sections[a].options, todo, b);
      OneSettled(f, a, b, i, j);
      ListSettled(f, todo[1..], a, b + 1, i, j);
      var now, later := SettleOneNotes(KeyOf(f, a, b), todo[0]), SettleNotes(f.name, f.sections[a].name, todo[1..]);
      if a == i {
        Together(now, later, full, b, j, ResetNews(full, f.sections[i].options[j]));
      } else {
        AboutParts(now, later, full);
      }
    }
  }

  lemma Together(now: seq<Note>, later: seq<Note>, name: string, a: nat, i: nat, news: seq<Note>)
    requires About(now, name) == if a == i then news else []
    requires About(later, name) == if a + 1 <= i then news else []
    ensures About(now + later, name) == if a <= i then news else []
  {
    AboutParts(now, later, name);
  }

  lemma FirstSection(sections: seq<Section>, todo: seq<Section>, a: nat)
    requires SoundSections(todo) && a < |sections| && todo == sections[a..]
    ensures todo != [] && todo[0] == sections[a] && todo[1..] == sections[a + 1..]
    ensures SoundSections(todo[1..])
  {
  }

  lemma AllOfSection(f: File, a: nat, i: nat, j: nat)
    requires Named(f) && SoundSections(f.sections) && a < |f.sections|
    requires i < |f.sections| && j < |f.sections[i].options|
    ensures var full := FullName(KeyOf(f, i, j));
      About(SettleNotes(f.name, f.sections[a].name, f.sections[a].options), full)
      == if a == i then ResetNews(full, f.sections[i].options[j]) else []
  {
    assert f.sections[a].options[0..] == f.sections[a].options;
    ListSettled(f, f.sections[a].options, a, 0, i, j);
  }

  lemma {:induction false} SectionsSettled(f: File, todo: seq<Section>, a: nat, i: nat, j: nat)
    requires Named(f) && SoundSections(f.sections) && SoundSections(todo)
    requires a <= |f.sections| && todo == f.sections[a..]
    requires i < |f.sections| && j < |f.sections[i].options|
    ensures var full := FullName(KeyOf(f, i, j));
      About(SettleAllNotes(f.name, todo), full) == if a <= i then ResetNews(full, f.sections[i].options[j]) else []
    decreases |f.sections| - a
  {
    if a < |f.sections| {
      var full := FullName(KeyOf(f, i, j));
      FirstSection(f.sections, todo, a);
      AllOfSection(f, a, i, j);
      SectionsSettled(f, todo[1..], a + 1, i, j);
      Together(SettleNotes(f.name, todo[0].name, todo[0].options), SettleAllNotes(f.name, todo[1..]), full, a, i,
               ResetNews(full, f.sections[i].options[j]));
    }
  }

  // ----- reloading

  lemma LoadedNews(name: string, e: Entry, texts: seq<Option<string>>)
    requires Sound(e.spec, e.state) && Sound(e.spec, SetAll(e.spec, e.state, texts))
    ensures Changes(name, e.spec, e.state, texts) + ResetNews(name, Loads(Unloaded(e), texts))
         == if texts != [] then Changes(name, e.spec, e.state, texts)
            else if e.state.value != e.state.default then [Now(name, e.spec, e.state.default)]
            else []
  {
  }

  /** Reloading tells listeners of an option exactly this, under its full name: its
      value after each line that names it and changes it, in the order of the lines,
      or, if no line does, its default if that is another value. */
  lemma ReloadTells(f: File, text: string, i: nat, j: nat)
    requires WellFormedFile(f) && SoundSections(f.sections) && Named(f)
    requires i < |f.sections| && j < |f.sections[i].options|
    ensures var e, full, texts := f.sections[i].options[j], FullName(KeyOf(f, i, j)), TextsFor(f, None, text, i, j);
      About(ReloadNotes(f, text), full)
      == if texts != [] then Changes(full, e.spec, e.state, texts)
         else if e.state.value != e.state.default then [Now(full, e.spec, e.state.default)]
         else []
  {
    var e, full := f.sections[i].options[j], FullName(KeyOf(f, i, j));
    var texts := TextsFor(f, None, text, i, j);
    var start := Read(MapFile(Unloaded, f), None, true);
    var g := ReadText(start, text).file;
    StartsUnloaded(f);
    UnloadedSound(f.sections);
    ReadKeepsSound(start, text);
    TextLoads(f, start, text, i, j);
    TextTells(f, start, text, i, j);
    SameKey(f, g, i, j);
    assert g.sections[0..] == g.sections;
    SectionsSettled(g, g.sections, 0, i, j);
    AboutParts(ReadNotes(start, text), SettleAllNotes(f.name, g.sections), full);
    assert g.sections[i].options[j] == Loads(Unloaded(e), texts);
    LoadedNews(full, e, texts);
  }
}
