/** What reading and reloading a file means for the world: the calls that are made,
    and what listeners are told. */
module ConfigReload {
  import opened Wrappers
  import opened OptionValue
  import opened OptionLaws
  import opened Names
  import opened ConfigWorld
  import Text = ConfigText
  import opened SaveReload

  // ----- the calls, and what they tell

  /** What listeners are told about an operation on an option. */
  function OpNotes(k: Key, e: Text.Entry, op: Op): seq<Note>
    requires Sound(e.spec, e.state) && Callable(op)
  {
    DoKeepsSound(e.spec, e.state, op);
    var (s, rc) := Do(e.spec, e.state, op);
    if rc == Changed then [Note(FullName(k), Shown(e.spec, s.value))] else []
  }

  /** A line with an option in a section: the option is set if there is one. */
  function LoadInActions(file: string, section: string, options: seq<Text.Entry>, name: string, value: Option<string>):
      (r: seq<Action>)
    ensures forall i :: 0 <= i < |r| ==> Allowed(r[i])
  {
    match Text.IndexOfOption(options, name)
    case Some(_) => [Edit(Key(file, section, name), OpSet(value))]
    case None => []
  }

  function LoadInNotes(file: string, section: string, options: seq<Text.Entry>, name: string,
                       value: Option<string>): seq<Note>
    requires SoundEntries(options)
  {
    match Text.IndexOfOption(options, name)
    case Some(j) => OpNotes(Key(file, section, name), options[j], OpSet(value))
    case None => []
  }

  function LineValue(right: Option<string>): Option<string> {
    match right
    case Some(s) => Text.ReadValue(s)
    case None => None
  }

  function LineActions(r: Text.Read, chunk: string): (a: seq<Action>)
    requires Text.Readable(r)
    ensures forall i :: 0 <= i < |a| ==> Allowed(a[i])
  {
    match Text.ParseLine(chunk)
    case OptionText(name, right) =>
      if r.section.None? || name == "" then []
      else
        var s := r.file.sections[r.section.value];
        LoadInActions(r.file.name, s.name, s.options, name, LineValue(right))
    case _ => []
  }

  function LineNotes(r: Text.Read, chunk: string): seq<Note>
    requires Text.Readable(r) && SoundSections(r.file.sections)
  {
    match Text.ParseLine(chunk)
    case OptionText(name, right) =>
      if r.section.None? || name == "" then []
      else
        var s := r.file.sections[r.section.value];
        LoadInNotes(r.file.name, s.name, s.options, name, LineValue(right))
    case _ => []
  }

  lemma LoadInKeepsSound(options: seq<Text.Entry>, name: string, value: Option<string>)
    requires SoundEntries(options)
    ensures SoundEntries(Text.LoadIn(options, name, value))
  {
    match Text.IndexOfOption(options, name) {
      case Some(j) => DoKeepsSound(options[j].spec, options[j].state, OpSet(value));
      case None =>
    }
  }

  lemma LineKeepsSound(r: Text.Read, chunk: string)
    requires Text.Readable(r) && SoundSections(r.file.sections)
    ensures SoundSections(Text.ReadLine(r, chunk).file.sections)
  {
    match Text.ParseLine(chunk) {
      case OptionText(name, right) =>
        if r.section.Some? {
          LoadInKeepsSound(r.file.sections[r.section.value].options, name, LineValue(right));
        }
      case _ =>
    }
  }

  /** The calls that reading a text makes: one for every line with a known option,
      in their order. */
  function ReadActions(r: Text.Read, text: string): (a: seq<Action>)
    requires Text.Readable(r)
    ensures forall i :: 0 <= i < |a| ==> Allowed(a[i])
    decreases |text|
  {
    if text == "" || !r.go then []
    else
      var n := Text.ChunkLength(text, Text.MAX_CHUNK);
      LineActions(r, text[..n]) + ReadActions(Text.ReadLine(r, text[..n]), text[n..])
  }

  function ReadNotes(r: Text.Read, text: string): seq<Note>
    requires Text.Readable(r) && SoundSections(r.file.sections)
    decreases |text|
  {
    if text == "" || !r.go then []
    else
      var n := Text.ChunkLength(text, Text.MAX_CHUNK);
      LineKeepsSound(r, text[..n]);
      LineNotes(r, text[..n]) + ReadNotes(Text.ReadLine(r, text[..n]), text[n..])
  }

  /** The options that were not in the text are reset, in their order. */
  function SettleActions(file: string, section: string, options: seq<Text.Entry>): (a: seq<Action>)
    ensures forall i :: 0 <= i < |a| ==> Allowed(a[i])
  {
    if options == [] then []
    else
      (if options[0].loaded then [] else [Edit(Key(file, section, options[0].name), OpReset)])
      + SettleActions(file, section, options[1..])
  }

  function SettleOneNotes(k: Key, e: Text.Entry): seq<Note>
    requires Sound(e.spec, e.state)
  {
    if e.loaded then [] else OpNotes(k, e, OpReset)
  }

  function SettleNotes(file: string, section: string, options: seq<Text.Entry>): seq<Note>
    requires SoundEntries(options)
  {
    if options == [] then []
    else SettleOneNotes(Key(file, section, options[0].name), options[0]) + SettleNotes(file, section, options[1..])
  }

  function SettleAllActions(file: string, sections: seq<Text.Section>): (a: seq<Action>)
    ensures forall i :: 0 <= i < |a| ==> Allowed(a[i])
  {
    if sections == [] then []
    else SettleActions(file, sections[0].name, sections[0].options) + SettleAllActions(file, sections[1..])
  }

  function SettleAllNotes(file: string, sections: seq<Text.Section>): seq<Note>
    requires SoundSections(sections)
  {
    if sections == [] then []
    else SettleNotes(file, sections[0].name, sections[0].options) + SettleAllNotes(file, sections[1..])
  }

  /** The calls that config_file_reload makes. */
  function ReloadActions(file: Text.File, text: string): (a: seq<Action>)
    requires Text.WellFormedFile(file)
    ensures forall i :: 0 <= i < |a| ==> Allowed(a[i])
  {
    var start := Text.Read(Text.MapFile(Text.Unloaded, file), None, true);
    ReadActions(start, text) + SettleAllActions(file.name, Text.ReadText(start, text).file.sections)
  }

  lemma {:induction false} ReadKeepsSound(r: Text.Read, text: string)
    requires Text.Readable(r) && SoundSections(r.file.sections)
    ensures SoundSections(Text.ReadText(r, text).file.sections)
    decreases |text|
  {
    if text != "" && r.go {
      var n := Text.ChunkLength(text, Text.MAX_CHUNK);
      LineKeepsSound(r, text[..n]);
      ReadKeepsSound(Text.ReadLine(r, text[..n]), text[n..]);
    }
  }

  lemma UnloadedSound(sections: seq<Text.Section>)
    requires SoundSections(sections)
    ensures SoundSections(Text.MapSections(Text.Unloaded, sections))
  {
    forall i | 0 <= i < |sections| ensures SoundEntries(Text.MapSections(Text.Unloaded, sections)[i].options) {
      assert SoundEntries(sections[i].options);
    }
  }

  function ReloadNotes(file: Text.File, text: string): seq<Note>
    requires Text.WellFormedFile(file) && SoundSections(file.sections)
  {
    var start := Text.Read(Text.MapFile(Text.Unloaded, file), None, true);
    UnloadedSound(file.sections);
    ReadKeepsSound(start, text);
    ReadNotes(start, text) + SettleAllNotes(file.name, Text.ReadText(start, text).file.sections)
  }

  // ----- worlds that know a file

  ghost predicate KnowsEntry(w: World, k: Key, e: Text.Entry) {
    k in w.options && w.options[k].spec == e.spec && w.options[k].state == e.state
  }

  ghost predicate KnowsEntries(w: World, file: string, section: string, options: seq<Text.Entry>) {
    forall j :: 0 <= j < |options| ==> KnowsEntry(w, Key(file, section, options[j].name), options[j])
  }

  ghost predicate Knows(w: World, file: string, sections: seq<Text.Section>) {
    forall i :: 0 <= i < |sections| ==> KnowsEntries(w, file, sections[i].name, sections[i].options)
  }

  ghost predicate UniqueKeys(sections: seq<Text.Section>) {
    UniqueSections(sections) && forall i :: 0 <= i < |sections| ==> UniqueOptions(sections[i].options)
  }

  /** A good world, in which only values of the options with certain keys differ. */
  ghost predicate Follows(w: World, w': World, keys: iset<Key>) {
    && Valid(w') && Coherent(w') && w'.options.Keys == w.options.Keys
    && forall k :: k in w.options ==>
         && w'.options[k].parent == w.options[k].parent
         && (k !in keys ==> w'.options[k] == w.options[k])
  }

  lemma FollowsTwice(w: World, w': World, w'': World, a: iset<Key>, b: iset<Key>, c: iset<Key>)
    requires Follows(w, w', a) && Follows(w', w'', b) && a <= c && b <= c
    ensures Follows(w, w'', c)
  {
  }

  lemma {:induction false} RunConcat(w: World, a: seq<Action>, b: seq<Action>)
    requires Valid(w) && Coherent(w)
    requires (forall i :: 0 <= i < |a| ==> Allowed(a[i])) && forall i :: 0 <= i < |b| ==> Allowed(b[i])
    ensures var w' := Run(w, a); Valid(w') && Coherent(w') && Run(w, a + b) == Run(w', b)
    decreases a
  {
    if a == [] {
      assert a + b == b;
    } else {
      StepCoherent(w, a[0]);
      assert (a + b)[1..] == a[1..] + b;
      RunConcat(Step(w, a[0]), a[1..], b);
    }
  }

  /** One operation on an option that the world knows. */
  lemma OneEdit(w: World, k: Key, e: Text.Entry, op: Op)
    requires Valid(w) && Coherent(w) && KnowsEntry(w, k, e) && Callable(op)
    ensures Sound(e.spec, e.state)
    ensures var w' := Run(w, [Edit(k, op)]);
      && Follows(w, w', iset{k}) && w'.sent == w.sent + OpNotes(k, e, op)
      && KnowsEntry(w', k, e.(state := Do(e.spec, e.state, op).0))
  {
    DoKeepsSound(e.spec, e.state, op);
    EditedCoherent(w, k, op);
    assert [Edit(k, op)][1..] == [];
    assert Run(w, [Edit(k, op)]) == Edited(w, k, op);
  }

  // ----- reading

  ghost function KeysOf(file: string, section: string, options: seq<Text.Entry>): iset<Key> {
    iset k: Key | k.file == file && k.section == section && exists j :: 0 <= j < |options| && options[j].name == k.name
  }

  lemma KnownAreSound(w: World, file: string, section: string, options: seq<Text.Entry>)
    requires Valid(w) && KnowsEntries(w, file, section, options)
    ensures SoundEntries(options)
  {
    forall j | 0 <= j < |options| ensures Sound(options[j].spec, options[j].state) {
      assert KnowsEntry(w, Key(file, section, options[j].name), options[j]);
    }
  }

  /** A change of one option leaves what is known of the others. */
  lemma OthersKnown(w: World, w': World, file: string, section: string, options: seq<Text.Entry>, j: nat, e: Text.Entry)
    requires KnowsEntries(w, file, section, options) && UniqueOptions(options) && j < |options|
    requires var k := Key(file, section, options[j].name);
      Follows(w, w', iset{k}) && KnowsEntry(w', k, e) && e.name == options[j].name
    ensures KnowsEntries(w', file, section, options[j := e])
    ensures Follows(w, w', KeysOf(file, section, options))
  {
    forall i | 0 <= i < |options| ensures KnowsEntry(w', Key(file, section, options[i].name), options[j := e][i]) {
      assert KnowsEntry(w, Key(file, section, options[i].name), options[i]);
      assert i != j ==> options[i].name != options[j].name;
    }
  }

  lemma LoadInIsRun(w: World, file: string, section: string, options: seq<Text.Entry>, name: string,
                    value: Option<string>)
    requires Valid(w) && Coherent(w) && KnowsEntries(w, file, section, options) && UniqueOptions(options)
    ensures SoundEntries(options)
    ensures var w' := Run(w, LoadInActions(file, section, options, name, value));
      && Follows(w, w', KeysOf(file, section, options))
      && w'.sent == w.sent + LoadInNotes(file, section, options, name, value)
      && KnowsEntries(w', file, section, Text.LoadIn(options, name, value))
  {
    KnownAreSound(w, file, section, options);
    match Text.IndexOfOption(options, name) {
      case Some(j) =>
        var k, e := Key(file, section, name), options[j];
        assert KnowsEntry(w, k, e);
        OneEdit(w, k, e, OpSet(value));
        OthersKnown(w, Run(w, [Edit(k, OpSet(value))]), file, section, options, j, Text.Load(e, value));
      case None =>
    }
  }

  ghost predicate InFile(k: Key, file: string, sections: seq<Text.Section>) {
    exists i :: 0 <= i < |sections| && k in KeysOf(file, sections[i].name, sections[i].options)
  }

  ghost function FileKeys(file: string, sections: seq<Text.Section>): iset<Key> {
    iset k: Key | InFile(k, file, sections)
  }

  lemma SameKeys(file: string, a: seq<Text.Section>, b: seq<Text.Section>)
    requires SameSections(a, b)
    ensures FileKeys(file, a) == FileKeys(file, b)
    ensures UniqueKeys(a) ==> UniqueKeys(b)
  {
    forall i | 0 <= i < |a|
      ensures KeysOf(file, a[i].name, a[i].options) == KeysOf(file, b[i].name, b[i].options)
      ensures UniqueOptions(a[i].options) ==> UniqueOptions(b[i].options)
    {
      assert SameOptions(a[i].options, b[i].options);
    }
  }

  /** A change in one section leaves what is known of the others. */
  lemma OtherSectionsKnown(w: World, w': World, file: string, sections: seq<Text.Section>, i: nat,
                           options: seq<Text.Entry>)
    requires Knows(w, file, sections) && UniqueSections(sections) && i < |sections|
    requires Follows(w, w', KeysOf(file, sections[i].name, sections[i].options))
    requires KnowsEntries(w', file, sections[i].name, options)
    ensures Knows(w', file, sections[i := sections[i].(options := options)])
    ensures Follows(w, w', FileKeys(file, sections))
  {
    var next := sections[i := sections[i].(options := options)];
    forall k | 0 <= k < |sections| && k != i ensures KnowsEntries(w', file, sections[k].name, sections[k].options) {
      assert sections[k].name != sections[i].name;
      assert KnowsEntries(w, file, sections[k].name, sections[k].options);
      forall j | 0 <= j < |sections[k].options|
        ensures KnowsEntry(w', Key(file, sections[k].name, sections[k].options[j].name), sections[k].options[j])
      {
        assert KnowsEntry(w, Key(file, sections[k].name, sections[k].options[j].name), sections[k].options[j]);
      }
    }
  }

  /** Reading goes on in the same world as reading the text. */
  ghost predicate ReadsAlong(w: World, r: Text.Read, w': World, r': Text.Read) {
    && Follows(w, w', FileKeys(r.file.name, r.file.sections)) && SameSections(r.file.sections, r'.file.sections)
    && r'.file.name == r.file.name && Knows(w', r.file.name, r'.file.sections)
  }

  lemma NothingRead(w: World, r: Text.Read, section: Text.Position, go: bool)
    requires Valid(w) && Coherent(w) && Knows(w, r.file.name, r.file.sections)
    ensures ReadsAlong(w, r, w, r.(section := section, go := go))
    ensures Run(w, []) == w
  {
  }

  lemma AllKnownAreSound(w: World, file: string, sections: seq<Text.Section>)
    requires Valid(w) && Knows(w, file, sections)
    ensures SoundSections(sections)
  {
    forall i | 0 <= i < |sections| ensures SoundEntries(sections[i].options) {
      KnownAreSound(w, file, sections[i].name, sections[i].options);
    }
  }

  lemma SameWhenLoaded(sections: seq<Text.Section>, i: nat, name: string, value: Option<string>)
    requires i < |sections| && SoundEntries(sections[i].options)
    ensures var s := sections[i];
      SameSections(sections, sections[i := s.(options := Text.LoadIn(s.options, name, value))])
  {
  }

  lemma OptionIsRun(w: World, r: Text.Read, chunk: string, name: string, value: Option<string>)
    requires Valid(w) && Coherent(w) && Knows(w, r.file.name, r.file.sections) && UniqueKeys(r.file.sections)
    requires Text.Readable(r) && SoundSections(r.file.sections) && r.section.Some?
    ensures var s := r.file.sections[r.section.value];
      var w' := Run(w, LoadInActions(r.file.name, s.name, s.options, name, value));
      var next := r.file.sections[r.section.value := s.(options := Text.LoadIn(s.options, name, value))];
      && ReadsAlong(w, r, w', r.(file := r.file.(sections := next)))
      && w'.sent == w.sent + LoadInNotes(r.file.name, s.name, s.options, name, value)
  {
    var i := r.section.value;
    var s := r.file.sections[i];
    LoadInIsRun(w, r.file.name, s.name, s.options, name, value);
    var w' := Run(w, LoadInActions(r.file.name, s.name, s.options, name, value));
    OtherSectionsKnown(w, w', r.file.name, r.file.sections, i, Text.LoadIn(s.options, name, value));
    SameWhenLoaded(r.file.sections, i, name, value);
  }

  /** A text is read: these calls are made, and this is told. */
  ghost predicate ReadBy(w: World, r: Text.Read, actions: seq<Action>, r': Text.Read, notes: seq<Note>)
    requires Valid(w) && Coherent(w) && forall i :: 0 <= i < |actions| ==> Allowed(actions[i])
  {
    var w' := Run(w, actions);
    ReadsAlong(w, r, w', r') && w'.sent == w.sent + notes
  }

  lemma LineIsRun(w: World, r: Text.Read, chunk: string)
    requires Valid(w) && Coherent(w) && Knows(w, r.file.name, r.file.sections) && UniqueKeys(r.file.sections)
    requires Text.Readable(r) && SoundSections(r.file.sections)
    ensures ReadBy(w, r, LineActions(r, chunk), Text.ReadLine(r, chunk), LineNotes(r, chunk))
  {
    var r' := Text.ReadLine(r, chunk);
    match Text.ParseLine(chunk) {
      case OptionText(name, right) =>
        if r.section.None? || name == "" {
          NothingRead(w, r, r.section, r'.go);
        } else {
          OptionIsRun(w, r, chunk, name, LineValue(right));
        }
      case _ =>
        NothingRead(w, r, r'.section, r.go);
    }
  }

  lemma AlongTwice(w: World, r: Text.Read, w': World, r': Text.Read, w'': World, r'': Text.Read)
    requires ReadsAlong(w, r, w', r') && ReadsAlong(w', r', w'', r'')
    ensures ReadsAlong(w, r, w'', r'')
  {
    SameKeys(r.file.name, r.file.sections, r'.file.sections);
    forall i | 0 <= i < |r.file.sections|
      ensures SameOptions(r.file.sections[i].options, r''.file.sections[i].options)
    {
      assert SameOptions(r.file.sections[i].options, r'.file.sections[i].options);
    }
  }

  lemma Twice(s: seq<Note>, m: seq<Note>, n: seq<Note>)
    ensures s + m + n == s + (m + n)
  {
  }

  lemma ReadTwice(w: World, r: Text.Read, a: seq<Action>, r': Text.Read, b: seq<Action>, r'': Text.Read,
                  m: seq<Note>, n: seq<Note>)
    requires Valid(w) && Coherent(w)
    requires (forall i :: 0 <= i < |a| ==> Allowed(a[i])) && forall i :: 0 <= i < |b| ==> Allowed(b[i])
    requires ReadBy(w, r, a, r', m) && ReadBy(Run(w, a), r', b, r'', n)
    ensures forall i :: 0 <= i < |a + b| ==> Allowed((a + b)[i])
    ensures ReadBy(w, r, a + b, r'', m + n)
  {
    RunConcat(w, a, b);
    AlongTwice(w, r, Run(w, a), r', Run(Run(w, a), b), r'');
    Twice(w.sent, m, n);
  }

  /** Reading a text is a run of the world. */
  lemma {:induction false} ReadIsRun(w: World, r: Text.Read, text: string)
    requires Valid(w) && Coherent(w) && Knows(w, r.file.name, r.file.sections) && UniqueKeys(r.file.sections)
    requires Text.Readable(r) && SoundSections(r.file.sections)
    ensures ReadBy(w, r, ReadActions(r, text), Text.ReadText(r, text), ReadNotes(r, text))
    decreases |text|
  {
    if text == "" || !r.go {
      NothingRead(w, r, r.section, r.go);
    } else {
      var n := Text.ChunkLength(text, Text.MAX_CHUNK);
      var next := Text.ReadLine(r, text[..n]);
      LineKeepsSound(r, text[..n]);
      LineIsRun(w, r, text[..n]);
      var a, b := LineActions(r, text[..n]), ReadActions(next, text[n..]);
      SameKeys(r.file.name, r.file.sections, next.file.sections);
      ReadIsRun(Run(w, a), next, text[n..]);
      ReadTwice(w, r, a, next, b, Text.ReadText(next, text[n..]), LineNotes(r, text[..n]), ReadNotes(next, text[n..]));
    }
  }

  // ----- resetting what was not in the text

  /** The options of one section are settled. */
  ghost predicate SettledBy(w: World, file: string, section: string, options: seq<Text.Entry>,
                            actions: seq<Action>, notes: seq<Note>)
    requires Valid(w) && Coherent(w) && forall i :: 0 <= i < |actions| ==> Allowed(actions[i])
  {
    var w' := Run(w, actions);
    && Follows(w, w', KeysOf(file, section, options)) && w'.sent == w.sent + notes
    && KnowsEntries(w', file, section, Text.MapEntries(Text.Settled, options))
  }

  lemma SettleOne(w: World, k: Key, e: Text.Entry)
    requires Valid(w) && Coherent(w) && KnowsEntry(w, k, e)
    ensures Sound(e.spec, e.state)
    ensures var w' := Run(w, if e.loaded then [] else [Edit(k, OpReset)]);
      && Follows(w, w', iset{k}) && w'.sent == w.sent + SettleOneNotes(k, e)
      && KnowsEntry(w', k, Text.Settled(e))
  {
    assert Sound(e.spec, e.state);
    if !e.loaded {
      OneEdit(w, k, e, OpReset);
    }
  }

  /** What is known of other options stays known. */
  lemma StillKnown(w: World, w': World, keys: iset<Key>, file: string, section: string, options: seq<Text.Entry>)
    requires Follows(w, w', keys) && KnowsEntries(w, file, section, options)
    requires forall j :: 0 <= j < |options| ==> Key(file, section, options[j].name) !in keys
    ensures KnowsEntries(w', file, section, options)
  {
    forall j | 0 <= j < |options| ensures KnowsEntry(w', Key(file, section, options[j].name), options[j]) {
      assert KnowsEntry(w, Key(file, section, options[j].name), options[j]);
    }
  }

  lemma SettledHead(w: World, file: string, section: string, options: seq<Text.Entry>)
    requires options != []
    requires KnowsEntry(w, Key(file, section, options[0].name), Text.Settled(options[0]))
    requires KnowsEntries(w, file, section, Text.MapEntries(Text.Settled, options[1..]))
    ensures KnowsEntries(w, file, section, Text.MapEntries(Text.Settled, options))
  {
    var mapped, rest := Text.MapEntries(Text.Settled, options), Text.MapEntries(Text.Settled, options[1..]);
    forall j | 0 <= j < |mapped| ensures KnowsEntry(w, Key(file, section, mapped[j].name), mapped[j]) {
      if j > 0 {
        assert mapped[j] == rest[j - 1];
        assert KnowsEntry(w, Key(file, section, rest[j - 1].name), rest[j - 1]);
      }
    }
  }

  lemma HeadKey(file: string, section: string, options: seq<Text.Entry>)
    requires options != [] && UniqueOptions(options)
    ensures var k := Key(file, section, options[0].name);
      && iset{k} <= KeysOf(file, section, options)
      && KeysOf(file, section, options[1..]) <= KeysOf(file, section, options)
      && k !in KeysOf(file, section, options[1..])
  {
    var rest := options[1..];
    assert forall j :: 0 <= j < |rest| ==> rest[j] == options[j + 1];
  }

  lemma HeadThenRest(w: World, w': World, w'': World, file: string, section: string, options: seq<Text.Entry>)
    requires options != [] && UniqueOptions(options)
    requires var k := Key(file, section, options[0].name);
      Follows(w, w', iset{k}) && KnowsEntry(w', k, Text.Settled(options[0]))
    requires Follows(w', w'', KeysOf(file, section, options[1..]))
    requires KnowsEntries(w'', file, section, Text.MapEntries(Text.Settled, options[1..]))
    ensures Follows(w, w'', KeysOf(file, section, options))
    ensures KnowsEntries(w'', file, section, Text.MapEntries(Text.Settled, options))
  {
    var k := Key(file, section, options[0].name);
    HeadKey(file, section, options);
    FollowsTwice(w, w', w'', iset{k}, KeysOf(file, section, options[1..]), KeysOf(file, section, options));
    SettledHead(w'', file, section, options);
  }

  /** The calls on the first option of some. */
  function HeadActions(k: Key, e: Text.Entry): (a: seq<Action>)
    ensures forall i :: 0 <= i < |a| ==> Allowed(a[i])
  {
    if e.loaded then [] else [Edit(k, OpReset)]
  }

  lemma SettleHead(w: World, file: string, section: string, options: seq<Text.Entry>)
    requires options != [] && UniqueOptions(options)
    requires Valid(w) && Coherent(w) && KnowsEntries(w, file, section, options)
    ensures var e := options[0];
      var k := Key(file, section, e.name);
      var w' := Run(w, HeadActions(k, e));
      && Sound(e.spec, e.state) && Follows(w, w', iset{k}) && w'.sent == w.sent + SettleOneNotes(k, e)
      && KnowsEntry(w', k, Text.Settled(e)) && KnowsEntries(w', file, section, options[1..])
  {
    var e := options[0];
    var k := Key(file, section, e.name);
    assert KnowsEntry(w, k, e);
    SettleOne(w, k, e);
    StillKnown(w, Run(w, HeadActions(k, e)), iset{k}, file, section, options[1..]);
  }

  lemma HeadSettled(w: World, file: string, section: string, options: seq<Text.Entry>,
                    a: seq<Action>, b: seq<Action>, m: seq<Note>, n: seq<Note>)
    requires options != [] && UniqueOptions(options) && Valid(w) && Coherent(w)
    requires (forall i :: 0 <= i < |a| ==> Allowed(a[i])) && forall i :: 0 <= i < |b| ==> Allowed(b[i])
    requires var k := Key(file, section, options[0].name);
      var w' := Run(w, a);
      && Follows(w, w', iset{k}) && w'.sent == w.sent + m && KnowsEntry(w', k, Text.Settled(options[0]))
      && SettledBy(w', file, section, options[1..], b, n)
    ensures forall i :: 0 <= i < |a + b| ==> Allowed((a + b)[i])
    ensures SettledBy(w, file, section, options, a + b, m + n)
  {
    RunConcat(w, a, b);
    HeadThenRest(w, Run(w, a), Run(Run(w, a), b), file, section, options);
    Twice(w.sent, m, n);
  }

  lemma {:induction false} SettleIsRun(w: World, file: string, section: string, options: seq<Text.Entry>)
    requires Valid(w) && Coherent(w) && KnowsEntries(w, file, section, options) && UniqueOptions(options)
    ensures SoundEntries(options)
    ensures SettledBy(w, file, section, options,
                      SettleActions(file, section, options), SettleNotes(file, section, options))
    decreases options
  {
    KnownAreSound(w, file, section, options);
    if options != [] {
      var k := Key(file, section, options[0].name);
      var a, b := HeadActions(k, options[0]), SettleActions(file, section, options[1..]);
      SettleHead(w, file, section, options);
      SettleIsRun(Run(w, a), file, section, options[1..]);
      HeadSettled(w, file, section, options, a, b,
                  SettleOneNotes(k, options[0]), SettleNotes(file, section, options[1..]));
    }
  }

  /** All options of the file are settled. */
  ghost predicate AllSettledBy(w: World, file: string, sections: seq<Text.Section>, actions: seq<Action>,
                               notes: seq<Note>)
    requires Valid(w) && Coherent(w) && forall i :: 0 <= i < |actions| ==> Allowed(actions[i])
  {
    var w' := Run(w, actions);
    && Follows(w, w', FileKeys(file, sections)) && w'.sent == w.sent + notes
    && Knows(w', file, Text.MapSections(Text.Settled, sections))
  }

  lemma KeysInFile(file: string, sections: seq<Text.Section>)
    requires sections != []
    ensures KeysOf(file, sections[0].name, sections[0].options) <= FileKeys(file, sections)
    ensures FileKeys(file, sections[1..]) <= FileKeys(file, sections)
  {
    forall k | k in FileKeys(file, sections[1..]) ensures InFile(k, file, sections) {
      var i :| 0 <= i < |sections[1..]| && k in KeysOf(file, sections[1..][i].name, sections[1..][i].options);
      assert sections[i + 1] == sections[1..][i];
    }
  }

  /** What is known of other sections stays known. */
  lemma RestKnown(w: World, w': World, file: string, sections: seq<Text.Section>)
    requires Knows(w, file, sections) && UniqueKeys(sections) && sections != []
    requires Follows(w, w', KeysOf(file, sections[0].name, sections[0].options))
    ensures Knows(w', file, sections[1..]) && UniqueKeys(sections[1..])
  {
    var keys, rest := KeysOf(file, sections[0].name, sections[0].options), sections[1..];
    forall i | 0 <= i < |rest| ensures KnowsEntries(w', file, rest[i].name, rest[i].options) {
      assert rest[i] == sections[i + 1] && sections[0].name != sections[i + 1].name;
      StillKnown(w, w', keys, file, rest[i].name, rest[i].options);
    }
  }

  lemma FirstApart(file: string, sections: seq<Text.Section>, name: string)
    requires sections != [] && UniqueSections(sections)
    ensures !InFile(Key(file, sections[0].name, name), file, sections[1..])
  {
    var rest := sections[1..];
    assert forall i :: 0 <= i < |rest| ==> rest[i].name == sections[i + 1].name;
  }

  lemma SettledFirst(w: World, w': World, file: string, sections: seq<Text.Section>)
    requires sections != [] && UniqueSections(sections)
    requires KnowsEntries(w, file, sections[0].name, Text.MapEntries(Text.Settled, sections[0].options))
    requires Follows(w, w', FileKeys(file, sections[1..]))
    requires Knows(w', file, Text.MapSections(Text.Settled, sections[1..]))
    ensures Knows(w', file, Text.MapSections(Text.Settled, sections))
  {
    var mapped, rest := Text.MapSections(Text.Settled, sections), Text.MapSections(Text.Settled, sections[1..]);
    var first := Text.MapEntries(Text.Settled, sections[0].options);
    forall j | 0 <= j < |first| ensures Key(file, sections[0].name, first[j].name) !in FileKeys(file, sections[1..]) {
      FirstApart(file, sections, first[j].name);
    }
    StillKnown(w, w', FileKeys(file, sections[1..]), file, sections[0].name, first);
    forall i | 0 <= i < |mapped| ensures KnowsEntries(w', file, mapped[i].name, mapped[i].options) {
      if i > 0 {
        assert mapped[i] == rest[i - 1];
      }
    }
  }

  lemma SettledThenRest(w: World, w': World, w'': World, file: string, sections: seq<Text.Section>)
    requires sections != [] && UniqueSections(sections)
    requires Follows(w, w', KeysOf(file, sections[0].name, sections[0].options))
    requires KnowsEntries(w', file, sections[0].name, Text.MapEntries(Text.Settled, sections[0].options))
    requires Follows(w', w'', FileKeys(file, sections[1..]))
    requires Knows(w'', file, Text.MapSections(Text.Settled, sections[1..]))
    ensures Follows(w, w'', FileKeys(file, sections)) && Knows(w'', file, Text.MapSections(Text.Settled, sections))
  {
    var s := sections[0];
    KeysInFile(file, sections);
    FollowsTwice(w, w', w'', KeysOf(file, s.name, s.options), FileKeys(file, sections[1..]), FileKeys(file, sections));
    SettledFirst(w', w'', file, sections);
  }

  lemma {:induction false} SettleAllIsRun(w: World, file: string, sections: seq<Text.Section>)
    requires Valid(w) && Coherent(w) && Knows(w, file, sections) && UniqueKeys(sections)
    ensures SoundSections(sections)
    ensures AllSettledBy(w, file, sections, SettleAllActions(file, sections), SettleAllNotes(file, sections))
    decreases sections
  {
    AllKnownAreSound(w, file, sections);
    if sections != [] {
      var s := sections[0];
      SettleIsRun(w, file, s.name, s.options);
      var a, b := SettleActions(file, s.name, s.options), SettleAllActions(file, sections[1..]);
      RestKnown(w, Run(w, a), file, sections);
      SettleAllIsRun(Run(w, a), file, sections[1..]);
      RunConcat(w, a, b);
      SettledThenRest(w, Run(w, a), Run(Run(w, a), b), file, sections);
      Twice(w.sent, SettleNotes(file, s.name, s.options), SettleAllNotes(file, sections[1..]));
    }
  }

  // ----- reloading

  lemma {:induction false} ReadKeepsVersion(r: Text.Read, text: string)
    requires Text.Readable(r)
    ensures Text.ReadText(r, text).file.name == r.file.name && Text.ReadText(r, text).file.version == r.file.version
    decreases |text|
  {
    if text != "" && r.go {
      var n := Text.ChunkLength(text, Text.MAX_CHUNK);
      ReadKeepsVersion(Text.ReadLine(r, text[..n]), text[n..]);
    }
  }

  lemma ReloadKeepsVersion(file: Text.File, text: string)
    requires Text.WellFormedFile(file)
    ensures Text.Reloaded(file, text).name == file.name && Text.Reloaded(file, text).version == file.version
  {
    ReadKeepsVersion(Text.Read(Text.MapFile(Text.Unloaded, file), None, true), text);
  }

  lemma UnloadedKnown(w: World, file: string, sections: seq<Text.Section>)
    requires Knows(w, file, sections)
    ensures Knows(w, file, Text.MapSections(Text.Unloaded, sections))
    ensures SameSections(sections, Text.MapSections(Text.Unloaded, sections))
  {
    var mapped := Text.MapSections(Text.Unloaded, sections);
    forall i | 0 <= i < |sections|
      ensures KnowsEntries(w, file, mapped[i].name, mapped[i].options)
      ensures SameOptions(sections[i].options, mapped[i].options)
    {
      var options := sections[i].options;
      assert KnowsEntries(w, file, sections[i].name, options);
      forall j | 0 <= j < |options|
        ensures KnowsEntry(w, Key(file, mapped[i].name, mapped[i].options[j].name), mapped[i].options[j])
      {
        assert KnowsEntry(w, Key(file, sections[i].name, options[j].name), options[j]);
      }
    }
  }

  lemma SettledSame(sections: seq<Text.Section>)
    ensures SameSections(sections, Text.MapSections(Text.Settled, sections))
  {
    var mapped := Text.MapSections(Text.Settled, sections);
    forall i | 0 <= i < |sections| ensures SameOptions(sections[i].options, mapped[i].options) {
    }
  }

  /** Reloading a file is a run of the world: one set for every line with a known
      option, then one reset for every option that was not in the text. In the
      end, the world knows the file as it was reloaded, listeners were told of
      every change on the way, and other files are as they were. */
  lemma ReloadIsRun(w: World, file: Text.File, text: string)
    requires Valid(w) && Coherent(w) && Knows(w, file.name, file.sections) && UniqueKeys(file.sections)
    ensures Text.WellFormedFile(file) && SoundSections(file.sections)
    ensures var w' := Run(w, ReloadActions(file, text));
      && Follows(w, w', FileKeys(file.name, file.sections))
      && Knows(w', file.name, Text.Reloaded(file, text).sections)
      && w'.sent == w.sent + ReloadNotes(file, text)
    ensures FileKeys(file.name, Text.Reloaded(file, text).sections) == FileKeys(file.name, file.sections)
  {
    AllKnownAreSound(w, file.name, file.sections);
    var start := Text.Read(Text.MapFile(Text.Unloaded, file), None, true);
    UnloadedSound(file.sections);
    UnloadedKnown(w, file.name, file.sections);
    SameKeys(file.name, file.sections, start.file.sections);
    ReadIsRun(w, start, text);
    var read := Text.ReadText(start, text).file;
    var a := ReadActions(start, text);
    SameKeys(file.name, start.file.sections, read.sections);
    SettleAllIsRun(Run(w, a), file.name, read.sections);
    SettledSame(read.sections);
    SameKeys(file.name, read.sections, Text.MapSections(Text.Settled, read.sections));
    var b := SettleAllActions(file.name, read.sections);
    RunConcat(w, a, b);
    var keys := FileKeys(file.name, file.sections);
    FollowsTwice(w, Run(w, a), Run(Run(w, a), b), keys, keys, keys);
    Twice(w.sent, ReadNotes(start, text), SettleAllNotes(file.name, read.sections));
  }
}
