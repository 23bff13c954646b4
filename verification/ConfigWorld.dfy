/** All registered options, what listeners are told about them, and runs of
    operations on them. */
module ConfigWorld {
  import opened Wrappers
  import opened OptionValue
  import opened OptionLaws
  import opened Names

  datatype Item = Item(spec: Spec, state: State, parent: Option<string>)

  /** What a listener gets: the full name of an option and its value; None is NULL. */
  datatype Note = Note(name: string, text: Option<string>)

  datatype World = World(options: map<Key, Item>, sent: seq<Note>)

  /** config_file_hook_config_exec: the value as listeners see it. */
  function Shown(o: Spec, v: Option<Value>): Option<string>
    requires Writable(o, v)
  {
    match v
    case None => None
    case Some(Text(s)) => Some(s)
    case Some(Num(n)) =>
      match o.kind
      case Boolean => Some(if n == 1 then "on" else "off")
      case Integer => Some(IntText(n))
      case Color => Some(o.colors.name(n))
      case Enum => Some(o.strings[n])
  }

  /** Listeners see what is shown to users, and NULL for null. */
  lemma ShownIsRendered(o: Spec, v: Option<Value>)
    requires SoundValue(o, v)
    ensures Shown(o, v) == if v.None? then None else Some(Rendered(o, v))
  {
  }

  // ----- the steps

  datatype Action =
    | New(file: string, section: string, text: string, spec: Spec, default: Option<string>, value: Option<string>)
    | Edit(key: Key, op: Op)
    | Rename(key: Key, name: string)
    | Free(key: Key, notify: bool)
    | Unset(key: Key, deletable: bool)

  predicate Allowed(a: Action) {
    match a
    case New(file, section, _, spec, _, _) =>
      NoDot(file) && NoDot(section) && (spec.kind.Integer? ==> INT_MIN <= spec.min && spec.max <= INT_MAX)
    case Edit(_, op) => Callable(op)
    case _ => true
  }

  /** Every option is sound, and has a name that can be taken apart. */
  ghost predicate Valid(w: World) {
    forall k :: k in w.options ==> Plain(k) && Sound(w.options[k].spec, w.options[k].state)
  }

  function NoteOf(k: Key, i: Item): Note
    requires Sound(i.spec, i.state)
  {
    Note(FullName(k), Shown(i.spec, i.state.value))
  }

  /** An option gets a new content, which listeners are told if it changed. */
  function Updated(w: World, k: Key, i: Item, rc: Rc): World
    requires Sound(i.spec, i.state)
  {
    World(w.options[k := i], if rc == Changed then w.sent + [NoteOf(k, i)] else w.sent)
  }

  function Edited(w: World, k: Key, op: Op): World
    requires k in w.options && Sound(w.options[k].spec, w.options[k].state) && Callable(op)
  {
    var i := w.options[k];
    DoKeepsSound(i.spec, i.state, op);
    var (s, rc) := Do(i.spec, i.state, op);
    Updated(w, k, i.(state := s), rc)
  }

  /** A name that exists already, a missing value: nothing happens. */
  function Created(w: World, file: string, section: string, text: string, spec: Spec,
                   default: Option<string>, value: Option<string>): World
    requires spec.kind.Integer? ==> INT_MIN <= spec.min && spec.max <= INT_MAX
  {
    var (name, parent) := NameAndParent(text);
    var k := Key(file, section, name);
    var c := Create(spec, default, value);
    if k in w.options || c.None? then w
    else
      CreatedIsSound(spec, default, value);
      Updated(w, k, Item(c.value.0, c.value.1, parent), Changed)
  }

  function Reparented(parent: Option<string>, was: string, now: string): Option<string> {
    if parent == Some(was) then Some(now) else parent
  }

  /** The key of an option after one option has been renamed. */
  function Moved(k: Key, was: Key, now: Key): Key {
    if k == was then now else k
  }

  function RenamedOptions(options: map<Key, Item>, was: Key, now: Key): map<Key, Item>
    requires was in options && now !in options
  {
    map k | k in options.Keys - {was} + {now} ::
      var i := options[if k == now then was else k];
      i.(parent := Reparented(i.parent, FullName(was), FullName(now)))
  }

  predicate CanRename(w: World, k: Key, name: string) {
    k in w.options && name != "" && k.(name := name) !in w.options
  }

  function Renamed(w: World, k: Key, name: string): World
    requires k in w.options && Sound(w.options[k].spec, w.options[k].state)
  {
    if !CanRename(w, k, name) then w
    else
      var now := k.(name := name);
      World(RenamedOptions(w.options, k, now), w.sent + [NoteOf(now, w.options[k])])
  }

  function Freed(w: World, k: Key, notify: bool): World {
    World(w.options - {k}, if notify then w.sent + [Note(FullName(k), None)] else w.sent)
  }

  /** One call; a call on an option that does not exist is not one. */
  function Step(w: World, a: Action): World
    requires Valid(w) && Allowed(a)
  {
    match a
    case New(file, section, text, spec, default, value) => Created(w, file, section, text, spec, default, value)
    case Edit(k, op) => if k in w.options then Edited(w, k, op) else w
    case Rename(k, name) => if k in w.options then Renamed(w, k, name) else w
    case Free(k, notify) => if k in w.options then Freed(w, k, notify) else w
    case Unset(k, deletable) =>
      if k !in w.options then w else if deletable then Freed(w, k, true) else Edited(w, k, OpReset)
  }

  // ----- listener coherence

  /** The last that was said under a name. */
  function LastText(sent: seq<Note>, name: string): Option<Option<string>> {
    if sent == [] then None
    else if sent[|sent| - 1].name == name then Some(sent[|sent| - 1].text)
    else LastText(sent[..|sent| - 1], name)
  }

  predicate Told(sent: seq<Note>, k: Key, i: Item)
    requires Sound(i.spec, i.state)
  {
    LastText(sent, FullName(k)) == Some(Shown(i.spec, i.state.value))
  }

  /** A listener that remembers the last it was told knows every value. */
  ghost predicate Coherent(w: World)
    requires Valid(w)
  {
    forall k :: k in w.options ==> Told(w.sent, k, w.options[k])
  }

  lemma OneMore(sent: seq<Note>, n: Note, name: string)
    ensures LastText(sent + [n], name) == if n.name == name then Some(n.text) else LastText(sent, name)
  {
    assert (sent + [n])[..|sent|] == sent;
  }

  /** What is said about one option is the last only about it. */
  lemma ToldMore(sent: seq<Note>, about: Key, i: Item, k: Key)
    requires Plain(about) && Plain(k) && Sound(i.spec, i.state)
    ensures LastText(sent + [NoteOf(about, i)], FullName(k))
         == if k == about then Some(Shown(i.spec, i.state.value)) else LastText(sent, FullName(k))
  {
    OneMore(sent, NoteOf(about, i), FullName(k));
    if FullName(k) == FullName(about) {
      FullNameInjective(k, about);
    }
  }

  lemma UpdatedCoherent(w: World, k: Key, i: Item, rc: Rc)
    requires Valid(w) && Coherent(w) && Plain(k) && Sound(i.spec, i.state)
    requires
      || rc == Changed
      || (k in w.options && w.options[k].spec == i.spec && w.options[k].state.value == i.state.value)
    ensures Valid(Updated(w, k, i, rc)) && Coherent(Updated(w, k, i, rc))
  {
    var w' := Updated(w, k, i, rc);
    forall x | x in w'.options ensures Told(w'.sent, x, w'.options[x]) {
      if rc == Changed {
        ToldMore(w.sent, k, i, x);
      }
      assert x != k ==> Told(w.sent, x, w.options[x]);
      assert k in w.options ==> Told(w.sent, k, w.options[k]);
    }
  }

  lemma EditedCoherent(w: World, k: Key, op: Op)
    requires Valid(w) && Coherent(w) && k in w.options && Callable(op)
    ensures Valid(Edited(w, k, op)) && Coherent(Edited(w, k, op))
  {
    var i := w.options[k];
    DoKeepsSound(i.spec, i.state, op);
    ResultIsTruthful(i.spec, i.state, op);
    var (s, rc) := Do(i.spec, i.state, op);
    UpdatedCoherent(w, k, i.(state := s), rc);
  }

  lemma RenamedCoherent(w: World, k: Key, name: string)
    requires Valid(w) && Coherent(w) && k in w.options
    ensures Valid(Renamed(w, k, name)) && Coherent(Renamed(w, k, name))
  {
    if CanRename(w, k, name) {
      var now, w' := k.(name := name), Renamed(w, k, name);
      forall x | x in w'.options ensures Told(w'.sent, x, w'.options[x]) {
        ToldMore(w.sent, now, w.options[k], x);
        assert x != now ==> Told(w.sent, x, w.options[x]);
      }
    }
  }

  lemma FreedCoherent(w: World, k: Key, notify: bool)
    requires Valid(w) && Coherent(w) && k in w.options
    ensures Valid(Freed(w, k, notify)) && Coherent(Freed(w, k, notify))
  {
    var w' := Freed(w, k, notify);
    forall x | x in w'.options ensures Told(w'.sent, x, w'.options[x]) {
      assert Told(w.sent, x, w.options[x]);
      if notify {
        OneMore(w.sent, Note(FullName(k), None), FullName(x));
        if FullName(x) == FullName(k) {
          FullNameInjective(x, k);
        }
      }
    }
  }

  lemma CreatedCoherent(w: World, a: Action)
    requires Valid(w) && Coherent(w) && a.New? && Allowed(a)
    ensures Valid(Step(w, a)) && Coherent(Step(w, a))
  {
    var (name, parent) := NameAndParent(a.text);
    var k := Key(a.file, a.section, name);
    var c := Create(a.spec, a.default, a.value);
    if k !in w.options && c.Some? {
      CreatedIsSound(a.spec, a.default, a.value);
      UpdatedCoherent(w, k, Item(c.value.0, c.value.1, parent), Changed);
    }
  }

  lemma StepCoherent(w: World, a: Action)
    requires Valid(w) && Coherent(w) && Allowed(a)
    ensures Valid(Step(w, a)) && Coherent(Step(w, a))
  {
    match a {
      case New(_, _, _, _, _, _) => CreatedCoherent(w, a);
      case Edit(k, op) =>
        if k in w.options {
          EditedCoherent(w, k, op);
        }
      case Rename(k, name) =>
        if k in w.options {
          RenamedCoherent(w, k, name);
        }
      case Free(k, notify) =>
        if k in w.options {
          FreedCoherent(w, k, notify);
        }
      case Unset(k, deletable) =>
        if k in w.options && deletable {
          FreedCoherent(w, k, true);
        } else if k in w.options {
          EditedCoherent(w, k, OpReset);
        }
    }
  }

  ghost function Run(w: World, actions: seq<Action>): World
    requires Valid(w) && Coherent(w) && forall i :: 0 <= i < |actions| ==> Allowed(actions[i])
    decreases actions
  {
    if actions == [] then w
    else
      StepCoherent(w, actions[0]);
      Run(Step(w, actions[0]), actions[1..])
  }

  /** After every run, the last that was said under the full name of an option is
      its value now, and NULL exactly if it is null. The first world, without
      options, is one to start from. */
  lemma {:induction false} ListenersKnow(w: World, actions: seq<Action>)
    requires Valid(w) && Coherent(w) && forall i :: 0 <= i < |actions| ==> Allowed(actions[i])
    ensures var w' := Run(w, actions);
      && Valid(w')
      && forall k :: k in w'.options ==>
           var i := w'.options[k];
           LastText(w'.sent, FullName(k))
             == Some(if i.state.value.None? then None else Some(Rendered(i.spec, i.state.value)))
    decreases actions
  {
    if actions == [] {
      forall k | k in w.options
        ensures var i := w.options[k];
          LastText(w.sent, FullName(k))
            == Some(if i.state.value.None? then None else Some(Rendered(i.spec, i.state.value)))
      {
        assert Told(w.sent, k, w.options[k]);
        ShownIsRendered(w.options[k].spec, w.options[k].state.value);
      }
    } else {
      StepCoherent(w, actions[0]);
      ListenersKnow(Step(w, actions[0]), actions[1..]);
    }
  }

  // ----- inheritance

  /** config_file_get_parent_option. */
  function Parent(w: World, i: Item): Option<Item> {
    if i.parent.None? then None
    else
      var k := Split(i.parent.value);
      if k.Some? && k.value in w.options then Some(w.options[k.value]) else None
  }

  /** The value of an option, or its default value if it is null. */
  function Own(i: Item): (Spec, Option<Value>) {
    (i.spec, if i.state.value.Some? then i.state.value else i.state.default)
  }

  /** What each of the getters of inherited values reads: a value and the option
      that it comes from. */
  function Inherited(w: World, k: Key): (Spec, Option<Value>)
    requires k in w.options
  {
    var i := w.options[k];
    if i.state.value.Some? then Own(i)
    else match Parent(w, i)
      case None => (i.spec, i.state.default)
      case Some(p) => Own(p)
  }

  /** The option waits for a parent that does not exist, under a certain name. */
  predicate WaitsFor(i: Item, name: string) {
    i.state.value.None? && i.parent == Some(name)
  }

  lemma ParentAfterRename(w: World, i: Item, was: Key, now: Key)
    requires Valid(w) && was in w.options && now !in w.options && Plain(now)
    ensures var i' := i.(parent := Reparented(i.parent, FullName(was), FullName(now)));
      var w' := World(RenamedOptions(w.options, was, now), w.sent);
      var p, p' := Parent(w, i), Parent(w', i');
      if i.parent == Some(FullName(now)) then p.None? && p'.Some? && Own(p'.value) == Own(w.options[was])
      else p.Some? == p'.Some? && (p.Some? ==> Own(p'.value) == Own(p.value))
  {
    if i.parent.Some? {
      SplitIs(i.parent.value, was);
      SplitIs(i.parent.value, now);
      SplitIs(FullName(now), now);
      SplitIs(FullName(now), was);
    }
  }

  /** Renaming an option leaves every inherited value as it is, in every file, but
      for options that waited for a parent of the new name: they get this one.
      The old name may be anywhere, also in the option itself. */
  lemma RenameKeepsInheritance(w: World, was: Key, name: string, k: Key)
    requires Valid(w) && CanRename(w, was, name) && k in w.options
    ensures var now := was.(name := name);
      var w' := Renamed(w, was, name);
      Moved(k, was, now) in w'.options
      && Inherited(w', Moved(k, was, now))
         == if WaitsFor(w.options[k], FullName(now)) then Own(w.options[was]) else Inherited(w, k)
  {
    var now := was.(name := name);
    ParentAfterRename(w, w.options[k], was, now);
  }

  /** What the getters return for a value: the boolean, the integer (the enum
      getter returns the same), the text and the color; None is NULL. */
  datatype Readings = Readings(boolean: int, integer: int, text: Option<string>, color: Option<string>)

  function ReadingsOf(o: Spec, v: Option<Value>): Readings
    requires Writable(o, v)
  {
    match v
    case None => Readings(0, 0, None, None)
    case Some(Text(s)) => Readings(0, 0, Some(s), None)
    case Some(Num(n)) =>
      match o.kind
      case Boolean => Readings(n, if n == 1 then 1 else 0, Some(if n != 0 then "on" else "off"), None)
      case Integer => Readings(0, n, None, None)
      case Color => Readings(0, n, Some(o.colors.name(n)), Some(o.colors.name(n)))
      case Enum => Readings(0, n, Some(o.strings[n]), None)
  }

  lemma OwnIsWritable(w: World, k: Key)
    requires Valid(w) && k in w.options
    ensures var (o, v) := Own(w.options[k]); Writable(o, v)
    ensures Writable(w.options[k].spec, w.options[k].state.default)
  {
  }

  /** What the getters of inherited values return. */
  ghost function InheritedReadings(w: World, k: Key): Readings
    requires Valid(w) && k in w.options
  {
    InheritedIsWritable(w, k);
    var (o, v) := Inherited(w, k);
    ReadingsOf(o, v)
  }

  lemma InheritedIsWritable(w: World, k: Key)
    requires Valid(w) && k in w.options
    ensures var (o, v) := Inherited(w, k); Writable(o, v)
  {
    OwnIsWritable(w, k);
    var i := w.options[k];
    if i.state.value.None? && Parent(w, i).Some? {
      OwnIsWritable(w, Split(i.parent.value).value);
    }
  }

  lemma RenamedIsValid(w: World, was: Key, name: string)
    requires Valid(w) && CanRename(w, was, name)
    ensures Valid(Renamed(w, was, name))
  {
  }

  /** A null option that waits for a name and has no parent reads its default. */
  lemma WaitingReadsDefault(w: World, now: Key, k: Key)
    requires Valid(w) && Plain(now) && now !in w.options
    requires k in w.options && WaitsFor(w.options[k], FullName(now))
    ensures Inherited(w, k) == (w.options[k].spec, w.options[k].state.default)
  {
    SplitIs(FullName(now), now);
  }

  /** What a getter of inherited values returns after a renaming. */
  lemma RenamedReadings(w: World, was: Key, name: string, k: Key)
    requires Valid(w) && CanRename(w, was, name) && k in w.options
    ensures var now := was.(name := name);
      var w' := Renamed(w, was, name);
      && Valid(w') && Moved(k, was, now) in w'.options
      && InheritedReadings(w', Moved(k, was, now))
         == (if WaitsFor(w.options[k], FullName(now)) then OwnReadings(w, was) else InheritedReadings(w, k))
      && (WaitsFor(w.options[k], FullName(now)) ==> InheritedReadings(w, k) == DefaultReadings(w, k))
  {
    var now := was.(name := name);
    RenamedIsValid(w, was, name);
    RenameKeepsInheritance(w, was, name, k);
    if WaitsFor(w.options[k], FullName(now)) {
      WaitingReadsDefault(w, now, k);
    }
  }

  ghost function OwnReadings(w: World, k: Key): Readings
    requires Valid(w) && k in w.options
  {
    OwnIsWritable(w, k);
    var (o, v) := Own(w.options[k]);
    ReadingsOf(o, v)
  }

  ghost function DefaultReadings(w: World, k: Key): Readings
    requires Valid(w) && k in w.options
  {
    OwnIsWritable(w, k);
    ReadingsOf(w.options[k].spec, w.options[k].state.default)
  }

  /** Renaming leaves everything that the getters of inherited values return as
      it is, for every option of every file, if and only if the renamed option
      reads the same as the default of each option that waited for its new name. */
  lemma RenameDisturbsExactly(w: World, was: Key, name: string)
    requires Valid(w) && CanRename(w, was, name)
    ensures var now := was.(name := name);
      var w' := Renamed(w, was, name);
      Valid(w') && (forall k :: k in w.options ==> Moved(k, was, now) in w'.options)
      && ((forall k :: k in w.options ==> InheritedReadings(w', Moved(k, was, now)) == InheritedReadings(w, k))
          <==> forall k :: k in w.options && WaitsFor(w.options[k], FullName(now)) ==>
                 OwnReadings(w, was) == DefaultReadings(w, k))
  {
    var now := was.(name := name);
    var w' := Renamed(w, was, name);
    RenamedIsValid(w, was, name);
    forall k | k in w.options
      ensures Moved(k, was, now) in w'.options
      ensures InheritedReadings(w', Moved(k, was, now))
           == if WaitsFor(w.options[k], FullName(now)) then OwnReadings(w, was) else InheritedReadings(w, k)
      ensures WaitsFor(w.options[k], FullName(now)) ==> InheritedReadings(w, k) == DefaultReadings(w, k)
    {
      RenamedReadings(w, was, name, k);
    }
  }

  // ----- a renaming that does change a value

  function IntegerItem(colors: Colors, value: Option<int>, default: int, parent: Option<string>): Item {
    Item(Spec(Integer, 0, 10, [], true, _ => true, colors), State(AsValue(value), Some(Num(default))), parent)
  }

  /** The option "f.s.a" has the value 5, and "f.s.b", which is null with the
      default 7, names "f.s.c" as its parent: it is read as 7. After "a" has been
      renamed to "c" it is read as 5, though nobody has set anything. */
  lemma RenameChangesAValue(colors: Colors)
    ensures var a, b, c := Key("f", "s", "a"), Key("f", "s", "b"), Key("f", "s", "c");
      var w := World(map[a := IntegerItem(colors, Some(5), 5, None),
                         b := IntegerItem(colors, None, 7, Some(FullName(c)))], []);
      var w' := Renamed(w, a, "c");
      && Valid(w) && CanRename(w, a, "c") && Valid(w') && b in w'.options
      && InheritedReadings(w, b).integer == 7 && InheritedReadings(w', b).integer == 5
  {
    var a, b, c := Key("f", "s", "a"), Key("f", "s", "b"), Key("f", "s", "c");
    var w := World(map[a := IntegerItem(colors, Some(5), 5, None),
                       b := IntegerItem(colors, None, 7, Some(FullName(c)))], []);
    RenamedReadings(w, a, "c", b);
  }
}
