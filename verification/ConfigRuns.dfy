/** Runs of calls on the heap: the store stays well-formed, and the listeners know
    every value, as in the runs of ConfigWorld. */
module ConfigRuns {
  import opened Wrappers
  import opened OptionValue
  import opened OptionLaws
  import opened Names
  import opened ConfigWorld
  import opened ConfigStore
  import opened ConfigRegistry
  import opened ConfigSearch

  /** Everything that holds between two calls. */
  ghost predicate Ready(st: Store)
    reads st, st.files, st.sections, st.all, st.hooks
  {
    && st.Valid() && st.Shown() && Searchable(st)
    && ConfigWorld.Valid(st.world) && Coherent(st.world)
  }

  /** A creation names a section that exists. */
  ghost predicate Possible(st: Store, a: Action)
    reads st`sections
  {
    a.New? ==> exists s :: s in st.sections && s.fileName == a.file && s.name == a.section
  }

  lemma KeyIsShown(st: Store, k: Key)
    requires st.Shown()
    ensures st.HasKey(k) <==> k in st.world.options
  {
  }

  // ----- calls on the heap: the option is looked up by its key

  method CreateIn(st: Store, k: Key, text: string, spec: Spec, default: Option<string>, value: Option<string>)
    requires Ready(st) && (spec.kind.Integer? ==> INT_MIN <= spec.min && spec.max <= INT_MAX)
    requires exists s :: s in st.sections && s.fileName == k.file && s.name == k.section
    modifies st`all, st`world, st.sections, st.all, st.hooks
    ensures st.Shaped() && st.Shown() && fresh(st.all - old(st.all))
    ensures st.world == Created(old(st.world), k.file, k.section, text, spec, default, value)
  {
    var section := SearchKeySection(st, k);
    var _ := st.CreateValid(section, text, spec, default, value);
  }

  method EditKey(st: Store, k: Key, op: Op)
    requires Ready(st) && Callable(op)
    modifies st`world, st.all`value, st.all`default, st.hooks
    ensures st.Shaped() && st.Shown() && st.SameLists()
    ensures st.world == if k in old(st.world).options then Edited(old(st.world), k, op) else old(st.world)
  {
    KeyIsShown(st, k);
    var option := SearchKey(st, k);
    if option != null {
      var _ := st.EditValid(option, op);
    }
  }

  method RenameKey(st: Store, k: Key, name: string)
    requires Ready(st)
    modifies st`world, st.sections, st.all, st.hooks
    ensures st.Shaped() && st.Shown()
    ensures st.world == if k in old(st.world).options then Renamed(old(st.world), k, name) else old(st.world)
  {
    KeyIsShown(st, k);
    var option := SearchKey(st, k);
    if option != null {
      st.RenameValid(option, name);
    }
  }

  method FreeKey(st: Store, k: Key, notify: bool)
    requires Ready(st)
    modifies st`all, st`world, st.sections, st.all, st.hooks
    ensures st.Shaped() && st.Shown() && st.all <= old(st.all)
    ensures st.world == if k in old(st.world).options then Freed(old(st.world), k, notify) else old(st.world)
  {
    KeyIsShown(st, k);
    var option := SearchKey(st, k);
    if option != null {
      st.FreeValid(option, notify);
    }
  }

  method UnsetKey(st: Store, k: Key, deletable: bool)
    requires Ready(st)
    modifies st`all, st`world, st.sections, st.all, st.hooks
    ensures st.Shaped() && st.Shown() && st.all <= old(st.all)
    ensures st.world ==
      if k !in old(st.world).options then old(st.world)
      else if deletable then Freed(old(st.world), k, true) else Edited(old(st.world), k, OpReset)
  {
    KeyIsShown(st, k);
    var option := SearchKey(st, k);
    if option != null {
      st.UnsetValid(option, deletable);
    }
  }

  // ----- one call, and runs of calls

  /** What the calls do to the world is its step. */
  lemma StepIs(w: World, a: Action, w': World)
    requires ConfigWorld.Valid(w) && Allowed(a)
    requires match a
      case New(file, section, text, spec, default, value) =>
        w' == Created(w, file, section, text, spec, default, value)
      case Edit(k, op) => w' == if k in w.options then Edited(w, k, op) else w
      case Rename(k, name) => w' == if k in w.options then Renamed(w, k, name) else w
      case Free(k, notify) => w' == if k in w.options then Freed(w, k, notify) else w
      case Unset(k, deletable) =>
        w' == if k !in w.options then w else if deletable then Freed(w, k, true) else Edited(w, k, OpReset)
    ensures w' == Step(w, a)
  {
  }

  /** Creations, and renamings. */
  method CallNamed(st: Store, a: Action)
    requires Ready(st) && (a.New? || a.Rename?) && Allowed(a) && Possible(st, a)
    modifies st`all, st`world, st.sections, st.all, st.hooks
    ensures st.Shaped() && st.Shown() && fresh(st.all - old(st.all))
    ensures st.world == Step(old(st.world), a)
  {
    ghost var w := st.world;
    if a.New? {
      CreateIn(st, Key(a.file, a.section, ""), a.text, a.spec, a.default, a.value);
    } else {
      RenameKey(st, a.key, a.name);
    }
    StepIs(w, a, st.world);
  }

  /** Calls that end an option, or can. */
  method CallLast(st: Store, a: Action)
    requires Ready(st) && (a.Free? || a.Unset?)
    modifies st`all, st`world, st.sections, st.all, st.hooks
    ensures st.Shaped() && st.Shown() && fresh(st.all - old(st.all))
    ensures st.world == Step(old(st.world), a)
  {
    ghost var w := st.world;
    if a.Free? {
      FreeKey(st, a.key, a.notify);
    } else {
      UnsetKey(st, a.key, a.deletable);
    }
    StepIs(w, a, st.world);
  }

  /** Operations on values. */
  method CallOperation(st: Store, a: Action)
    requires Ready(st) && a.Edit? && Allowed(a)
    modifies st`world, st.all`value, st.all`default, st.hooks
    ensures st.Shaped() && st.Shown() && st.SameLists()
    ensures st.world == Step(old(st.world), a)
  {
    ghost var w := st.world;
    EditKey(st, a.key, a.op);
    StepIs(w, a, st.world);
  }

  /** The calls, each the step of the world. */
  method Dispatch(st: Store, a: Action)
    requires Ready(st) && Allowed(a) && Possible(st, a)
    modifies st`all, st`world, st.sections, st.all, st.hooks
    ensures st.Shaped() && st.Shown() && fresh(st.all - old(st.all))
    ensures st.world == Step(old(st.world), a)
  {
    if a.New? || a.Rename? {
      CallNamed(st, a);
    } else if a.Edit? {
      CallOperation(st, a);
    } else {
      CallLast(st, a);
    }
  }

  /** One call, of any kind. */
  method Call(st: Store, a: Action)
    requires Ready(st) && Allowed(a) && Possible(st, a)
    modifies st`all, st`world, st.sections, st.all, st.hooks
    ensures Ready(st) && fresh(st.all - old(st.all))
    ensures st.world == Step(old(st.world), a)
  {
    StepCoherent(st.world, a);
    Dispatch(st, a);
    st.SoundAsShown();
  }

  /** A run of calls. Between any two of them, and in the end, all lists are linked,
      sorted and without equal names, and the store shows the world of the run. */
  method RunCalls(st: Store, actions: seq<Action>)
    requires Ready(st) && forall i :: 0 <= i < |actions| ==> Allowed(actions[i]) && Possible(st, actions[i])
    modifies st`all, st`world, st.sections, st.all, st.hooks
    ensures Ready(st) && fresh(st.all - old(st.all))
    ensures st.world == Run(old(st.world), actions)
    decreases |actions|
  {
    if actions != [] {
      Call(st, actions[0]);
      RunCalls(st, actions[1..]);
    }
  }

  /** An operation on the value of an option touches nothing else. */
  method CallEdit(st: Store, k: Key, op: Op)
    requires Ready(st) && Callable(op)
    modifies st`world, st.all`value, st.all`default, st.hooks
    ensures Ready(st) && st.SameLists() && st.world == Step(old(st.world), Edit(k, op))
  {
    StepCoherent(st.world, Edit(k, op));
    CallOperation(st, Edit(k, op));
    st.SoundAsShown();
  }

  /** And so does a run of them. */
  method RunEdits(st: Store, edits: seq<(Key, Op)>)
    requires Ready(st) && forall i :: 0 <= i < |edits| ==> Callable(edits[i].1)
    modifies st`world, st.all`value, st.all`default, st.hooks
    ensures Ready(st) && st.SameLists()
    decreases |edits|
  {
    if edits != [] {
      CallEdit(st, edits[0].0, edits[0].1);
      RunEdits(st, edits[1..]);
    }
  }

  /** On the heap, then: the last that listeners were told under the full name of
      an option is the rendering of its value, and NULL exactly if it is null. */
  lemma HeapListenersKnow(st: Store, o: ConfigOption)
    requires Ready(st) && o in st.all
    ensures LastText(st.hooks.sent, FullName(o.Key()))
         == Some(if o.value.None? then None else Some(Rendered(o.spec, o.value)))
  {
    assert o.Valid();
    assert Told(st.world.sent, o.Key(), st.world.options[o.Key()]);
    ShownIsRendered(o.spec, o.value);
  }

  /** A new store is ready. */
  method NewStore() returns (st: Store)
    ensures fresh(st) && fresh(st.hooks) && Ready(st) && st.world == World(map[], [])
    ensures st.files == [] && st.sections == {} && st.all == {}
  {
    st := new Store();
  }
}
