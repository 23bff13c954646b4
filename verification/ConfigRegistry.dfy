/** All configuration files on the heap, and how the operations on them follow
    the steps of ConfigWorld. */
module ConfigRegistry {
  import opened Wrappers
  import opened OptionValue
  import opened OptionLaws
  import opened Names
  import opened ConfigWorld
  import opened ConfigStore

  function ReparentedItem(i: Item, was: string, now: string): Item {
    i.(parent := Reparented(i.parent, was, now))
  }

  ghost predicate IsEdit(w: World, w': World, k: Key, op: Op) {
    && k in w.options && Sound(w.options[k].spec, w.options[k].state) && Callable(op)
    && w' == Edited(w, k, op)
  }

  lemma EditedIs(w: World, k: Key, op: Op, i: Item, i': Item, rc: Rc)
    requires k in w.options && w.options[k] == i && Callable(op) && Sound(i.spec, i.state)
    requires Sound(i'.spec, i'.state) && i' == i.(state := i'.state) && (i'.state, rc) == Do(i.spec, i.state, op)
    ensures var sent := w.sent + if rc == Changed then [NoteOf(k, i')] else [];
      IsEdit(w, World(w.options[k := i'], sent), k, op)
  {
  }

  ghost predicate IsRename(w: World, w': World, k: Key, name: string) {
    && k in w.options && Sound(w.options[k].spec, w.options[k].state)
    && w' == Renamed(w, k, name)
  }

  lemma CreatedIs(w: World, file: string, section: string, text: string, spec: Spec,
                  default: Option<string>, value: Option<string>)
    requires spec.kind.Integer? ==> INT_MIN <= spec.min && spec.max <= INT_MAX
    ensures var k := Key(file, section, NameAndParent(text).0);
      var w' := Created(w, file, section, text, spec, default, value);
      if k in w.options || Create(spec, default, value).None? then w' == w
      else
        var c := Create(spec, default, value).value;
        var i := Item(c.0, c.1, NameAndParent(text).1);
        Sound(c.0, c.1) && w' == World(w.options[k := i], w.sent + [NoteOf(k, i)])
  {
    if Create(spec, default, value).Some? {
      CreatedIsSound(spec, default, value);
    }
  }

  lemma RenamedIs(w: World, k: Key, name: string)
    requires k in w.options && Sound(w.options[k].spec, w.options[k].state)
    ensures var now := k.(name := name);
      if CanRename(w, k, name) then
        IsRename(w, World(RenamedOptions(w.options, k, now), w.sent + [NoteOf(now, w.options[k])]), k, name)
      else IsRename(w, w, k, name)
  {
  }

  class ConfigFile {
    const name: string
    const priority: int
    var version: int
    var sections: seq<Section>

    constructor (name: string, priority: int)
      ensures this.name == name && this.priority == priority && version == 1 && sections == []
    {
      this.name, this.priority, version, sections := name, priority, 1, [];
    }
  }

  class Store {
    var files: seq<ConfigFile>
    const hooks: Hooks
    /** All sections and all options. */
    ghost var sections: set<Section>
    ghost var all: set<ConfigOption>
    /** The world that this store stands for. */
    ghost var world: World

    constructor ()
      ensures Valid() && Shown() && fresh(hooks)
      ensures files == [] && sections == {} && all == {}
      ensures world == World(map[], [])
    {
      files := [];
      hooks := new Hooks();
      sections, all, world := {}, {}, World(map[], []);
    }

    /** The sections are those of the files. */
    ghost predicate Listed()
      reads this`files, this`sections, files`sections
    {
      && (forall f, s :: f in files && s in f.sections ==> s in sections)
      && (forall s :: s in sections ==> exists f :: f in files && s in f.sections)
    }

    /** The options are those of the sections. */
    ghost predicate Collected()
      reads this`sections, this`all, sections`nodes
    {
      && (forall s, o :: s in sections && o in s.nodes ==> o in all)
      && (forall o :: o in all ==> o.section in sections && o in o.section.nodes)
    }

    /** Every list is well-formed and sorted. */
    ghost predicate Ordered()
      requires Collected()
      reads this`sections, this`all
      reads sections`options, sections`lastOption, sections`nodes, sections`names, all`prev, all`next, all`name
    {
      forall s :: s in sections ==> s.Linked() && s.Sorted()
    }

    /** No two sections have the same names. */
    ghost predicate Named()
      reads this`sections
    {
      forall s, t :: s in sections && t in sections && s.fileName == t.fileName && s.name == t.name ==> s == t
    }

    ghost predicate AllSound()
      reads this`all, all`value, all`default
    {
      forall o :: o in all ==> o.Valid()
    }

    /** Files, sections and lists are as they have to be. */
    ghost predicate Shaped()
      reads this`files, this`sections, this`all, files`sections
      reads sections`options, sections`lastOption, sections`nodes, sections`names, all`prev, all`next, all`name
    {
      Listed() && Collected() && Ordered() && Named()
    }

    /** The store as a whole. */
    ghost predicate Valid()
      reads this, files, sections, all
    {
      Shaped() && AllSound()
    }

    ghost predicate HasKey(k: Key)
      reads this`all, all`name
    {
      exists o :: o in all && o.Key() == k
    }

    // ----- the world that a store stands for

    ghost predicate ShowsOptions(m: map<Key, Item>)
      reads this`all, all`name, all`value, all`default, all`parentName
    {
      && (forall o :: o in all ==> o.Key() in m && m[o.Key()] == o.Item())
      && (forall k :: k in m ==> HasKey(k))
    }

    /** The options and the notifications are those of the world. */
    ghost predicate Shown()
      reads this`world, this`all, all`name, all`value, all`default, all`parentName, hooks
    {
      ShowsOptions(world.options) && world.sent == hooks.sent
    }

    lemma SameKey(o: ConfigOption, p: ConfigOption)
      requires Collected() && Ordered() && Named() && o in all && p in all && o.Key() == p.Key()
      ensures o == p
    {
      var s := o.section;
      assert p.section == s;
      var i :| 0 <= i < |s.nodes| && s.nodes[i] == o;
      var j :| 0 <= j < |s.nodes| && s.nodes[j] == p;
      assert s.names[i] == s.names[j];
    }

    /** No two options have the same key. */
    ghost predicate Keyed()
      reads this`all, all`name
    {
      forall o, p :: o in all && p in all && o.Key() == p.Key() ==> o == p
    }

    lemma KeysDiffer()
      requires Collected() && Ordered() && Named()
      ensures Keyed()
    {
      forall o, p | o in all && p in all && o.Key() == p.Key() ensures o == p {
        SameKey(o, p);
      }
    }

    lemma KeyOfOne(option: ConfigOption)
      requires Collected() && Ordered() && Named() && option in all
      ensures forall o :: o in all && o != option ==> o.Key() != option.Key()
    {
      forall o | o in all && o.Key() == option.Key() ensures o == option {
        SameKey(o, option);
      }
    }

    /** There is only one such world. */
    lemma OneWorld(w: World)
      requires Shown() && ShowsOptions(w.options) && w.sent == hooks.sent
      ensures w == world
    {
      assert w.options.Keys == world.options.Keys;
      forall k | k in w.options ensures w.options[k] == world.options[k] {
        assert HasKey(k);
      }
    }

    // What a change of some fields leaves alone.

    twostate predicate SameLists()
      reads this`sections, this`all
      reads sections`options, sections`lastOption, sections`nodes, sections`names, all`prev, all`next, all`name
    {
      && sections == old(sections) && all == old(all)
      && (forall s :: s in sections ==>
            && s.options == old(s.options) && s.lastOption == old(s.lastOption)
            && s.nodes == old(s.nodes) && s.names == old(s.names))
      && (forall o :: o in all ==> o.prev == old(o.prev) && o.next == old(o.next) && o.name == old(o.name))
    }

    twostate lemma ListsKept()
      requires old(Collected() && Ordered()) && SameLists()
      ensures Collected() && Ordered()
    {
      assert Collected();
      forall s | s in sections ensures s.Linked() && s.Sorted() {
        s.Untouched();
      }
    }

    twostate lemma ShapeKept()
      requires old(Shaped()) && SameLists() && files == old(files)
      requires forall f :: f in files ==> f.sections == old(f.sections)
      ensures Shaped()
    {
      ListsKept();
      ListedKept();
    }

    twostate lemma ListedKept()
      requires old(Listed()) && files == old(files) && sections == old(sections)
      requires forall f :: f in files ==> f.sections == old(f.sections)
      ensures Listed()
    {
    }

    /** The world is shown but for the values of some options. */
    ghost predicate ShownBut(own: set<ConfigOption>)
      reads this`world, this`all, all`name, all`value, all`default, all`parentName
    {
      && (forall k :: k in world.options ==> HasKey(k))
      && forall o :: o in all ==>
           && o.Key() in world.options && world.options[o.Key()].parent == o.parentName
           && (o !in own ==> world.options[o.Key()] == o.Item())
    }

    twostate lemma OtherValuesShown(own: set<ConfigOption>)
      requires old(ShowsOptions(world.options)) && world == old(world) && all == old(all)
      requires forall o :: o in all ==> o.Key() == old(o.Key()) && o.parentName == old(o.parentName)
      requires forall o :: o in all && o !in own ==> o.Item() == old(o.Item())
      ensures ShownBut(own)
    {
      KeysShown();
    }

    // ----- operations on values

    twostate lemma OthersShown(option: ConfigOption)
      requires old(ShowsOptions(world.options)) && all == old(all) && option in all
      requires forall o :: o in all && o != option ==> o.Key() != option.Key()
      requires forall o :: o in all ==> o.Key() == old(o.Key()) && (o != option ==> o.Item() == old(o.Item()))
      ensures ShowsOptions(old(world).options[option.Key() := option.Item()])
    {
      KeysShown();
    }

    twostate lemma KeysShown()
      requires old(ShowsOptions(world.options)) && all == old(all)
      requires forall o :: o in all ==> o.Key() == old(o.Key())
      ensures forall k :: k in old(world).options ==> HasKey(k)
    {
      forall k | k in old(world).options ensures HasKey(k) {
        assert old(HasKey(k));
        var o :| o in old(all) && old(o.Key()) == k;
        assert o.Key() == k;
      }
    }

    /** One operation on the value of an option is the step of the world. Nothing
        else changes: all that Valid says about lists stays as it is. */
    method Edit(option: ConfigOption, op: Op) returns (rc: Rc)
      requires option in all && option.Valid() && Callable(op) && Shown()
      requires forall o :: o in all && o != option ==> o.Key() != option.Key()
      modifies option`value, option`default, hooks, this`world
      ensures option.Valid() && Shown()
      ensures IsEdit(old(world), world, option.Key(), op)
    {
      ghost var i := option.Item();
      rc := option.Perform(op, hooks);
      OthersShown(option);
      EditedIs(world, option.Key(), op, i, option.Item(), rc);
      world := World(world.options[option.Key() := option.Item()], hooks.sent);
    }

    // ----- renaming

    /** A change of one list keeps all of them in order. */
    twostate lemma OrderedKept(section: Section)
      requires old(Collected() && Ordered()) && Collected() && sections == old(sections)
      requires section.Linked() && section.Sorted()
      requires forall s :: s in sections && s != section ==>
        && s.options == old(s.options) && s.lastOption == old(s.lastOption)
        && s.nodes == old(s.nodes) && s.names == old(s.names)
      requires forall o :: o in old(all) && o.section != section ==>
        o.prev == old(o.prev) && o.next == old(o.next) && o.name == old(o.name)
      ensures Ordered()
    {
      forall s | s in sections && s != section ensures s.Linked() && s.Sorted() {
        s.Untouched();
      }
    }

    /** A name is in a section's table exactly if its key is one of the store. */
    lemma TableKnows(section: Section, name: string)
      requires Collected() && Ordered() && Named() && section in sections
      ensures name in section.Table() <==> HasKey(Names.Key(section.fileName, section.name, name))
    {
      TableMissing(section.names, section.nodes, name);
      if name in section.names {
        var i :| 0 <= i < |section.names| && section.names[i] == name;
        assert section.nodes[i] in all && section.nodes[i].Key() == Names.Key(section.fileName, section.name, name);
      }
      forall o | o in all && o.Key() == Names.Key(section.fileName, section.name, name)
        ensures name in section.names
      {
        assert o.section == section;
        var i :| 0 <= i < |section.nodes| && section.nodes[i] == o;
        assert section.names[i] == name;
      }
    }

    twostate lemma CollectedKept(section: Section)
      requires old(Collected()) && sections == old(sections) && all == old(all) && section in sections
      requires section.Members() == old(section.Members())
      requires forall s :: s in sections && s != section ==> s.nodes == old(s.nodes)
      ensures Collected()
    {
      forall o | o in section.nodes ensures o in all {
        assert o in section.Members();
      }
      forall o | o in all ensures o in o.section.nodes {
        if o.section == section {
          assert o in old(section.Members());
          assert o in section.Members();
        }
      }
    }

    /** The list of the section, with the guards of config_file_option_rename. */
    method RenameListed(option: ConfigOption, newName: string) returns (renamed: bool)
      requires Collected() && Ordered() && option in all
      modifies option.section`options, option.section`lastOption, option.section`nodes, option.section`names
      modifies option.section.nodes`prev, option.section.nodes`next, option`name
      ensures Collected() && Ordered()
      ensures renamed <==> newName != "" && newName !in old(option.section.Table())
      ensures option.name == if renamed then newName else old(option.name)
    {
      var section := option.section;
      renamed := section.RenameOption(option, newName);
      CollectedKept(section);
      OrderedKept(section);
    }

    /** The same for the keys of the store. */
    method RenameInSection(option: ConfigOption, newName: string) returns (renamed: bool)
      requires Collected() && Ordered() && Named() && option in all
      modifies option.section`options, option.section`lastOption, option.section`nodes, option.section`names
      modifies option.section.nodes`prev, option.section.nodes`next, option`name
      ensures Collected() && Ordered()
      ensures renamed <==> newName != "" && !old(HasKey(option.Key().(name := newName)))
      ensures option.name == if renamed then newName else old(option.name)
    {
      TableKnows(option.section, newName);
      renamed := RenameListed(option, newName);
    }

    ghost function Parents(): map<ConfigOption, Option<string>>
      reads this`all, all`parentName
    {
      map o | o in all :: o.parentName
    }

    /** The options of some sections have the new name of their parent. */
    ghost predicate Replaced(done: set<Section>, before: map<ConfigOption, Option<string>>, was: string, now: string)
      requires before.Keys == all
      reads this`all, all`parentName
    {
      forall o :: o in all ==> o.parentName == if o.section in done then Reparented(before[o], was, now) else before[o]
    }

    method ReplaceParentsOf(s: Section, was: string, now: string,
                            ghost done: set<Section>, ghost before: map<ConfigOption, Option<string>>)
      requires s.Linked() && (forall o :: o in s.nodes ==> o in all)
      requires forall o :: o in all && o.section == s ==> o in s.nodes
      requires before.Keys == all && Replaced(done, before, was, now)
      modifies all`parentName
      ensures Replaced(done + {s}, before, was, now)
    {
      s.ReplaceParent(was, now);
      forall o | o in all
        ensures o.parentName == if o.section in done + {s} then Reparented(before[o], was, now) else before[o]
      {
        assert o in s.nodes <==> o.section == s;
      }
    }

    method ReplaceParentsNext(s: Section, was: string, now: string,
                              ghost done: set<Section>, ghost before: map<ConfigOption, Option<string>>)
      requires Collected() && Ordered() && s in sections && before.Keys == all && Replaced(done, before, was, now)
      modifies all`parentName
      ensures Collected() && Ordered() && Replaced(done + {s}, before, was, now)
    {
      ReplaceParentsOf(s, was, now, done, before);
      ListsKept();
    }

    method ReplaceParentsIn(file: ConfigFile, was: string, now: string,
                            ghost done: set<Section>, ghost before: map<ConfigOption, Option<string>>)
      returns (ghost also: set<Section>)
      requires Collected() && Ordered() && forall s :: s in file.sections ==> s in sections
      requires before.Keys == all && Replaced(done, before, was, now)
      modifies all`parentName
      ensures Collected() && Ordered()
      ensures done <= also && forall s :: s in file.sections ==> s in also
      ensures Replaced(also, before, was, now)
    {
      also := done;
      var j := 0;
      while j < |file.sections|
        invariant j <= |file.sections| && done <= also
        invariant forall k :: 0 <= k < j ==> file.sections[k] in also
        invariant Collected() && Ordered()
        invariant Replaced(also, before, was, now)
      {
        ReplaceParentsNext(file.sections[j], was, now, also, before);
        also := also + {file.sections[j]};
        j := j + 1;
      }
    }

    /** The loops of config_file_option_rename over all options of all files. */
    method ReplaceParents(was: string, now: string)
      requires Listed() && Collected() && Ordered()
      modifies all`parentName
      ensures Collected() && Ordered()
      ensures forall o :: o in all ==> o.parentName == Reparented(old(o.parentName), was, now)
    {
      ghost var done: set<Section> := {};
      ghost var before := Parents();
      var i := 0;
      while i < |files|
        invariant i <= |files|
        invariant forall k, s :: 0 <= k < i && s in files[k].sections ==> s in done
        invariant Collected() && Ordered()
        invariant Replaced(done, before, was, now)
      {
        done := ReplaceParentsIn(files[i], was, now, done, before);
        i := i + 1;
      }
      forall o | o in all ensures o.section in done {
        var f :| f in files && o.section in f.sections;
        var k :| 0 <= k < |files| && files[k] == f;
      }
    }

    /** The loops after a renaming; without one there is nothing to do. */
    method ReplaceParentsIf(renamed: bool, was: string, now: string)
      requires Listed() && Collected() && Ordered()
      modifies all`parentName
      ensures Collected() && Ordered()
      ensures forall o :: o in all ==>
        o.parentName == if renamed then Reparented(old(o.parentName), was, now) else old(o.parentName)
    {
      if renamed {
        ReplaceParents(was, now);
      }
    }

    /** The renaming in its list, and both full names. */
    method RenameNamed(option: ConfigOption, newName: string)
      returns (renamed: bool, fullOldName: string, fullNewName: string)
      requires Listed() && Collected() && Ordered() && Named() && option in all
      modifies option.section`options, option.section`lastOption, option.section`nodes, option.section`names
      modifies option.section.nodes`prev, option.section.nodes`next, option`name
      ensures Listed() && Collected() && Ordered()
      ensures renamed <==> newName != "" && !old(HasKey(option.Key().(name := newName)))
      ensures option.name == if renamed then newName else old(option.name)
      ensures fullOldName == FullName(old(option.Key())) && fullNewName == FullName(option.Key())
      ensures forall o :: o in all ==> o.parentName == old(o.parentName)
    {
      fullOldName := option.FullName();
      renamed := RenameInSection(option, newName);
      fullNewName := option.FullName();
      ListedKept();
    }

    /** The renaming and its loops. */
    method RenameEverywhere(option: ConfigOption, newName: string)
      returns (renamed: bool, fullOldName: string, fullNewName: string)
      requires Listed() && Collected() && Ordered() && Named() && option in all
      modifies option.section`options, option.section`lastOption, option.section`nodes, option.section`names
      modifies option.section.nodes`prev, option.section.nodes`next, option`name, all`parentName
      ensures Collected() && Ordered()
      ensures renamed <==> newName != "" && !old(HasKey(option.Key().(name := newName)))
      ensures option.name == if renamed then newName else old(option.name)
      ensures fullOldName == FullName(old(option.Key())) && fullNewName == FullName(option.Key())
      ensures forall o :: o in all ==>
        o.parentName == if renamed then Reparented(old(o.parentName), fullOldName, fullNewName) else old(o.parentName)
    {
      renamed, fullOldName, fullNewName := RenameNamed(option, newName);
      ReplaceParentsIf(renamed, fullOldName, fullNewName);
    }

    /** The contents of all options after a renaming. */
    twostate lemma RenamedShown(option: ConfigOption)
      requires old(ShowsOptions(world.options)) && all == old(all) && option in all
      requires var now := option.Key(); !old(HasKey(now))
      requires forall o :: o in all && o != option ==> o.Key() == old(o.Key()) && old(o.Key()) != old(option.Key())
      requires forall o :: o in all ==>
        o.Item() == ReparentedItem(old(o.Item()), FullName(old(option.Key())), FullName(option.Key()))
      ensures old(option.Key()) in old(world).options && option.Key() !in old(world).options
      ensures ShowsOptions(RenamedOptions(old(world).options, old(option.Key()), option.Key()))
    {
      RenamedKeys(option);
    }

    twostate lemma RenamedKeys(option: ConfigOption)
      requires old(ShowsOptions(world.options)) && all == old(all) && option in all
      requires var now := option.Key(); !old(HasKey(now))
      requires forall o :: o in all && o != option ==> o.Key() == old(o.Key()) && old(o.Key()) != old(option.Key())
      ensures old(option.Key()) in old(world).options && option.Key() !in old(world).options
      ensures forall k :: k in old(world).options && k != old(option.Key()) ==> HasKey(k)
    {
      forall k | k in old(world).options && k != old(option.Key()) ensures HasKey(k) {
        assert old(HasKey(k));
        var o :| o in old(all) && old(o.Key()) == k;
        assert o.Key() == k;
      }
    }

    /** The contents of the options after a renaming. */
    method RenameItems(option: ConfigOption, newName: string) returns (renamed: bool)
      requires Listed() && Collected() && Ordered() && Named() && option in all
      modifies option.section`options, option.section`lastOption, option.section`nodes, option.section`names
      modifies option.section.nodes`prev, option.section.nodes`next, option`name, all`parentName
      ensures Collected() && Ordered()
      ensures renamed <==> newName != "" && !old(HasKey(option.Key().(name := newName)))
      ensures option.name == if renamed then newName else old(option.name)
      ensures forall o :: o in all ==> o.Item() == if renamed then
        ReparentedItem(old(o.Item()), FullName(old(option.Key())), FullName(option.Key())) else old(o.Item())
    {
      var fullOldName, fullNewName;
      renamed, fullOldName, fullNewName := RenameEverywhere(option, newName);
    }

    twostate lemma SameShown()
      requires old(ShowsOptions(world.options)) && all == old(all)
      requires forall o :: o in all ==> o.Key() == old(o.Key()) && o.Item() == old(o.Item())
      ensures ShowsOptions(old(world).options)
    {
      KeysShown();
    }

    /** The options after a renaming show the next world. */
    method RenameShown(option: ConfigOption, newName: string) returns (renamed: bool)
      requires Listed() && Collected() && Ordered() && Named() && option in all && ShowsOptions(world.options)
      modifies option.section`options, option.section`lastOption, option.section`nodes, option.section`names
      modifies option.section.nodes`prev, option.section.nodes`next, option`name, all`parentName
      ensures Collected() && Ordered()
      ensures renamed <==> newName != "" && !old(HasKey(option.Key().(name := newName)))
      ensures option.name == if renamed then newName else old(option.name)
      ensures renamed ==> old(option.Key()) in world.options && option.Key() !in world.options
      ensures ShowsOptions(if renamed then RenamedOptions(world.options, old(option.Key()), option.Key())
        else world.options)
    {
      KeyOfOne(option);
      renamed := RenameItems(option, newName);
      if renamed {
        RenamedShown(option);
      } else {
        SameShown();
      }
    }

    twostate lemma NextKept(next: map<Key, Item>)
      requires old(ShowsOptions(next)) && all == old(all)
      requires forall o :: o in all ==> o.Key() == old(o.Key()) && o.Item() == old(o.Item())
      ensures ShowsOptions(next)
    {
      forall k | k in next ensures HasKey(k) {
        assert old(HasKey(k));
        var o :| o in old(all) && old(o.Key()) == k;
        assert o.Key() == k;
      }
    }

    /** The notification that ends a renaming. */
    method TellNext(option: ConfigOption, ghost next: map<Key, Item>)
      requires Collected() && Ordered() && ShowsOptions(next) && option.Valid()
      modifies hooks, this`world
      ensures Collected() && Ordered() && Shown()
      ensures world == World(next, old(hooks.sent) + [option.ToTell()])
    {
      option.HookConfigExec(hooks);
      world := World(next, hooks.sent);
      ListsKept();
      NextKept(next);
    }

    /** The guards of a renaming are those of the world. */
    lemma CanRenameAlike(option: ConfigOption, newName: string)
      requires Shown() && option in all && option.Valid()
      ensures option.Key() in world.options && world.options[option.Key()] == option.Item()
      ensures CanRename(world, option.Key(), newName) <==> newName != "" && !HasKey(option.Key().(name := newName))
    {
    }

    /** config_file_option_rename is the step of the world, and keeps the lists as
        they have to be. */
    method Rename(option: ConfigOption, newName: string)
      requires Listed() && Collected() && Ordered() && Named() && option in all && option.Valid() && Shown()
      modifies option.section`options, option.section`lastOption, option.section`nodes, option.section`names
      modifies option.section.nodes`prev, option.section.nodes`next, option`name, all`parentName, hooks, this`world
      ensures Collected() && Ordered() && Shown()
      ensures IsRename(old(world), world, old(option.Key()), newName)
    {
      CanRenameAlike(option, newName);
      RenamedIs(world, option.Key(), newName);
      var renamed := RenameShown(option, newName);
      if renamed {
        TellNext(option, RenamedOptions(world.options, old(option.Key()), option.Key()));
      }
    }

    // ----- freeing

    twostate lemma CollectedLess(option: ConfigOption)
      requires old(Collected() && Ordered()) && option in old(all)
      requires sections == old(sections) && all == old(all) - {option}
      requires option.section.Members() == old(option.section.Members()) - {option}
      requires forall s :: s in sections && s != option.section ==> s.nodes == old(s.nodes)
      ensures Collected()
    {
      var section := option.section;
      forall s, o | s in sections && o in s.nodes ensures o in all {
        if s == section {
          assert o in section.Members();
        } else {
          assert old(s.Linked());
        }
      }
      forall o | o in all ensures o.section in sections && o in o.section.nodes {
        if o.section == section {
          assert o in old(section.Members());
          assert o in section.Members();
        }
      }
    }

    /** The list of the section without the option. */
    method FreeCollected(option: ConfigOption)
      requires Collected() && Ordered() && option in all
      modifies option.section`options, option.section`lastOption, option.section`nodes, option.section`names
      modifies option.section.nodes`prev, option.section.nodes`next, this`all
      ensures Collected() && all == old(all) - {option} && option.section.Linked() && option.section.Sorted()
    {
      option.section.FreeOption(option);
      all := all - {option};
      CollectedLess(option);
    }

    method FreeListed(option: ConfigOption)
      requires Collected() && Ordered() && option in all
      modifies option.section`options, option.section`lastOption, option.section`nodes, option.section`names
      modifies option.section.nodes`prev, option.section.nodes`next, this`all
      ensures Collected() && Ordered() && all == old(all) - {option}
    {
      FreeCollected(option);
      OrderedKept(option.section);
    }

    twostate lemma FreedShown(option: ConfigOption)
      requires old(ShowsOptions(world.options)) && option in old(all) && all == old(all) - {option}
      requires old(forall o :: o in all && o != option ==> o.Key() != option.Key())
      requires forall o :: o in all ==> o.Key() == old(o.Key()) && o.Item() == old(o.Item())
      ensures ShowsOptions(old(world).options - {old(option.Key())})
    {
      forall k | k in old(world).options && k != old(option.Key()) ensures HasKey(k) {
        assert old(HasKey(k));
        var o :| o in old(all) && old(o.Key()) == k;
        assert o.Key() == k;
      }
    }

    method FreeShown(option: ConfigOption)
      requires Collected() && Ordered() && Named() && option in all && ShowsOptions(world.options)
      modifies option.section`options, option.section`lastOption, option.section`nodes, option.section`names
      modifies option.section.nodes`prev, option.section.nodes`next, this`all
      ensures Collected() && Ordered() && all == old(all) - {option}
      ensures ShowsOptions(world.options - {option.Key()})
    {
      KeyOfOne(option);
      FreeListed(option);
      FreedShown(option);
    }

    /** A notification about an option that is no longer there. */
    method TellFreed(full: string, ghost next: map<Key, Item>)
      requires Collected() && Ordered() && ShowsOptions(next)
      modifies hooks, this`world
      ensures Collected() && Ordered() && Shown()
      ensures world == World(next, old(hooks.sent) + [Note(full, None)])
    {
      hooks.Exec(full, None);
      world := World(next, hooks.sent);
      ListsKept();
      NextKept(next);
    }

    /** The same in silence. */
    ghost method SetOptions(next: map<Key, Item>)
      requires Collected() && Ordered() && ShowsOptions(next)
      modifies this`world
      ensures Collected() && Ordered() && Shown()
      ensures world == World(next, hooks.sent)
    {
      world := World(next, hooks.sent);
      ListsKept();
      NextKept(next);
    }

    /** config_file_option_free is the step of the world. */
    method Free(option: ConfigOption, runCallback: bool)
      requires Collected() && Ordered() && Named() && option in all && Shown()
      modifies option.section`options, option.section`lastOption, option.section`nodes, option.section`names
      modifies option.section.nodes`prev, option.section.nodes`next, this`all, hooks, this`world
      ensures Collected() && Ordered() && Shown() && all == old(all) - {option}
      ensures world == Freed(old(world), option.Key(), runCallback)
    {
      var full := option.FullName();
      FreeShown(option);
      if runCallback {
        TellFreed(full, world.options - {option.Key()});
      } else {
        SetOptions(world.options - {option.Key()});
      }
    }

    /** config_file_option_unset: the option is freed if the section lets users
        delete options, otherwise it is reset. */
    method Unset(option: ConfigOption, deletable: bool)
      requires Collected() && Ordered() && Named() && option in all && option.Valid() && Shown()
      modifies option.section`options, option.section`lastOption, option.section`nodes, option.section`names
      modifies option.section.nodes`prev, option.section.nodes`next, option`value, option`default, this`all, hooks,
        this`world
      ensures Collected() && Ordered() && Shown() && all == old(all) - if deletable then {option} else {}
      ensures deletable ==> world == Freed(old(world), option.Key(), true)
      ensures !deletable ==> IsEdit(old(world), world, option.Key(), OpReset)
    {
      if deletable {
        var full := option.FullName();
        Free(option, false);
        TellFreed(full, world.options);
      } else {
        KeyOfOne(option);
        var _ := Edit(option, OpReset);
      }
    }

    // ----- creating

    twostate lemma CollectedMore(section: Section, new r: ConfigOption)
      requires old(Collected()) && section in sections && sections == old(sections)
      requires all == old(all) + {r} && r.section == section
      requires section.Members() == old(section.Members()) + {r}
      requires forall s :: s in sections && s != section ==> s.nodes == old(s.nodes)
      ensures Collected()
    {
      forall s, o | s in sections && o in s.nodes ensures o in all {
        if s == section {
          assert o in section.Members();
        }
      }
      forall o | o in all ensures o.section in sections && o in o.section.nodes {
        if o.section == section {
          assert o == r || o in old(section.Members());
          assert o in section.Members();
        }
      }
    }

    twostate lemma CreatedShown(new r: ConfigOption)
      requires old(ShowsOptions(world.options)) && r !in old(all) && all == old(all) + {r}
      requires var k := r.Key(); !old(HasKey(k))
      requires forall o :: o in old(all) ==> o.Key() == old(o.Key()) && o.Item() == old(o.Item())
      ensures ShowsOptions(old(world).options[r.Key() := r.Item()])
    {
      forall k | k in old(world).options ensures HasKey(k) {
        assert old(HasKey(k));
        var o :| o in old(all) && old(o.Key()) == k;
        assert o.Key() == k;
      }
      assert HasKey(r.Key());
    }

    /** The list of the section with the new option. */
    method CreateListed(section: Section, name: string, parentName: Option<string>, created: Option<(Spec, State)>)
      returns (r: ConfigOption?)
      requires Collected() && Ordered() && section in sections
      requires created.Some? ==> Sound(created.value.0, created.value.1)
      modifies section`options, section`lastOption, section`nodes, section`names, section.nodes`prev, section.nodes`next
      modifies this`all
      ensures Collected() && Ordered()
      ensures r == null <==> name in old(section.Table()) || created.None?
      ensures r == null ==> all == old(all)
      ensures r != null ==>
        && fresh(r) && all == old(all) + {r} && r.section == section && r.Valid()
        && r.name == name && r.parentName == parentName && (r.spec, r.State()) == created.value
    {
      r := section.NewNamed(name, parentName, created);
      if r == null {
        CollectedKept(section);
      } else {
        all := all + {r};
        CollectedMore(section, r);
      }
      OrderedKept(section);
    }

    /** The same for the keys of the store, and the world that is shown then. */
    method CreateShown(section: Section, name: string, parentName: Option<string>, created: Option<(Spec, State)>)
      returns (r: ConfigOption?)
      requires Collected() && Ordered() && Named() && section in sections && ShowsOptions(world.options)
      requires created.Some? ==> Sound(created.value.0, created.value.1)
      modifies section`options, section`lastOption, section`nodes, section`names, section.nodes`prev, section.nodes`next
      modifies this`all
      ensures Collected() && Ordered()
      ensures r == null <==> Key(section.fileName, section.name, name) in world.options || created.None?
      ensures r == null ==> all == old(all) && ShowsOptions(world.options)
      ensures r != null ==>
        && fresh(r) && all == old(all) + {r} && r.Valid() && r.Key() == Key(section.fileName, section.name, name)
        && r.Item() == Item(created.value.0, created.value.1, parentName)
        && ShowsOptions(world.options[r.Key() := r.Item()])
    {
      TableKnows(section, name);
      r := CreateListed(section, name, parentName, created);
      if r != null {
        CreatedShown(r);
      } else {
        SameShown();
      }
    }

    method CreateValues(spec: Spec, default: Option<string>, value: Option<string>)
      returns (created: Option<(Spec, State)>)
      requires spec.kind.Integer? ==> INT_MIN <= spec.min && spec.max <= INT_MAX
      ensures created == OptionValue.Create(spec, default, value)
      ensures created.Some? ==> Sound(created.value.0, created.value.1)
    {
      created := OptionValue.Create(spec, default, value);
      if created.Some? {
        CreatedIsSound(spec, default, value);
      }
    }

    /** config_file_new_option is the step of the world; text may name a parent
        behind " << ". */
    method Create(section: Section, text: string, spec: Spec, default: Option<string>, value: Option<string>)
      returns (r: ConfigOption?)
      requires Collected() && Ordered() && Named() && section in sections && Shown()
      requires spec.kind.Integer? ==> INT_MIN <= spec.min && spec.max <= INT_MAX
      modifies section`options, section`lastOption, section`nodes, section`names, section.nodes`prev, section.nodes`next
      modifies this`all, hooks, this`world
      ensures Collected() && Ordered() && Shown()
      ensures all == old(all) + if r == null then {} else {r}
      ensures r != null ==> fresh(r) && r.Valid()
      ensures world == Created(old(world), section.fileName, section.name, text, spec, default, value)
    {
      var (optionName, parentName) := NameAndParent(text);
      var created := CreateValues(spec, default, value);
      CreatedIs(world, section.fileName, section.name, text, spec, default, value);
      r := CreateShown(section, optionName, parentName, created);
      if r != null {
        TellNext(r, world.options[r.Key() := r.Item()]);
      }
    }

    // ----- the operations in a valid store

    /** Options are sound if the world that is shown is. */
    lemma SoundAsShown()
      requires ShowsOptions(world.options) && ConfigWorld.Valid(world)
      ensures AllSound()
    {
      forall o | o in all ensures o.Valid() {
        assert world.options[o.Key()] == o.Item();
      }
    }

    method EditValid(option: ConfigOption, op: Op) returns (rc: Rc)
      requires Valid() && Shown() && option in all && Callable(op)
      modifies option`value, option`default, hooks, this`world
      ensures Shaped() && Shown() && SameLists()
      ensures IsEdit(old(world), world, option.Key(), op)
    {
      KeyOfOne(option);
      rc := Edit(option, op);
      ListsKept();
      ListedKept();
    }

    method RenameValid(option: ConfigOption, newName: string)
      requires Valid() && Shown() && option in all
      modifies option.section`options, option.section`lastOption, option.section`nodes, option.section`names
      modifies option.section.nodes`prev, option.section.nodes`next, option`name, all`parentName, hooks, this`world
      ensures Shaped() && Shown()
      ensures IsRename(old(world), world, old(option.Key()), newName)
    {
      Rename(option, newName);
      ListedKept();
    }

    method FreeValid(option: ConfigOption, runCallback: bool)
      requires Valid() && Shown() && option in all
      modifies option.section`options, option.section`lastOption, option.section`nodes, option.section`names
      modifies option.section.nodes`prev, option.section.nodes`next, this`all, hooks, this`world
      ensures Shaped() && Shown() && all <= old(all)
      ensures world == Freed(old(world), option.Key(), runCallback)
    {
      Free(option, runCallback);
      ListedKept();
    }

    method UnsetValid(option: ConfigOption, deletable: bool)
      requires Valid() && Shown() && option in all
      modifies option.section`options, option.section`lastOption, option.section`nodes, option.section`names
      modifies option.section.nodes`prev, option.section.nodes`next, option`value, option`default, this`all, hooks,
        this`world
      ensures Shaped() && Shown() && all <= old(all)
      ensures deletable ==> world == Freed(old(world), option.Key(), true)
      ensures !deletable ==> IsEdit(old(world), world, option.Key(), OpReset)
    {
      Unset(option, deletable);
      ListedKept();
    }

    method CreateValid(section: Section, text: string, spec: Spec, default: Option<string>, value: Option<string>)
      returns (r: ConfigOption?)
      requires Valid() && Shown() && section in sections
      requires spec.kind.Integer? ==> INT_MIN <= spec.min && spec.max <= INT_MAX
      modifies section`options, section`lastOption, section`nodes, section`names, section.nodes`prev, section.nodes`next
      modifies this`all, hooks, this`world
      ensures Shaped() && Shown() && fresh(all - old(all))
      ensures world == Created(old(world), section.fileName, section.name, text, spec, default, value)
    {
      r := Create(section, text, spec, default, value);
      ListedKept();
    }
  }
}
