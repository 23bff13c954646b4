/** The configuration store on the heap: files, sections, and in each section a
    doubly linked list of options sorted by name. */
module ConfigStore {
  import opened Wrappers
  import opened OptionValue
  import opened OptionLaws
  import opened Names
  import opened ConfigWorld
  import OptionSetter

  /** The listeners: what hook_config_exec has told them. */
  class Hooks {
    var sent: seq<Note>

    constructor ()
      ensures sent == []
    {
      sent := [];
    }

    method Exec(name: string, text: Option<string>)
      modifies this
      ensures sent == old(sent) + [Note(name, text)]
    {
      sent := sent + [Note(name, text)];
    }
  }

  class ConfigOption {
    const section: Section
    const spec: Spec
    var name: string
    var parentName: Option<string>
    var value: Option<Value>
    var default: Option<Value>
    var loaded: bool
    var prev: ConfigOption?
    var next: ConfigOption?

    constructor (section: Section, spec: Spec, state: State, name: string, parentName: Option<string>)
      ensures this.section == section && this.spec == spec && this.name == name && this.parentName == parentName
      ensures State() == state && loaded && prev == null && next == null
    {
      this.section, this.spec, this.name, this.parentName := section, spec, name, parentName;
      value, default, loaded := state.value, state.default, true;
      prev, next := null, null;
    }

    ghost function State(): State
      reads this`value, this`default
    {
      OptionValue.State(value, default)
    }

    ghost predicate Valid()
      reads this`value, this`default
    {
      Sound(spec, State())
    }

    ghost function Key(): Key
      reads this`name
    {
      Names.Key(section.fileName, section.name, name)
    }

    /** What a world knows about this option. */
    ghost function Item(): Item
      reads this`value, this`default, this`parentName
    {
      ConfigWorld.Item(spec, State(), parentName)
    }

    method FullName() returns (full: string)
      ensures full == Names.FullName(Key())
    {
      full := section.fileName + "." + section.name + "." + name;
    }

    /** What listeners are told about this option. */
    ghost function ToTell(): Note
      requires Valid()
      reads this`name, this`value, this`default
    {
      Note(Names.FullName(Key()), Shown(spec, value))
    }

    method HookConfigExec(hooks: Hooks)
      requires Valid()
      modifies hooks
      ensures hooks.sent == old(hooks.sent) + [ToTell()]
    {
      var full := FullName();
      if value.Some? {
        match spec.kind {
          case Boolean => hooks.Exec(full, Some(if value.value.n == 1 then "on" else "off"));
          case Integer => hooks.Exec(full, Some(IntText(value.value.n)));
          case String => hooks.Exec(full, Some(value.value.s));
          case Color => hooks.Exec(full, Some(spec.colors.name(value.value.n)));
          case Enum => hooks.Exec(full, Some(spec.strings[value.value.n]));
        }
      } else {
        hooks.Exec(full, None);
      }
    }

    /** The end of every operation: listeners are told about a change. */
    method RunHooks(rc: Rc, hooks: Hooks)
      requires Valid()
      modifies hooks
      ensures hooks.sent == old(hooks.sent) + if rc == Changed then [ToTell()] else []
    {
      if rc == Changed {
        HookConfigExec(hooks);
      }
    }

    method Set(text: Option<string>, hooks: Hooks) returns (rc: Rc)
      requires Valid()
      modifies this`value, hooks
      ensures Valid() && (State(), rc) == OptionValue.Set(spec, old(State()), text)
      ensures hooks.sent == old(hooks.sent) + if rc == Changed then [ToTell()] else []
    {
      DoKeepsSound(spec, State(), OpSet(text));
      if !spec.check(text) {
        return Error;
      }
      if text.Some? {
        value, rc := OptionSetter.Assign(spec, value, text.value);
      } else {
        value, rc := OptionSetter.AssignNull(spec, value);
      }
      RunHooks(rc, hooks);
    }

    method SetNull(hooks: Hooks) returns (rc: Rc)
      requires Valid()
      modifies this`value, hooks
      ensures Valid() && (State(), rc) == OptionValue.SetNull(spec, old(State()))
      ensures hooks.sent == old(hooks.sent) + if rc == Changed then [ToTell()] else []
    {
      rc := Error;
      if spec.nullAllowed {
        if value.None? {
          rc := Same;
        } else {
          value, rc := None, Changed;
        }
      }
      RunHooks(rc, hooks);
    }

    method SetDefault(text: Option<string>, hooks: Hooks) returns (rc: Rc)
      requires Valid()
      modifies this`default, hooks
      ensures Valid() && (State(), rc) == OptionValue.SetDefault(spec, old(State()), text)
      ensures hooks.sent == old(hooks.sent) + if rc == Changed then [ToTell()] else []
    {
      DoKeepsSound(spec, State(), OpSetDefault(text));
      if text.Some? {
        default, rc := OptionSetter.Assign(spec, default, text.value);
      } else {
        default, rc := OptionSetter.AssignNull(spec, default);
      }
      RunHooks(rc, hooks);
    }

    method Reset(hooks: Hooks) returns (rc: Rc)
      requires Valid()
      modifies this`value, hooks
      ensures Valid() && (State(), rc) == OptionValue.Reset(spec, old(State()))
      ensures hooks.sent == old(hooks.sent) + if rc == Changed then [ToTell()] else []
    {
      value, rc := OptionSetter.ResetValue(spec, OptionValue.State(value, default));
      RunHooks(rc, hooks);
    }

    method Toggle(values: Option<seq<Option<string>>>, hooks: Hooks) returns (rc: Rc)
      requires Valid() && Callable(OpToggle(values))
      modifies this`value, hooks
      ensures Valid() && (State(), rc) == OptionValue.Toggle(spec, old(State()), values)
      ensures hooks.sent == old(hooks.sent) + if rc == Changed then [ToTell()] else []
    {
      var choice := OptionSetter.ChooseValue(spec, OptionValue.State(value, default), values);
      match choice {
        case Assign(text) => rc := Set(text, hooks);
        case ResetValue => rc := Reset(hooks);
        case Refuse => rc := Error;
      }
    }

    /** Any of these operations. */
    method Perform(op: Op, hooks: Hooks) returns (rc: Rc)
      requires Valid() && Callable(op)
      modifies this`value, this`default, hooks
      ensures Valid() && (State(), rc) == Do(spec, old(State()), op)
      ensures hooks.sent == old(hooks.sent) + if rc == Changed then [ToTell()] else []
    {
      match op {
        case OpSet(text) => rc := Set(text, hooks);
        case OpSetNull => rc := SetNull(hooks);
        case OpSetDefault(text) => rc := SetDefault(text, hooks);
        case OpReset => rc := Reset(hooks);
        case OpToggle(values) => rc := Toggle(values, hooks);
      }
    }
  }

  /** Names an index whose links are of interest. */
  predicate Index(i: int) {
    true
  }

  class Section {
    const fileName: string
    const name: string
    var options: ConfigOption?
    var lastOption: ConfigOption?
    /** The options, in the order of the list. */
    ghost var nodes: seq<ConfigOption>
    /** Their names. */
    ghost var names: seq<string>

    constructor (fileName: string, name: string)
      ensures this.fileName == fileName && this.name == name
      ensures nodes == [] && names == [] && Linked() && Sorted()
    {
      this.fileName, this.name := fileName, name;
      options, lastOption, nodes, names := null, null, [], [];
    }

    /** No option twice, and the list belongs to this section. */
    ghost predicate Owned()
      reads this`nodes
    {
      && (forall i, j :: 0 <= i < j < |nodes| ==> nodes[i] != nodes[j])
      && (forall o :: o in nodes ==> o.section == this)
    }

    /** A well-formed doubly linked list: each link the inverse of the other, head
        and tail the first and the last. */
    ghost predicate Linked()
      reads this`options, this`lastOption, this`nodes, nodes`prev, nodes`next
    {
      && Owned()
      && options == (if nodes == [] then null else nodes[0])
      && lastOption == (if nodes == [] then null else nodes[|nodes| - 1])
      && forall i {:trigger Index(i)} :: Index(i) && 0 <= i < |nodes| ==>
           && nodes[i].prev == (if i == 0 then null else nodes[i - 1])
           && nodes[i].next == (if i == |nodes| - 1 then null else nodes[i + 1])
    }

    /** Sorted by name, and no name twice. */
    ghost predicate Sorted()
      reads this`nodes, this`names, nodes`name
    {
      AreNames(names, nodes) && SortedNames(names) && Unique(names)
    }

    ghost function Members(): set<ConfigOption>
      reads this`nodes
    {
      Elements(nodes)
    }

    /** A list that nobody touches stays as it is. */
    twostate lemma Untouched()
      requires old(Linked() && Sorted())
      requires options == old(options) && lastOption == old(lastOption) && nodes == old(nodes) && names == old(names)
      requires forall o :: o in nodes ==> o.prev == old(o.prev) && o.next == old(o.next) && o.name == old(o.name)
      ensures Linked() && Sorted()
    {
    }

    /** The finite map from names to options that the list stands for. */
    ghost function Table(): map<string, ConfigOption>
      requires |names| == |nodes| && Unique(names)
      reads this`nodes, this`names
    {
      Names.Table(names, nodes)
    }

    /** config_file_option_find_pos; k is the place before which to insert. */
    method FindPos(name: string) returns (pos: ConfigOption?, ghost k: nat)
      requires Linked()
      ensures k <= |nodes| && pos == if k < |nodes| then nodes[k] else null
      ensures k > 0 ==> StrCmp(name, nodes[k - 1].name) >= 0
      ensures k < |nodes| ==> StrCmp(name, nodes[k].name) < 0
    {
      var ptr := lastOption;
      k := |nodes|;
      while ptr != null
        invariant k <= |nodes| && ptr == if k > 0 then nodes[k - 1] else null
        invariant k < |nodes| ==> StrCmp(name, nodes[k].name) < 0
        decreases k
      {
        assert Index(k - 1);
        if StrCmp(name, ptr.name) >= 0 {
          return ptr.next, k;
        }
        ptr := ptr.prev;
        k := k - 1;
      }
      pos := options;
    }

    /** The loop of config_file_search_option: from the end, no further than the
        place where the name would be. */
    method SearchFromEnd(name: string, ghost names: seq<string>) returns (r: ConfigOption?, ghost k: nat)
      requires Linked() && AreNames(names, nodes) && SortedNames(names)
      ensures r != null ==> k < |nodes| && nodes[k] == r && r.name == name
      ensures r == null ==> name !in names
    {
      var ptr := lastOption;
      k := |nodes|;
      while ptr != null
        invariant k <= |nodes| && ptr == if k > 0 then nodes[k - 1] else null
        invariant forall i :: k <= i < |names| ==> names[i] != name
        decreases k
      {
        assert Index(k - 1);
        var rc := StrCmp(ptr.name, name);
        CmpEqual(ptr.name, name);
        if rc == 0 {
          return ptr, k - 1;
        } else if rc < 0 {
          NoneBefore(names, k - 1, name);
          return null, 0;
        }
        ptr := ptr.prev;
        k := k - 1;
      }
      r := null;
    }

    /** config_file_search_option: a look-up in the finite map. */
    method SearchOption(name: string) returns (r: ConfigOption?)
      requires Linked() && Sorted()
      ensures r == if name in Table() then Table()[name] else null
      ensures r != null ==> r in nodes && r.name == name
    {
      ghost var k;
      r, k := SearchFromEnd(name, names);
      if r != null {
        TableFound(names, nodes, k);
      }
      TableMissing(names, nodes, name);
    }

    /** config_file_option_insert_in_section: somewhere before another option. */
    method LinkBefore(option: ConfigOption, pos: ConfigOption, ghost k: nat)
      requires Linked() && k < |nodes| && pos == nodes[k]
      requires option !in nodes && option.section == this
      modifies this`options, this`nodes, nodes`prev, nodes`next, option`prev, option`next
      ensures Linked() && nodes == old(nodes)[..k] + [option] + old(nodes)[k..]
    {
      ghost var s := nodes;
      assert Index(k) && Index(k - 1);
      option.prev := pos.prev;
      option.next := pos;
      if pos.prev != null {
        pos.prev.next := option;
      } else {
        options := option;
      }
      pos.prev := option;
      nodes := s[..k] + [option] + s[k..];
      forall i | 0 <= i < |nodes|
        ensures nodes[i].prev == (if i == 0 then null else nodes[i - 1])
        ensures nodes[i].next == (if i == |nodes| - 1 then null else nodes[i + 1])
      {
        assert Index(i) && Index(i - 1);
        if i < k {
          assert nodes[i] == s[i] && s[i] != pos && s[i] != option;
        } else if i > k {
          assert nodes[i] == s[i - 1] && s[i - 1] != option;
        }
      }
    }

    /** The end of the list. */
    method LinkLast(option: ConfigOption)
      requires Linked() && nodes != []
      requires option !in nodes && option.section == this
      modifies this`lastOption, this`nodes, nodes`prev, nodes`next, option`prev, option`next
      ensures Linked() && nodes == old(nodes) + [option]
    {
      assert Index(|nodes| - 1);
      option.prev := lastOption;
      option.next := null;
      lastOption.next := option;
      lastOption := option;
      nodes := nodes + [option];
    }

    method LinkFirst(option: ConfigOption)
      requires nodes == [] && option.section == this
      modifies this`options, this`lastOption, this`nodes, option`prev, option`next
      ensures Linked() && nodes == [option]
    {
      option.prev := null;
      option.next := null;
      options := option;
      lastOption := option;
      nodes := [option];
    }

    /** The option put before the first greater one. */
    method Link(option: ConfigOption) returns (ghost k: nat)
      requires Linked() && option !in nodes && option.section == this
      modifies this`options, this`lastOption, this`nodes, nodes`prev, nodes`next, option`prev, option`next
      ensures Linked() && k <= |old(nodes)| && nodes == old(nodes)[..k] + [option] + old(nodes)[k..]
      ensures k > 0 ==> StrCmp(option.name, old(nodes)[k - 1].name) >= 0
      ensures k < |old(nodes)| ==> StrCmp(option.name, old(nodes)[k].name) < 0
    {
      k := 0;
      if options != null {
        var pos;
        pos, k := FindPos(option.name);
        if pos != null {
          LinkBefore(option, pos, k);
        } else {
          LinkLast(option);
        }
      } else {
        LinkFirst(option);
      }
    }

    method InsertOption(option: ConfigOption) returns (ghost k: nat)
      requires Linked() && Sorted() && option !in nodes && option.section == this
      requires option.name !in Table()
      modifies this`options, this`lastOption, this`nodes, this`names, nodes`prev, nodes`next, option`prev, option`next
      ensures Linked() && Sorted()
      ensures k <= |old(nodes)| && nodes == old(nodes)[..k] + [option] + old(nodes)[k..]
      ensures Table() == old(Table())[option.name := option]
    {
      k := Link(option);
      PlaceName(old(nodes), k, option);
    }

    /** The name in its place. */
    ghost method PlaceName(s: seq<ConfigOption>, k: nat, option: ConfigOption)
      requires k <= |s| && nodes == s[..k] + [option] + s[k..]
      requires AreNames(names, s) && SortedNames(names) && Unique(names) && option.name !in Names.Table(names, s)
      requires k > 0 ==> StrCmp(option.name, s[k - 1].name) >= 0
      requires k < |s| ==> StrCmp(option.name, s[k].name) < 0
      modifies this`names
      ensures Sorted() && Table() == Names.Table(old(names), s)[option.name := option]
    {
      TableMissing(names, s, option.name);
      NewNeighbours(names, k, option.name);
      NameInserted(names, k, option.name);
      TablePlaced(names, s, k, option.name, option);
      NamesPlaced(s, k, option, names);
      names := names[..k] + [option.name] + names[k..];
    }

    /** Where an option is. */
    ghost function PlaceOf(option: ConfigOption): (k: nat)
      requires option in nodes
      reads this`nodes
      ensures k < |nodes| && nodes[k] == option
    {
      var k :| 0 <= k < |nodes| && nodes[k] == option;
      k
    }

    /** The links and the list without one option. */
    ghost predicate LinkedWithout(s: seq<ConfigOption>, k: nat)
      reads this`options, this`lastOption, s`prev, s`next
    {
      && k < |s|
      && options == (if k > 0 then s[0] else if |s| > 1 then s[1] else null)
      && lastOption == (if k < |s| - 1 then s[|s| - 1] else if |s| > 1 then s[|s| - 2] else null)
      && forall i {:trigger Index(i)} :: Index(i) && 0 <= i < |s| && i != k ==>
           && s[i].prev == (if i == 0 || (i == 1 && k == 0) then null else if i == k + 1 then s[i - 2] else s[i - 1])
           && s[i].next == (if i == |s| - 1 || (i == |s| - 2 && k == |s| - 1) then null
                            else if i + 1 == k then s[i + 2] else s[i + 1])
    }

    /** The ghost part of taking an option out. */
    ghost method Forget(k: nat)
      requires Owned() && LinkedWithout(nodes, k)
      modifies this`nodes
      ensures Linked() && nodes == old(nodes)[..k] + old(nodes)[k + 1..] && old(nodes)[k] !in nodes
    {
      ghost var s := nodes;
      nodes := s[..k] + s[k + 1..];
      forall i | 0 <= i < |nodes| ensures nodes[i] == s[if i < k then i else i + 1] {
        TakenAt(s, k, i);
      }
      forall i {:trigger Index(i)} | Index(i) && 0 <= i < |nodes|
        ensures nodes[i].prev == (if i == 0 then null else nodes[i - 1])
             && nodes[i].next == (if i == |nodes| - 1 then null else nodes[i + 1])
      {
        assert Index(if i < k then i else i + 1);
      }
    }

    /** Taking an option out of the list: as config_file_option_rename does it. */
    method Unlink(option: ConfigOption, ghost k: nat)
      requires Linked() && k < |nodes| && nodes[k] == option
      modifies this`options, this`lastOption, this`nodes, nodes`prev, nodes`next
      ensures Linked() && nodes == old(nodes)[..k] + old(nodes)[k + 1..] && option !in nodes
    {
      assert Index(k) && Index(k - 1) && Index(k + 1);
      if option.prev != null {
        option.prev.next := option.next;
      }
      if option.next != null {
        option.next.prev := option.prev;
      }
      if options == option {
        options := option.next;
      }
      if lastOption == option {
        lastOption := option.prev;
      }
      Forget(k);
    }

    /** The same, as config_file_option_free does it. */
    method UnlinkFreed(option: ConfigOption, ghost k: nat)
      requires Linked() && k < |nodes| && nodes[k] == option
      modifies this`options, this`lastOption, this`nodes, nodes`prev, nodes`next
      ensures Linked() && nodes == old(nodes)[..k] + old(nodes)[k + 1..] && option !in nodes
    {
      assert Index(k) && Index(k - 1) && Index(k + 1);
      var newOptions;
      if lastOption == option {
        lastOption := option.prev;
      }
      if option.prev != null {
        option.prev.next := option.next;
        newOptions := options;
      } else {
        newOptions := option.next;
      }
      if option.next != null {
        option.next.prev := option.prev;
      }
      options := newOptions;
      Forget(k);
    }

    /** The name taken out. */
    ghost method TakeName(s: seq<ConfigOption>, k: nat)
      requires k < |s| && nodes == s[..k] + s[k + 1..]
      requires AreNames(names, s) && SortedNames(names) && Unique(names)
      modifies this`names
      ensures Sorted() && Table() == Names.Table(old(names), s) - {s[k].name}
    {
      NameRemoved(names, k);
      TableTaken(names, s, k);
      NamesTaken(s, k, names);
      names := names[..k] + names[k + 1..];
    }

    /** The two halves of a renaming: out of the list and in again. */
    method TakeOption(option: ConfigOption)
      requires Linked() && Sorted() && option in nodes
      modifies this`options, this`lastOption, this`nodes, this`names, nodes`prev, nodes`next
      ensures Linked() && Sorted()
      ensures Table() == old(Table()) - {option.name}
      ensures Members() == old(Members()) - {option}
    {
      ghost var k := PlaceOf(option);
      ElementsTaken(nodes, k);
      Unlink(option, k);
      TakeName(old(nodes), k);
    }

    method PutOption(option: ConfigOption, ghost linked: set<ConfigOption>)
      requires Linked() && Sorted() && option !in nodes && option.section == this
      requires option.name !in Table() && option in linked && Members() <= linked
      modifies this`options, this`lastOption, this`nodes, this`names, linked`prev, linked`next
      ensures Linked() && Sorted()
      ensures Table() == old(Table())[option.name := option]
      ensures Members() == old(Members()) + {option}
    {
      ghost var k := InsertOption(option);
      ElementsPlaced(old(nodes), k, option);
    }

    method SetName(option: ConfigOption, newName: string)
      requires Linked() && Sorted() && option !in nodes
      modifies option`name
      ensures Linked() && Sorted() && Table() == old(Table()) && option.name == newName
    {
      option.name := newName;
    }

    /** The list after the guards of a renaming. */
    method Relist(option: ConfigOption, newName: string)
      requires Linked() && Sorted() && option in nodes && newName !in Table()
      modifies this`options, this`lastOption, this`nodes, this`names, nodes`prev, nodes`next, option`name
      ensures Linked() && Sorted()
      ensures Members() == old(Members())
      ensures option.name == newName
      ensures Table() == (old(Table()) - {old(option.name)})[newName := option]
    {
      ghost var linked := Members();
      TakeOption(option);
      SetName(option, newName);
      PutOption(option, linked);
    }

    /** config_file_option_rename, as far as this list goes. */
    method RenameOption(option: ConfigOption, newName: string) returns (renamed: bool)
      requires Linked() && Sorted() && option in nodes
      modifies this`options, this`lastOption, this`nodes, this`names, nodes`prev, nodes`next, option`name
      ensures Linked() && Sorted()
      ensures Members() == old(Members())
      ensures renamed <==> newName != "" && newName !in old(Table())
      ensures option.name == if renamed then newName else old(option.name)
      ensures Table() == if renamed then (old(Table()) - {old(option.name)})[newName := option] else old(Table())
    {
      if newName == "" {
        return false;
      }
      var found := SearchOption(newName);
      if found != null {
        return false;
      }
      Relist(option, newName);
      renamed := true;
    }

    /** config_file_option_free, without the notification. */
    method FreeOption(option: ConfigOption)
      requires Linked() && Sorted() && option in nodes
      modifies this`options, this`lastOption, this`nodes, this`names, nodes`prev, nodes`next
      ensures Linked() && Sorted()
      ensures Table() == old(Table()) - {option.name}
      ensures Members() == old(Members()) - {option}
    {
      ghost var k := PlaceOf(option);
      ElementsTaken(nodes, k);
      UnlinkFreed(option, k);
      TakeName(old(nodes), k);
    }

    method AddOption(spec: Spec, state: State, name: string, parentName: Option<string>) returns (r: ConfigOption)
      requires Linked() && Sorted() && name !in Table() && Sound(spec, state)
      modifies this`options, this`lastOption, this`nodes, this`names, nodes`prev, nodes`next
      ensures Linked() && Sorted()
      ensures fresh(r) && r.section == this && r.spec == spec && r.State() == state
      ensures r.name == name && r.parentName == parentName
      ensures Table() == old(Table())[name := r]
      ensures Members() == old(Members()) + {r}
    {
      ghost var linked := Members();
      r := new ConfigOption(this, spec, state, name, parentName);
      PutOption(r, linked + {r});
    }

    /** The option with its name, its parent and the values that were made of the
        texts; nothing if the name is taken or there are no values. */
    method NewNamed(name: string, parentName: Option<string>, created: Option<(Spec, State)>) returns (r: ConfigOption?)
      requires Linked() && Sorted() && (created.Some? ==> Sound(created.value.0, created.value.1))
      modifies this`options, this`lastOption, this`nodes, this`names, nodes`prev, nodes`next
      ensures Linked() && Sorted()
      ensures r == null <==> name in old(Table()) || created.None?
      ensures r == null ==> nodes == old(nodes) && names == old(names)
      ensures r != null ==>
        && fresh(r) && r.section == this && r.name == name && r.parentName == parentName
        && (r.spec, r.State()) == created.value && r.Valid()
        && Table() == old(Table())[name := r] && Members() == old(Members()) + {r}
    {
      var found := SearchOption(name);
      if found != null || created.None? {
        return null;
      }
      r := AddOption(created.value.0, created.value.1, name, parentName);
    }

    /** The loop of config_file_option_rename over the options of one section. */
    method ReplaceParent(was: string, now: string)
      requires Linked()
      modifies nodes`parentName
      ensures forall o :: o in nodes ==> o.parentName == Reparented(old(o.parentName), was, now)
    {
      var ptr := options;
      ghost var k := 0;
      while ptr != null
        invariant 0 <= k <= |nodes| && ptr == if k < |nodes| then nodes[k] else null
        invariant forall i :: 0 <= i < k ==> nodes[i].parentName == Reparented(old(nodes[i].parentName), was, now)
        invariant forall i :: k <= i < |nodes| ==> nodes[i].parentName == old(nodes[i].parentName)
        decreases |nodes| - k
      {
        assert Index(k);
        if ptr.parentName == Some(was) {
          ptr.parentName := Some(now);
        }
        ptr := ptr.next;
        k := k + 1;
      }
    }
  }

  ghost function Elements(s: seq<ConfigOption>): set<ConfigOption> {
    set o | o in s
  }

  lemma ElementsTaken(s: seq<ConfigOption>, k: nat)
    requires k < |s| && forall i, j :: 0 <= i < j < |s| ==> s[i] != s[j]
    ensures Elements(s[..k] + s[k + 1..]) == Elements(s) - {s[k]}
  {
    assert s == s[..k] + [s[k]] + s[k + 1..];
  }

  lemma ElementsPlaced(s: seq<ConfigOption>, k: nat, option: ConfigOption)
    requires k <= |s|
    ensures Elements(s[..k] + [option] + s[k..]) == Elements(s) + {option}
  {
    assert s == s[..k] + s[k..];
  }

  ghost predicate AreNames(names: seq<string>, s: seq<ConfigOption>)
    reads s`name
  {
    |names| == |s| && forall i :: 0 <= i < |s| ==> names[i] == s[i].name
  }

  lemma NamesPlaced(s: seq<ConfigOption>, k: nat, option: ConfigOption, names: seq<string>)
    requires k <= |s| && AreNames(names, s)
    ensures AreNames(names[..k] + [option.name] + names[k..], s[..k] + [option] + s[k..])
  {
    forall i | 0 <= i <= |s|
      ensures (names[..k] + [option.name] + names[k..])[i] == (s[..k] + [option] + s[k..])[i].name
    {
      PlacedAt(s, k, option, i);
      PlacedAt(names, k, option.name, i);
    }
  }

  lemma NamesTaken(s: seq<ConfigOption>, k: nat, names: seq<string>)
    requires k < |s| && AreNames(names, s)
    ensures AreNames(names[..k] + names[k + 1..], s[..k] + s[k + 1..])
  {
    var t, u := names[..k] + names[k + 1..], s[..k] + s[k + 1..];
    forall i | 0 <= i < |u| ensures t[i] == u[i].name {
      TakenAt(s, k, i);
      TakenAt(names, k, i);
    }
  }

  /** At least as great, and new: greater. */
  lemma NewNeighbours(names: seq<string>, k: nat, name: string)
    requires k <= |names| && name !in names
    requires k > 0 ==> StrCmp(name, names[k - 1]) >= 0
    ensures k > 0 ==> StrCmp(names[k - 1], name) < 0
  {
    if k > 0 {
      CmpEqual(name, names[k - 1]);
      CmpOpposite(names[k - 1], name);
    }
  }
}
