/** Searching files, sections and options by name, inherited values, and the
    files in the order of their priority. */
module ConfigSearch {
  import opened Wrappers
  import opened OptionValue
  import opened Names
  import opened Ordering
  import opened ListSpec
  import opened ConfigWorld
  import opened ConfigStore
  import opened ConfigRegistry
  import Arraylist

  // ----- files

  function FileNames(files: seq<ConfigFile>): (r: seq<string>)
    ensures |r| == |files| && forall i :: 0 <= i < |files| ==> r[i] == files[i].name
  {
    seq(|files|, i requires 0 <= i < |files| => files[i].name)
  }

  /** config_file_search: from the end, no further than the place of the name. */
  method SearchFile(files: seq<ConfigFile>, name: string) returns (r: ConfigFile?)
    requires SortedNames(FileNames(files))
    ensures r != null ==> r in files && r.name == name
    ensures r == null ==> name !in FileNames(files)
  {
    var names := FileNames(files);
    var k := |files|;
    while k > 0
      invariant 0 <= k <= |files|
      invariant forall i :: k <= i < |files| ==> names[i] != name
    {
      var rc := StrCmp(files[k - 1].name, name);
      CmpEqual(files[k - 1].name, name);
      if rc == 0 {
        return files[k - 1];
      } else if rc < 0 {
        NoneBefore(names, k - 1, name);
        return null;
      }
      k := k - 1;
    }
    r := null;
  }

  /** config_file_find_pos: the place of the first file with a greater name. */
  method FindFilePos(files: seq<ConfigFile>, name: string) returns (k: nat)
    ensures k <= |files| && forall i :: 0 <= i < k ==> StrCmp(name, files[i].name) >= 0
    ensures k < |files| ==> StrCmp(name, files[k].name) < 0
  {
    k := 0;
    while k < |files| && StrCmp(name, files[k].name) >= 0
      invariant k <= |files| && forall i :: 0 <= i < k ==> StrCmp(name, files[i].name) >= 0
    {
      k := k + 1;
    }
  }

  const PRIORITY_DEFAULT := 1000

  /** A priority and a name, as in "500|name"; a prefix that is no number is
      dropped all the same. */
  function PriorityAndName(text: string): (int, string) {
    match Find(text, "|")
    case None => (PRIORITY_DEFAULT, text)
    case Some(i) =>
      match ParseInt(text[..i])
      case Some(n) => (n, text[i + 1..])
      case None => (PRIORITY_DEFAULT, text[i + 1..])
  }

  lemma {:induction false} FindBarAt(a: string, rest: string)
    requires '|' !in a
    ensures Find(a + "|" + rest, "|") == Some(|a|)
  {
    var s := a + "|" + rest;
    if a == "" {
      assert s[..1] == "|";
    } else {
      assert s[..1] == [a[0]] && a[0] in a;
      assert s[1..] == a[1..] + "|" + rest;
      FindBarAt(a[1..], rest);
    }
  }

  lemma {:induction false} FindNoBar(s: string)
    requires '|' !in s
    ensures Find(s, "|") == None
  {
    if s != "" {
      assert s[..1] == [s[0]] && s[0] in s;
      FindNoBar(s[1..]);
    }
  }

  /** A priority of any int in front of any name is read back, and a name alone
      gets the default priority. */
  lemma PriorityIsRead(priority: int, name: string)
    requires INT_MIN <= priority <= INT_MAX
    ensures PriorityAndName(IntText(priority) + "|" + name) == (priority, name)
    ensures '|' !in name ==> PriorityAndName(name) == (1000, name)
  {
    var t := IntText(priority);
    IntTextParsed(priority);
    FindBarAt(t, name);
    var s := t + "|" + name;
    assert s[..|t|] == t && s[|t| + 1..] == name;
    if '|' !in name {
      FindNoBar(name);
    }
  }

  /** Another text in front of the bar is dropped. */
  lemma NoPriority(prefix: string, name: string)
    requires '|' !in prefix && ParseInt(prefix).None?
    ensures PriorityAndName(prefix + "|" + name) == (1000, name)
  {
    FindBarAt(prefix, name);
    var s := prefix + "|" + name;
    assert s[..|prefix|] == prefix && s[|prefix| + 1..] == name;
  }

  /** config_file_new, and config_file_config_insert, which keeps the files
      sorted: nothing if the name is empty or taken. */
  method NewFile(st: Store, text: string) returns (r: ConfigFile?)
    requires Searchable(st) && st.Shaped()
    modifies st`files
    ensures Searchable(st) && st.Shaped()
    ensures var (priority, name) := PriorityAndName(text);
      && (r == null <==> name == "" || name in FileNames(old(st.files)))
      && (r != null ==> fresh(r) && r.name == name && r.priority == priority && r.sections == [])
    ensures r == null ==> st.files == old(st.files)
    ensures r != null ==>
      exists k: nat :: k <= |old(st.files)| && st.files == old(st.files)[..k] + [r] + old(st.files)[k..]
  {
    var (priority, name) := PriorityAndName(text);
    if name == "" {
      return null;
    }
    var found := SearchFile(st.files, name);
    if found != null {
      return null;
    }
    r := new ConfigFile(name, priority);
    var k := FindFilePos(st.files, name);
    InsertFile(st, k, r);
  }

  /** The insertion itself. */
  method InsertFile(st: Store, k: nat, f: ConfigFile)
    requires Searchable(st) && st.Shaped() && f.sections == [] && f.name !in FileNames(st.files) && k <= |st.files|
    requires k > 0 ==> StrCmp(f.name, st.files[k - 1].name) >= 0
    requires k < |st.files| ==> StrCmp(f.name, st.files[k].name) < 0
    modifies st`files
    ensures Searchable(st) && st.Shaped()
    ensures st.files == old(st.files)[..k] + [f] + old(st.files)[k..]
  {
    var s := st.files;
    FileInserted(s, k, f);
    st.files := s[..k] + [f] + s[k..];
    forall g: ConfigFile ensures g in st.files <==> g == f || g in s {
      PlacedHas(s, k, f, g);
    }
    forall t | t in st.sections ensures exists g :: g in st.files && t in g.sections {
      var g :| g in s && t in g.sections;
      assert g in st.files;
    }
    st.ListsKept();
  }

  lemma FileInserted(files: seq<ConfigFile>, k: nat, f: ConfigFile)
    requires SortedNames(FileNames(files)) && f.name !in FileNames(files) && k <= |files|
    requires k > 0 ==> StrCmp(f.name, files[k - 1].name) >= 0
    requires k < |files| ==> StrCmp(f.name, files[k].name) < 0
    ensures SortedNames(FileNames(files[..k] + [f] + files[k..]))
  {
    var names := FileNames(files);
    NewNeighbours(names, k, f.name);
    NameInserted(names, k, f.name);
    assert FileNames(files[..k] + [f] + files[k..]) == names[..k] + [f.name] + names[k..];
  }

  // ----- priorities

  /** The order wanted: the highest priority first, then by name. */
  predicate Before(a: ConfigFile, b: ConfigFile) {
    a.priority > b.priority || (a.priority == b.priority && StrCmp(a.name, b.name) < 0)
  }

  ghost predicate ByPriority(s: seq<ConfigFile>) {
    forall i, j :: 0 <= i < j < |s| ==> Before(s[i], s[j])
  }

  /** config_file_arraylist_cmp_config_cb: never 0, and 1 both ways for equal
      priorities. */
  function CmpConfig(a: ConfigFile, b: ConfigFile): int {
    if a.priority > b.priority then -1 else 1
  }

  /** All the same, every file splits a list that is in order. */
  lemma ConfigsSplit(s: seq<ConfigFile>, x: ConfigFile)
    requires ByPriority(s)
    ensures Splits(CmpConfig, x, s)
  {
    forall i, j | 0 <= i < j < |s|
      ensures CmpConfig(x, s[j]) > 0 ==> CmpConfig(x, s[i]) > 0
      ensures CmpConfig(x, s[j]) >= 0 ==> CmpConfig(x, s[i]) >= 0
    {
      assert Before(s[i], s[j]);
    }
  }

  lemma PlacedPair(s: seq<ConfigFile>, x: ConfigFile, k: nat, i: nat, j: nat)
    requires ByPriority(s) && k <= |s| && i < j <= |s|
    requires forall m :: 0 <= m < |s| ==> StrCmp(s[m].name, x.name) < 0
    requires forall m :: 0 <= m < |s| ==> (CmpConfig(x, s[m]) >= 0 <==> m < k)
    ensures Before(Placed(s, k, x)[i], Placed(s, k, x)[j])
  {
    PlacedAt(s, k, x, i);
    PlacedAt(s, k, x, j);
    if j == k {
      assert CmpConfig(x, s[i]) >= 0;
    } else if i == k {
      assert !(CmpConfig(x, s[j - 1]) >= 0);
    } else {
      assert Before(s[if i < k then i else i - 1], s[if j < k then j else j - 1]);
    }
  }

  lemma PlacedMultiset(s: seq<ConfigFile>, x: ConfigFile, k: nat)
    requires k <= |s|
    ensures multiset(Placed(s, k, x)) == multiset(s) + multiset{x}
  {
    assert s == s[..k] + s[k..];
  }

  lemma PlacedByPriority(s: seq<ConfigFile>, x: ConfigFile, k: nat)
    requires ByPriority(s) && k == Upper(CmpConfig, x, s)
    requires forall i :: 0 <= i < |s| ==> StrCmp(s[i].name, x.name) < 0
    ensures ByPriority(Placed(s, k, x))
    ensures multiset(Placed(s, k, x)) == multiset(s) + multiset{x}
  {
    PlacedMultiset(s, x, k);
    ConfigsSplit(s, x);
    ScansBracketEquals(CmpConfig, x, s);
    AllPlaced(s, x, k);
  }

  lemma AllPlaced(s: seq<ConfigFile>, x: ConfigFile, k: nat)
    requires ByPriority(s) && k <= |s|
    requires forall m :: 0 <= m < |s| ==> StrCmp(s[m].name, x.name) < 0
    requires forall m :: 0 <= m < |s| ==> (CmpConfig(x, s[m]) >= 0 <==> m < k)
    ensures ByPriority(Placed(s, k, x))
  {
    var t := Placed(s, k, x);
    forall i, j | 0 <= i < j < |t| ensures Before(t[i], t[j]) {
      PlacedPair(s, x, k, i, j);
    }
  }

  /** config_file_get_configs_by_priority: every file once, the highest priority
      first, equal ones in the order of their names. */
  method GetConfigsByPriority(files: seq<ConfigFile>) returns (list: Arraylist.Arraylist<ConfigFile>)
    requires SortedNames(FileNames(files))
    ensures fresh(list) && list.Valid()
    ensures ByPriority(list.Contents()) && multiset(list.Contents()) == multiset(files)
    ensures var s := list.Contents();
      forall i, j :: 0 <= i < j < |s| ==>
        s[i].priority > s[j].priority || (s[i].priority == s[j].priority && StrCmp(s[i].name, s[j].name) < 0)
  {
    list := new Arraylist.Arraylist(32, true, true, CmpConfig, false);
    var i := 0;
    while i < |files|
      invariant i <= |files|
      invariant fresh(list) && fresh(list.data) && list.Valid()
      invariant list.Settings() == Config(true, true, CmpConfig)
      invariant ByPriority(list.Contents()) && multiset(list.Contents()) == multiset(files[..i])
    {
      AddNext(list, files, i);
      i := i + 1;
    }
    assert files[..i] == files;
  }

  method AddNext(list: Arraylist.Arraylist<ConfigFile>, files: seq<ConfigFile>, i: nat)
    requires SortedNames(FileNames(files)) && i < |files|
    requires list.Valid() && list.Settings() == Config(true, true, CmpConfig)
    requires ByPriority(list.Contents()) && multiset(list.Contents()) == multiset(files[..i])
    modifies list, list.data
    ensures list.Valid() && (list.data == old(list.data) || fresh(list.data))
    ensures ByPriority(list.Contents()) && multiset(list.Contents()) == multiset(files[..i + 1])
  {
    ghost var s := list.Contents();
    EarlierNames(files, i, s);
    ConfigsSplit(s, files[i]);
    PlacedByPriority(s, files[i], Upper(CmpConfig, files[i], s));
    assert files[..i + 1] == files[..i] + [files[i]];
    var _ := list.Add(files[i]);
  }

  lemma EarlierNames(files: seq<ConfigFile>, i: nat, s: seq<ConfigFile>)
    requires SortedNames(FileNames(files)) && i < |files| && multiset(s) == multiset(files[..i])
    ensures forall j :: 0 <= j < |s| ==> StrCmp(s[j].name, files[i].name) < 0
  {
    forall j | 0 <= j < |s| ensures StrCmp(s[j].name, files[i].name) < 0 {
      assert s[j] in multiset(s);
      var k :| 0 <= k < i && files[k] == s[j];
      assert StrCmp(FileNames(files)[k], FileNames(files)[i]) < 0;
    }
  }

  // ----- options by their full names

  /** config_file_search_section. */
  method SearchSection(sections: seq<Section>, name: string) returns (r: Section?)
    ensures r != null ==> r in sections && r.name == name
    ensures r == null ==> forall s :: s in sections ==> s.name != name
  {
    var i := 0;
    while i < |sections|
      invariant i <= |sections| && forall j :: 0 <= j < i ==> sections[j].name != name
    {
      if sections[i].name == name {
        return sections[i];
      }
      i := i + 1;
    }
    r := null;
  }

  /** No two sections of a file have the same name. */
  ghost predicate Distinct(sections: seq<Section>) {
    forall i, j :: 0 <= i < j < |sections| ==> sections[i].name != sections[j].name
  }

  /** Files are sorted, and the sections of a file know its name. */
  ghost predicate Searchable(st: Store)
    reads st`files, st.files`sections
  {
    && SortedNames(FileNames(st.files))
    && (forall f, s :: f in st.files && s in f.sections ==> s.fileName == f.name)
    && forall f :: f in st.files ==> Distinct(f.sections)
  }

  /** The only section with the names of a key. */
  method SearchKeySection(st: Store, k: Key) returns (r: Section?)
    requires Searchable(st) && st.Listed()
    ensures r != null ==> r in st.sections && r.fileName == k.file && r.name == k.section
    ensures r == null ==> forall s :: s in st.sections ==> !(s.fileName == k.file && s.name == k.section)
  {
    var file := SearchFile(st.files, k.file);
    if file == null {
      forall s | s in st.sections ensures s.fileName != k.file {
        var f :| f in st.files && s in f.sections;
        var i :| 0 <= i < |st.files| && st.files[i] == f;
        assert FileNames(st.files)[i] == f.name;
      }
      return null;
    }
    r := SearchSection(file.sections, k.section);
    if r == null {
      forall s | s in st.sections && s.fileName == k.file ensures s.name != k.section {
        var f :| f in st.files && s in f.sections;
        OneFile(st.files, f, file);
      }
    }
  }

  /** config_file_new_section: nothing if the file has a section of that name. */
  method NewSection(st: Store, f: ConfigFile, name: string) returns (r: Section?)
    requires Searchable(st) && st.Shaped() && f in st.files
    modifies f`sections, st`sections
    ensures Searchable(st) && st.Shaped()
    ensures r == null <==> exists s :: s in old(f.sections) && s.name == name
    ensures f.sections == old(f.sections) + if r == null then [] else [r]
    ensures st.sections == old(st.sections) + if r == null then {} else {r}
    ensures r != null ==> fresh(r) && r.name == name && r.fileName == f.name && r.nodes == []
  {
    var found := SearchSection(f.sections, name);
    if found != null {
      return null;
    }
    r := new Section(f.name, name);
    NewSectionNamed(st, f, r);
    AddSection(st, f, r);
  }

  /** The section at the end of the list of its file. */
  method AddSection(st: Store, f: ConfigFile, r: Section)
    requires Searchable(st) && st.Shaped() && f in st.files
    requires r.fileName == f.name && r.nodes == [] && r.Linked() && r.Sorted()
    requires forall s :: s in st.sections ==> !(s.fileName == r.fileName && s.name == r.name)
    modifies f`sections, st`sections
    ensures Searchable(st) && st.Shaped()
    ensures f.sections == old(f.sections) + [r] && st.sections == old(st.sections) + {r}
  {
    Enlist(st, r);
    f.sections := f.sections + [r];
    forall s | s in st.sections ensures exists g :: g in st.files && s in g.sections {
      if s == r {
        assert f in st.files && r in f.sections;
      } else {
        var g :| g in st.files && s in old(g.sections);
        assert s in g.sections;
      }
    }
  }

  ghost method Enlist(st: Store, r: Section)
    requires st.Collected() && st.Ordered() && st.Named()
    requires r.nodes == [] && r.Linked() && r.Sorted()
    requires forall s :: s in st.sections ==> !(s.fileName == r.fileName && s.name == r.name)
    modifies st`sections
    ensures st.sections == old(st.sections) + {r} && st.Collected() && st.Ordered() && st.Named()
  {
    st.sections := st.sections + {r};
    forall s | s in st.sections && s != r ensures s.Linked() && s.Sorted() {
      s.Untouched();
    }
  }

  lemma NewSectionNamed(st: Store, f: ConfigFile, r: Section)
    requires Searchable(st) && st.Listed() && f in st.files && r.fileName == f.name
    requires forall s :: s in f.sections ==> s.name != r.name
    ensures forall s :: s in st.sections ==> !(s.fileName == r.fileName && s.name == r.name)
  {
    forall s | s in st.sections && s.fileName == r.fileName ensures s.name != r.name {
      var g :| g in st.files && s in g.sections;
      OneFile(st.files, f, g);
    }
  }

  lemma OneFile(files: seq<ConfigFile>, f: ConfigFile, g: ConfigFile)
    requires SortedNames(FileNames(files)) && f in files && g in files && f.name == g.name
    ensures f == g
  {
    var i :| 0 <= i < |files| && files[i] == f;
    var j :| 0 <= j < |files| && files[j] == g;
    SortedIsUnique(FileNames(files));
    assert FileNames(files)[i] == FileNames(files)[j];
  }

  /** The option with a key, if there is one. */
  method SearchKey(st: Store, k: Key) returns (r: ConfigOption?)
    requires Searchable(st) && st.Shaped()
    ensures r == null <==> !st.HasKey(k)
    ensures r != null ==> r in st.all && r.Key() == k
  {
    var section := SearchKeySection(st, k);
    if section == null {
      return null;
    }
    st.TableKnows(section, k.name);
    r := section.SearchOption(k.name);
  }

  /** config_file_search_with_string: the option whose full name it is. */
  method SearchWithString(st: Store, text: string) returns (r: ConfigOption?)
    requires Searchable(st) && st.Shaped()
    ensures r == null <==> Split(text).None? || !st.HasKey(Split(text).value)
    ensures r != null ==> r in st.all && Some(r.Key()) == Split(text)
  {
    var k := Split(text);
    if k.None? {
      return null;
    }
    r := SearchKey(st, k.value);
  }

  /** config_file_get_parent_option. */
  method GetParentOption(st: Store, option: ConfigOption) returns (r: ConfigOption?)
    requires Searchable(st) && st.Shaped() && st.Shown()
    requires option in st.all
    ensures r == null <==> Parent(st.world, option.Item()).None?
    ensures r != null ==> r in st.all && Parent(st.world, option.Item()) == Some(r.Item())
  {
    if option.parentName.None? {
      return null;
    }
    r := SearchWithString(st, option.parentName.value);
  }

  /** The getters of inherited values: where the value comes from, and the value. */
  method InheritedValue(st: Store, option: ConfigOption) returns (spec: Spec, value: Option<Value>)
    requires Searchable(st) && st.Shaped() && st.Shown()
    requires option in st.all
    ensures option.Key() in st.world.options && (spec, value) == Inherited(st.world, option.Key())
  {
    if option.value.Some? {
      return option.spec, option.value;
    }
    var parent := GetParentOption(st, option);
    if parent == null {
      return option.spec, option.default;
    }
    if parent.value.None? {
      return parent.spec, parent.default;
    }
    return parent.spec, parent.value;
  }
}
