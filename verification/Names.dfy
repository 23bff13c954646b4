/** Names: their order, and the full names "file.section.option". */
module Names {
  import opened Wrappers

  /** strcmp: the sign tells the order of the first characters that differ. */
  function StrCmp(a: string, b: string): int {
    if a == [] && b == [] then 0
    else if a == [] then -1
    else if b == [] then 1
    else if a[0] != b[0] then a[0] as int - b[0] as int
    else StrCmp(a[1..], b[1..])
  }

  lemma {:induction false} CmpEqual(a: string, b: string)
    ensures StrCmp(a, b) == 0 <==> a == b
  {
    if a != [] && b != [] && a[0] == b[0] {
      CmpEqual(a[1..], b[1..]);
      assert a == [a[0]] + a[1..] && b == [b[0]] + b[1..];
    }
  }

  lemma {:induction false} CmpOpposite(a: string, b: string)
    ensures StrCmp(a, b) < 0 <==> StrCmp(b, a) > 0
  {
    if a != [] && b != [] && a[0] == b[0] {
      CmpOpposite(a[1..], b[1..]);
    }
  }

  lemma {:induction false} CmpTransitive(a: string, b: string, c: string)
    requires StrCmp(a, b) < 0 && StrCmp(b, c) < 0
    ensures StrCmp(a, c) < 0
  {
    if a != [] && b != [] && c != [] && a[0] == b[0] == c[0] {
      CmpTransitive(a[1..], b[1..], c[1..]);
    }
  }

  // ----- sorted names

  predicate SortedNames(s: seq<string>) {
    forall i, j {:trigger StrCmp(s[i], s[j])} :: 0 <= i < j < |s| ==> StrCmp(s[i], s[j]) < 0
  }

  /** A name between its neighbours keeps the names sorted. */
  lemma NameInserted(s: seq<string>, k: nat, name: string)
    requires SortedNames(s) && k <= |s|
    requires k > 0 ==> StrCmp(s[k - 1], name) < 0
    requires k < |s| ==> StrCmp(name, s[k]) < 0
    ensures SortedNames(s[..k] + [name] + s[k..])
  {
    forall i | 0 <= i < k ensures StrCmp(s[i], name) < 0 {
      if i < k - 1 {
        CmpTransitive(s[i], s[k - 1], name);
      }
    }
    forall i | k <= i < |s| ensures StrCmp(name, s[i]) < 0 {
      if i > k {
        CmpTransitive(name, s[k], s[i]);
      }
    }
  }

  lemma NameRemoved(s: seq<string>, k: nat)
    requires SortedNames(s) && k < |s|
    ensures SortedNames(s[..k] + s[k + 1..])
  {
  }

  predicate Unique(s: seq<string>) {
    forall i, j :: 0 <= i < j < |s| ==> s[i] != s[j]
  }

  lemma SortedIsUnique(s: seq<string>)
    requires SortedNames(s)
    ensures Unique(s)
  {
    forall i, j | 0 <= i < j < |s| ensures s[i] != s[j] {
      CmpEqual(s[i], s[j]);
    }
  }

  // ----- tables: the finite map that a list of names stands for

  ghost function Table<T>(names: seq<string>, s: seq<T>): map<string, T>
    requires |names| == |s| && Unique(names)
  {
    map i | 0 <= i < |s| :: names[i] := s[i]
  }

  ghost predicate IsTable<T>(names: seq<string>, s: seq<T>, m: map<string, T>) {
    && |names| == |s|
    && (forall i :: 0 <= i < |s| ==> names[i] in m && m[names[i]] == s[i])
    && (forall n :: n in m ==> n in names)
  }

  lemma TableIs<T>(names: seq<string>, s: seq<T>, m: map<string, T>)
    requires Unique(names) && IsTable(names, s, m)
    ensures Table(names, s) == m
  {
    var t := Table(names, s);
    forall n | n in m ensures n in t {
      var i :| 0 <= i < |names| && names[i] == n;
    }
  }

  lemma TableHas<T>(names: seq<string>, s: seq<T>)
    requires |names| == |s| && Unique(names)
    ensures IsTable(names, s, Table(names, s))
  {
  }

  lemma TableFound<T>(names: seq<string>, s: seq<T>, k: nat)
    requires |names| == |s| && Unique(names) && k < |s|
    ensures names[k] in Table(names, s) && Table(names, s)[names[k]] == s[k]
  {
  }

  lemma TableMissing<T>(names: seq<string>, s: seq<T>, name: string)
    requires |names| == |s| && Unique(names)
    ensures name in Table(names, s) <==> name in names
  {
    TableHas(names, s);
  }

  lemma PlacedAt<T>(s: seq<T>, k: nat, x: T, j: nat)
    requires k <= |s| && j <= |s|
    ensures (s[..k] + [x] + s[k..])[j] == if j < k then s[j] else if j == k then x else s[j - 1]
  {
  }

  lemma PlacedHas<T>(s: seq<T>, k: nat, x: T, y: T)
    requires k <= |s|
    ensures y in s[..k] + [x] + s[k..] <==> y == x || y in s
  {
    assert s == s[..k] + s[k..];
  }

  lemma UniquePlaced(names: seq<string>, k: nat, name: string)
    requires Unique(names) && k <= |names| && name !in names
    ensures Unique(names[..k] + [name] + names[k..])
  {
  }

  lemma TablePlaced<T>(names: seq<string>, s: seq<T>, k: nat, name: string, x: T)
    requires |names| == |s| && Unique(names) && k <= |s| && name !in names
    ensures Unique(names[..k] + [name] + names[k..])
    ensures Table(names[..k] + [name] + names[k..], s[..k] + [x] + s[k..]) == Table(names, s)[name := x]
  {
    var names', s', m := names[..k] + [name] + names[k..], s[..k] + [x] + s[k..], Table(names, s)[name := x];
    TableHas(names, s);
    UniquePlaced(names, k, name);
    forall j | 0 <= j < |s'| ensures names'[j] in m && m[names'[j]] == s'[j] {
      PlacedAt(names, k, name, j);
      PlacedAt(s, k, x, j);
    }
    forall n | n in m ensures n in names' {
      PlacedHas(names, k, name, n);
    }
    TableIs(names', s', m);
  }

  lemma TakenAt<T>(s: seq<T>, k: nat, j: nat)
    requires k < |s| && j < |s| - 1
    ensures (s[..k] + s[k + 1..])[j] == s[if j < k then j else j + 1]
  {
  }

  lemma TakenHas<T>(s: seq<T>, k: nat, y: T)
    requires k < |s| && y in s && y != s[k]
    ensures y in s[..k] + s[k + 1..]
  {
    assert s == s[..k] + [s[k]] + s[k + 1..];
  }

  lemma UniqueTaken(names: seq<string>, k: nat)
    requires Unique(names) && k < |names|
    ensures Unique(names[..k] + names[k + 1..])
    ensures names[k] !in names[..k] + names[k + 1..]
  {
    var t := names[..k] + names[k + 1..];
    forall j | 0 <= j < |t| ensures t[j] != names[k] {
      TakenAt(names, k, j);
    }
  }

  lemma TableTaken<T>(names: seq<string>, s: seq<T>, k: nat)
    requires |names| == |s| && Unique(names) && k < |s|
    ensures Unique(names[..k] + names[k + 1..]) && names[k] !in names[..k] + names[k + 1..]
    ensures Table(names[..k] + names[k + 1..], s[..k] + s[k + 1..]) == Table(names, s) - {names[k]}
  {
    var names', s', m := names[..k] + names[k + 1..], s[..k] + s[k + 1..], Table(names, s) - {names[k]};
    TableHas(names, s);
    UniqueTaken(names, k);
    forall j | 0 <= j < |s'| ensures names'[j] in m && m[names'[j]] == s'[j] {
      TakenAt(names, k, j);
      TakenAt(s, k, j);
    }
    forall n | n in m ensures n in names' {
      TakenHas(names, k, n);
    }
    TableIs(names', s', m);
  }

  /** Behind a smaller name there is no greater one before it: the search from
      the end may stop. */
  lemma NoneBefore(s: seq<string>, k: nat, name: string)
    requires SortedNames(s) && k < |s| && StrCmp(s[k], name) < 0
    ensures forall i :: 0 <= i <= k ==> s[i] != name
  {
    forall i | 0 <= i <= k ensures s[i] != name {
      if i < k {
        CmpTransitive(s[i], s[k], name);
      }
      CmpEqual(s[i], name);
    }
  }

  // ----- full names

  predicate NoDot(s: string) {
    '.' !in s
  }

  datatype Key = Key(file: string, section: string, name: string)

  /** A registered option: the names of its file and section have no dot. */
  predicate Plain(k: Key) {
    NoDot(k.file) && NoDot(k.section)
  }

  function FullName(k: Key): string {
    k.file + "." + k.section + "." + k.name
  }

  /** strchr: the index of the first dot. */
  function FirstDot(s: string): (r: Option<nat>)
    ensures r.Some? ==> r.value < |s| && s[r.value] == '.' && '.' !in s[..r.value]
    ensures r.None? ==> '.' !in s
  {
    if s == [] then None
    else if s[0] == '.' then Some(0)
    else
      match FirstDot(s[1..])
      case Some(i) =>
        assert s[..i + 1] == [s[0]] + s[1..][..i];
        Some(i + 1)
      case None =>
        assert s == [s[0]] + s[1..];
        None
  }

  /** How a full name is taken apart: at the first two dots. */
  function Split(s: string): Option<Key> {
    match FirstDot(s)
    case None => None
    case Some(i) =>
      match FirstDot(s[i + 1..])
      case None => None
      case Some(j) => Some(Key(s[..i], s[i + 1..][..j], s[i + 1..][j + 1..]))
  }

  lemma {:induction false} FirstDotAt(a: string, rest: string)
    requires NoDot(a)
    ensures FirstDot(a + "." + rest) == Some(|a|)
  {
    var s := a + "." + rest;
    if a != [] {
      assert s[1..] == a[1..] + "." + rest;
      FirstDotAt(a[1..], rest);
    }
  }

  /** Joining and splitting are inverse to each other, on plain keys. */
  lemma SplitFull(k: Key)
    ensures Split(FullName(k)) == Some(k) <==> Plain(k)
  {
    var s := FullName(k);
    var rest := k.section + "." + k.name;
    assert s == k.file + "." + rest;
    if Plain(k) {
      FirstDotAt(k.file, rest);
      assert s[..|k.file|] == k.file && s[|k.file| + 1..] == rest;
      FirstDotAt(k.section, k.name);
      assert rest[..|k.section|] == k.section && rest[|k.section| + 1..] == k.name;
    } else {
      SplitPlain(s);
    }
  }

  lemma JoinedAtDot(s: string, i: nat)
    requires i < |s| && s[i] == '.'
    ensures s == s[..i] + "." + s[i + 1..]
  {
  }

  lemma FullNameIs(file: string, section: string, name: string, rest: string)
    requires rest == section + "." + name
    ensures FullName(Key(file, section, name)) == file + "." + rest
  {
    assert file + "." + (section + "." + name) == file + "." + section + "." + name;
  }

  /** Splitting yields plain keys, and joining gives the text back. */
  lemma SplitPlain(s: string)
    ensures Split(s).Some? ==> Plain(Split(s).value) && FullName(Split(s).value) == s
  {
    match FirstDot(s) {
      case None =>
      case Some(i) =>
        var rest := s[i + 1..];
        JoinedAtDot(s, i);
        match FirstDot(rest) {
          case None =>
          case Some(j) =>
            JoinedAtDot(rest, j);
            FullNameIs(s[..i], rest[..j], rest[j + 1..], rest);
        }
    }
  }

  /** Different plain keys have different full names. */
  lemma FullNameInjective(a: Key, b: Key)
    requires Plain(a) && Plain(b) && FullName(a) == FullName(b)
    ensures a == b
  {
    SplitFull(a);
    SplitFull(b);
  }

  /** A text names a plain key exactly if it is the key's full name. */
  lemma SplitIs(s: string, k: Key)
    requires Plain(k)
    ensures Split(s) == Some(k) <==> s == FullName(k)
  {
    SplitFull(k);
    SplitPlain(s);
  }

  // ----- the parent in the name of a new option

  const ARROW: string := " << "

  /** strstr: the index of the first occurrence of a pattern. */
  function Find(s: string, pattern: string): (r: Option<nat>)
    ensures r.Some? ==> r.value + |pattern| <= |s| && s[r.value..r.value + |pattern|] == pattern
  {
    if |s| < |pattern| then None
    else if s[..|pattern|] == pattern then Some(0)
    else if s == [] then None
    else match Find(s[1..], pattern)
      case Some(i) =>
        assert s[i + 1..i + 1 + |pattern|] == s[1..][i..i + |pattern|];
        Some(i + 1)
      case None => None
  }

  /** "name << parent" in its parts. */
  function NameAndParent(s: string): (string, Option<string>) {
    match Find(s, ARROW)
    case Some(i) => (s[..i], Some(s[i + |ARROW|..]))
    case None => (s, None)
  }
}
