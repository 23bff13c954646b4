/** What the settings of an arraylist promise in every reachable state: a sorted
    list stays sorted, a list without duplicates never holds two equal elements. */
module ListRuns {
  import opened Ordering
  import opened ListSpec

  datatype Operation<T> = Insert(index: int, x: T) | Remove(index: int) | Clear

  ghost predicate Distinct<T>(cmp: Comparator<T>, s: seq<T>) {
    forall i, j :: 0 <= i < |s| && 0 <= j < |s| && i != j ==> cmp(s[i], s[j]) != 0
  }

  ghost predicate Promise<T>(c: Config<T>, s: seq<T>) {
    && (c.sorted ==> Ordered(c.cmp, s))
    && (!c.duplicates ==> Distinct(c.cmp, s))
  }

  /** The list after one operation; an insertion that the settings do not
      support (see Insertable) is left out of account. */
  ghost function Perform<T>(c: Config<T>, s: seq<T>, op: Operation<T>): seq<T> {
    match op
    case Insert(index, x) =>
      if Insertable(c, s, x) then PositionFits(c, s, index, x); Inserted(c, s, index, x) else s
    case Remove(index) => if 0 <= index < |s| then s[..index] + s[index + 1..] else s
    case Clear => []
  }

  ghost function PerformAll<T>(c: Config<T>, ops: seq<Operation<T>>): seq<T> {
    if ops == [] then [] else Perform(c, PerformAll(c, ops[..|ops| - 1]), ops[|ops| - 1])
  }

  lemma PreorderIsSymmetric<T(!new)>(cmp: Comparator<T>, x: T, s: seq<T>)
    requires TotalPreorder(cmp)
    ensures Symmetric(cmp, x, s)
  {
    forall i | 0 <= i < |s| ensures cmp(x, s[i]) == 0 <==> cmp(s[i], x) == 0 {
      assert cmp(x, s[i]) > 0 <==> cmp(s[i], x) < 0;
      assert cmp(s[i], x) > 0 <==> cmp(x, s[i]) < 0;
    }
  }

  lemma EqualsAreEqual<T(!new)>(cmp: Comparator<T>, a: T, x: T, b: T)
    requires TotalPreorder(cmp)
    requires cmp(x, a) == 0 && cmp(x, b) == 0
    ensures cmp(a, b) == 0
  {
    assert cmp(a, x) <= 0 && cmp(b, x) <= 0;
    assert cmp(a, b) <= 0 && cmp(b, a) <= 0;
  }

  /** A list that keeps the promise can take any element. */
  lemma PromiseAdmits<T(!new)>(c: Config<T>, s: seq<T>, x: T)
    requires TotalPreorder(c.cmp) && Promise(c, s)
    ensures Insertable(c, s, x)
  {
    PreorderIsSymmetric(c.cmp, x, s);
    if c.sorted {
      OrderedSplits(c.cmp, x, s);
      ScansBracketEquals(c.cmp, x, s);
      var lo, hi := Lower(c.cmp, x, s), Upper(c.cmp, x, s);
      if !c.duplicates && lo + 1 < hi {
        EqualsAreEqual(c.cmp, s[lo], x, s[lo + 1]);
      }
    }
  }

  lemma {:induction false} WithoutKeepsNone<T>(cmp: Comparator<T>, s: seq<T>, x: T)
    ensures forall e :: e in Without(cmp, s, x) ==> e in s && cmp(e, x) != 0
  {
    if s != [] {
      WithoutKeepsNone(cmp, s[1..], x);
      assert s == [s[0]] + s[1..];
    }
  }

  lemma {:induction false} WithoutIsDistinct<T>(cmp: Comparator<T>, s: seq<T>, x: T)
    requires Distinct(cmp, s)
    ensures Distinct(cmp, Without(cmp, s, x))
  {
    if s != [] {
      var t := s[1..];
      WithoutIsDistinct(cmp, t, x);
      WithoutKeepsNone(cmp, t, x);
      var r := Without(cmp, t, x);
      if cmp(s[0], x) != 0 {
        forall i | 0 <= i < |r| ensures cmp(s[0], r[i]) != 0 && cmp(r[i], s[0]) != 0 {
          assert r[i] in r;
          assert r[i] in t;
          var k :| 0 <= k < |t| && t[k] == r[i];
          assert s[k + 1] == r[i];
        }
      }
    }
  }

  lemma PlacedIsDistinct<T>(cmp: Comparator<T>, s: seq<T>, k: nat, x: T)
    requires Distinct(cmp, s) && k <= |s|
    requires forall i :: 0 <= i < |s| ==> cmp(s[i], x) != 0 && cmp(x, s[i]) != 0
    ensures Distinct(cmp, Placed(s, k, x))
  {
    var r := Placed(s, k, x);
    assert forall i :: 0 <= i < |r| ==> r[i] == if i < k then s[i] else if i == k then x else s[i - 1];
  }

  lemma InsertKeepsDistinct<T(!new)>(c: Config<T>, s: seq<T>, index: int, x: T)
    requires TotalPreorder(c.cmp) && Promise(c, s) && !c.duplicates
    requires 0 <= Position(c, s, index, x) <= |Kept(c, s, x)|
    ensures Distinct(c.cmp, Inserted(c, s, index, x))
  {
    var kept := Without(c.cmp, s, x);
    WithoutIsDistinct(c.cmp, s, x);
    WithoutKeepsNone(c.cmp, s, x);
    PreorderIsSymmetric(c.cmp, x, kept);
    forall i | 0 <= i < |kept| ensures c.cmp(kept[i], x) != 0 && c.cmp(x, kept[i]) != 0 {
      assert kept[i] in kept;
    }
    PlacedIsDistinct(c.cmp, kept, Position(c, s, index, x), x);
  }

  lemma CutInOrder<T>(cmp: Comparator<T>, s: seq<T>, lo: nat, hi: nat)
    requires Ordered(cmp, s) && lo <= hi <= |s|
    ensures Ordered(cmp, s[..lo] + s[hi..])
  {
    var r := s[..lo] + s[hi..];
    assert forall i :: 0 <= i < |r| ==> r[i] == if i < lo then s[i] else s[i - lo + hi];
  }

  lemma InsertKeepsOrdered<T(!new)>(c: Config<T>, s: seq<T>, index: int, x: T)
    requires TotalPreorder(c.cmp) && Promise(c, s) && c.sorted
    requires 0 <= Position(c, s, index, x) <= |Kept(c, s, x)|
    ensures Ordered(c.cmp, Inserted(c, s, index, x))
  {
    OrderedSplits(c.cmp, x, s);
    ScansBracketEquals(c.cmp, x, s);
    if c.duplicates {
      InsertKeepsOrder(c.cmp, s, x);
    } else {
      PreorderIsSymmetric(c.cmp, x, s);
      EqualsAreABlock(c.cmp, s, x);
      BlockReplacedInOrder(c.cmp, s, Lower(c.cmp, x, s), Upper(c.cmp, x, s), x);
    }
  }

  lemma BlockReplacedInOrder<T(!new)>(cmp: Comparator<T>, s: seq<T>, lo: nat, hi: nat, x: T)
    requires TotalPreorder(cmp) && Ordered(cmp, s) && lo <= hi <= |s|
    requires forall i :: 0 <= i < lo ==> cmp(x, s[i]) > 0
    requires forall i :: hi <= i < |s| ==> cmp(x, s[i]) < 0
    ensures Ordered(cmp, Placed(s[..lo] + s[hi..], lo, x))
  {
    CutInOrder(cmp, s, lo, hi);
    var kept := s[..lo] + s[hi..];
    assert forall i :: 0 <= i < |kept| ==> kept[i] == if i < lo then s[i] else s[i - lo + hi];
    PlacedInOrder(cmp, kept, lo, x);
  }

  lemma RemovalKeepsPromise<T>(c: Config<T>, s: seq<T>, k: nat)
    requires Promise(c, s) && k < |s|
    ensures Promise(c, s[..k] + s[k + 1..])
  {
    var r := s[..k] + s[k + 1..];
    assert forall i :: 0 <= i < |r| ==> r[i] == if i < k then s[i] else s[i + 1];
    if c.sorted {
      CutInOrder(c.cmp, s, k, k + 1);
    }
  }

  lemma PerformKeepsPromise<T(!new)>(c: Config<T>, s: seq<T>, op: Operation<T>)
    requires TotalPreorder(c.cmp) && Promise(c, s)
    ensures Promise(c, Perform(c, s, op))
  {
    match op {
      case Insert(index, x) =>
        PromiseAdmits(c, s, x);
        PositionFits(c, s, index, x);
        if c.sorted {
          InsertKeepsOrdered(c, s, index, x);
        }
        if !c.duplicates {
          InsertKeepsDistinct(c, s, index, x);
        }
      case Remove(index) =>
        if 0 <= index < |s| {
          RemovalKeepsPromise(c, s, index);
        }
      case Clear =>
    }
  }

  /** Over every run, whatever the order of operations: a sorted list is sorted,
      a list without duplicates holds no two equal elements, and hence the next
      insertion may rely on both. */
  lemma {:induction false} RunsKeepPromise<T(!new)>(c: Config<T>, ops: seq<Operation<T>>, x: T)
    requires TotalPreorder(c.cmp)
    ensures Promise(c, PerformAll(c, ops))
    ensures Insertable(c, PerformAll(c, ops), x)
  {
    if ops != [] {
      RunsKeepPromise(c, ops[..|ops| - 1], x);
      PerformKeepsPromise(c, PerformAll(c, ops[..|ops| - 1]), ops[|ops| - 1]);
    }
    PromiseAdmits(c, PerformAll(c, ops), x);
  }

  ghost function Insertions<T>(xs: seq<T>): seq<Operation<T>> {
    seq(|xs|, i requires 0 <= i < |xs| => Insert(-1, xs[i]))
  }

  lemma {:induction false} AddingIsInserting<T(!new)>(cmp: Comparator<T>, xs: seq<T>)
    requires TotalPreorder(cmp)
    ensures PerformAll(Config(true, true, cmp), Insertions(xs)) == InsertAll(cmp, xs)
    ensures Ordered(cmp, InsertAll(cmp, xs))
  {
    if xs != [] {
      var c, front, x := Config(true, true, cmp), xs[..|xs| - 1], xs[|xs| - 1];
      var s := InsertAll(cmp, front);
      AddingIsInserting(cmp, front);
      PromiseAdmits(c, s, x);
      InsertKeepsOrder(cmp, s, x);
      var ops := Insertions(xs);
      assert ops[..|ops| - 1] == Insertions(front);
      assert Perform(c, s, Insert(-1, x)) == InsertSorted(cmp, s, x);
    }
  }

  /** Adding elements one by one to a new sorted list that allows duplicates
      gives the stable sort of the sequence of elements, and only that. */
  lemma AddingSorts<T(!new)>(cmp: Comparator<T>, xs: seq<T>, r: seq<T>)
    requires TotalPreorder(cmp)
    ensures r == PerformAll(Config(true, true, cmp), Insertions(xs)) <==> IsStableSort(cmp, r, xs)
  {
    AddingIsInserting(cmp, xs);
    InsertAllIsStableSort(cmp, xs);
    if IsStableSort(cmp, r, xs) {
      StableSortUnique(cmp, r, InsertAll(cmp, xs), xs);
    }
  }
}
