/** The class driven through runs of operations: its contents are what ListRuns
    says of them. */
module ListDriver {
  import opened Ordering
  import opened ListSpec
  import opened ListRuns
  import opened Arraylist

  /** One operation of a run. */
  method PerformOn<T(!new)>(l: Arraylist<T>, op: Operation<T>)
    requires l.Valid() && TotalPreorder(l.cmp) && Promise(l.Settings(), l.Contents())
    modifies l, l.data
    ensures l.Valid() && (l.data == old(l.data) || fresh(l.data))
    ensures l.Contents() == Perform(l.Settings(), old(l.Contents()), op)
    ensures Promise(l.Settings(), l.Contents())
  {
    ghost var c, s := l.Settings(), l.Contents();
    PerformKeepsPromise(c, s, op);
    match op {
      case Insert(index, x) =>
        PromiseAdmits(c, s, x);
        var _ := l.Insert(index, x);
      case Remove(index) =>
        var _ := l.Remove(index);
      case Clear =>
        l.Clear();
    }
  }

  /** A run on a new list. In every state of it a sorted list is sorted, and a list
      without duplicates holds no two equal elements. */
  method RunOn<T(!new)>(initialSize: nat, sorted: bool, duplicates: bool, cmp: Comparator<T>, hasFree: bool,
                        ops: seq<Operation<T>>) returns (l: Arraylist<T>)
    requires TotalPreorder(cmp)
    ensures fresh(l) && fresh(l.data) && l.Valid() && l.Settings() == Config(sorted, duplicates, cmp)
    ensures l.Contents() == PerformAll(l.Settings(), ops) && Promise(l.Settings(), l.Contents())
  {
    l := new Arraylist(initialSize, sorted, duplicates, cmp, hasFree);
    var i := 0;
    while i < |ops|
      invariant 0 <= i <= |ops| && fresh(l) && fresh(l.data)
      invariant l.Valid() && l.Settings() == Config(sorted, duplicates, cmp)
      invariant l.Contents() == PerformAll(l.Settings(), ops[..i]) && Promise(l.Settings(), l.Contents())
    {
      assert ops[..i + 1][..i] == ops[..i];
      PerformOn(l, ops[i]);
      i := i + 1;
    }
    assert ops[..i] == ops;
  }

  /** Adding elements one by one to a new sorted list sorts them stably. */
  method AddAll<T(!new)>(cmp: Comparator<T>, xs: seq<T>) returns (l: Arraylist<T>)
    requires TotalPreorder(cmp)
    ensures fresh(l) && fresh(l.data) && l.Valid()
    ensures IsStableSort(cmp, l.Contents(), xs)
  {
    l := new Arraylist(32, true, true, cmp, false);
    ghost var c := Config(true, true, cmp);
    var i := 0;
    while i < |xs|
      invariant 0 <= i <= |xs| && fresh(l) && fresh(l.data) && l.Valid() && l.Settings() == c
      invariant l.Contents() == PerformAll(c, Insertions(xs[..i])) && Promise(c, l.Contents())
    {
      NextInsertion(xs, i);
      PerformOn(l, Insert(-1, xs[i]));
      i := i + 1;
    }
    assert xs[..i] == xs;
    AddingSorts(cmp, xs, l.Contents());
  }

  lemma NextInsertion<T>(xs: seq<T>, i: nat)
    requires i < |xs|
    ensures Insertions(xs[..i + 1]) == Insertions(xs[..i]) + [Insert(-1, xs[i])]
  {
  }
}
