/** Where an insertion puts an element, and what becomes of the others: kind of list
    by kind of list, without the functions that say so in general. */
module ListMeaning {
  import opened Ordering
  import opened ListSpec
  import Capacity

  // ----- which elements stay

  /** The elements that do not compare equal stay, each on its own, in their order. */
  lemma {:induction false} Parted<T>(cmp: Comparator<T>, a: seq<T>, b: seq<T>, x: T)
    ensures Without(cmp, a + b, x) == Without(cmp, a, x) + Without(cmp, b, x)
    decreases a
  {
    if a == [] {
      assert a + b == b;
    } else {
      assert (a + b)[1..] == a[1..] + b;
      Parted(cmp, a[1..], b, x);
      Regrouped([a[0]], Without(cmp, a[1..], x), Without(cmp, b, x));
    }
  }

  /** So do those that have to go. */
  lemma {:induction false} PartedGone<T>(cmp: Comparator<T>, a: seq<T>, b: seq<T>, x: T)
    ensures Matching(cmp, a + b, x) == Matching(cmp, a, x) + Matching(cmp, b, x)
    decreases a
  {
    if a == [] {
      assert a + b == b;
    } else {
      assert (a + b)[1..] == a[1..] + b;
      PartedGone(cmp, a[1..], b, x);
      Regrouped([a[0]], Matching(cmp, a[1..], x), Matching(cmp, b, x));
    }
  }

  lemma Regrouped<T>(a: seq<T>, b: seq<T>, c: seq<T>)
    ensures a + (b + c) == a + b + c
  {
  }

  lemma One<T>(cmp: Comparator<T>, y: T, x: T)
    ensures Without(cmp, [y], x) == (if cmp(y, x) == 0 then [] else [y])
    ensures Matching(cmp, [y], x) == if cmp(y, x) == 0 then [y] else []
  {
  }

  // ----- where the new element comes

  /** A list that is not sorted and may have equal elements: at the index. */
  lemma AtIndex<T>(c: Config<T>, s: seq<T>, index: int, x: T)
    requires !c.sorted && c.duplicates && 0 <= index <= |s|
    ensures Position(c, s, index, x) == index && Gone(c, s, x) == []
    ensures Inserted(c, s, index, x) == s[..index] + [x] + s[index..]
  {
  }

  /** An index outside of the list: at the end. */
  lemma AtEnd<T>(c: Config<T>, s: seq<T>, index: int, x: T)
    requires !c.sorted && c.duplicates && !(0 <= index <= |s|)
    ensures Position(c, s, index, x) == |s| && Gone(c, s, x) == []
    ensures Inserted(c, s, index, x) == s + [x]
  {
  }

  lemma Unsorted<T>(c: Config<T>, s: seq<T>, index: int, x: T)
    requires !c.sorted && c.duplicates
    ensures Insertable(c, s, x)
    ensures var k := if 0 <= index <= |s| then index else |s|;
      Position(c, s, index, x) == k && Inserted(c, s, index, x) == s[..k] + [x] + s[k..]
  {
    if 0 <= index <= |s| {
      AtIndex(c, s, index, x);
    } else {
      AtEnd(c, s, index, x);
    }
  }

  /** Without equal elements: the equal ones go first, and the index counts those
      that are left. */
  lemma AmongOthers<T>(c: Config<T>, s: seq<T>, index: int, x: T)
    requires !c.sorted && !c.duplicates
    ensures var others := Without(c.cmp, s, x);
      var k := if 0 <= index <= |others| then index else |others|;
      Position(c, s, index, x) == k && Inserted(c, s, index, x) == others[..k] + [x] + others[k..]
    ensures Gone(c, s, x) == Matching(c.cmp, s, x)
  {
  }

  /** A sorted list: behind the smaller and the equal elements and before the
      greater ones, whatever the index. */
  lemma BehindEquals<T>(c: Config<T>, s: seq<T>, index: int, x: T)
    requires c.sorted && c.duplicates && Insertable(c, s, x)
    ensures var k := Position(c, s, index, x);
      && 0 <= k <= |s|
      && (forall i :: 0 <= i < |s| ==> (i < k <==> c.cmp(x, s[i]) >= 0))
      && Inserted(c, s, index, x) == s[..k] + [x] + s[k..] && Gone(c, s, x) == []
  {
    ScansBracketEquals(c.cmp, x, s);
  }

  /** Without equal elements: in the place of those that were equal. */
  lemma InPlaceOfEquals<T>(c: Config<T>, s: seq<T>, index: int, x: T) returns (end: nat)
    requires c.sorted && !c.duplicates && Insertable(c, s, x)
    ensures var k := Position(c, s, index, x);
      && 0 <= k <= end <= |s|
      && (forall i :: 0 <= i < |s| ==> (c.cmp(x, s[i]) > 0 <==> i < k) && (c.cmp(x, s[i]) < 0 <==> end <= i))
      && Gone(c, s, x) == s[k..end]
      && k <= |Kept(c, s, x)| && Inserted(c, s, index, x) == s[..k] + [x] + s[end..]
  {
    ScansBracketEquals(c.cmp, x, s);
    EqualsAreABlock(c.cmp, s, x);
    end := Upper(c.cmp, x, s);
    assert (s[..Position(c, s, index, x)] + s[end..])[..Position(c, s, index, x)] == s[..Position(c, s, index, x)];
  }

  // ----- the allocation

  /** A full list grows by half its slots, rounded down, and at least to 2. */
  lemma GrowsByHalf(alloc: nat)
    ensures alloc >= 2 ==> 0 <= 3 * alloc - 2 * Capacity.Grown(alloc, alloc) <= 1
    ensures alloc < 2 ==> Capacity.Grown(alloc, alloc) == 2
    ensures forall size: nat :: size < alloc ==> Capacity.Grown(size, alloc) == alloc
  {
  }

  /** A list above its initial allocation shrinks to half its slots, rounded up, if
      that leaves one free. */
  lemma ShrinksToHalf(size: nat, alloc: nat, allocMin: nat)
    requires 1 <= size <= alloc
    ensures alloc <= allocMin ==> Capacity.Shrunk(size, alloc, allocMin) == alloc
    ensures alloc > allocMin ==>
      var half := (alloc + 1) / 2;
      Capacity.Shrunk(size, alloc, allocMin) == if alloc == 1 then 0 else if size <= half then half else alloc
  {
  }

  /** A new size copies what the old and the new array have room for. */
  lemma CopiesFit(alloc: nat, other: nat)
    ensures Capacity.Copied(alloc, alloc) == 0
    ensures alloc != other ==> Capacity.Copied(alloc, other) <= alloc && Capacity.Copied(alloc, other) <= other
    ensures alloc != other ==> Capacity.Copied(alloc, other) == alloc || Capacity.Copied(alloc, other) == other
  {
  }
}
