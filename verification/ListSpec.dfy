/** What an arraylist operation means for the sequence of its elements. */
module ListSpec {
  import opened Ordering

  /** The settings of a list: kept sorted or not, equal elements allowed or not. */
  datatype Config<!T> = Config(sorted: bool, duplicates: bool, cmp: Comparator<T>)

  /** The elements that do not compare equal to x. The callback is given the
      list element first, the other way round from the binary search. */
  function Without<T>(cmp: Comparator<T>, s: seq<T>, x: T): (r: seq<T>)
    ensures |r| <= |s|
  {
    if s == [] then []
    else if cmp(s[0], x) == 0 then Without(cmp, s[1..], x)
    else [s[0]] + Without(cmp, s[1..], x)
  }

  /** The elements that compare equal to x. */
  function Matching<T>(cmp: Comparator<T>, s: seq<T>, x: T): seq<T> {
    if s == [] then []
    else if cmp(s[0], x) == 0 then [s[0]] + Matching(cmp, s[1..], x)
    else Matching(cmp, s[1..], x)
  }

  /** x put at position k. */
  function Placed<T>(s: seq<T>, k: nat, x: T): seq<T>
    requires k <= |s|
  {
    s[..k] + [x] + s[k..]
  }

  /** The elements that stay when x is inserted, and those that have to go. */
  function Kept<T>(c: Config<T>, s: seq<T>, x: T): seq<T> {
    if c.duplicates then s else Without(c.cmp, s, x)
  }

  function Gone<T>(c: Config<T>, s: seq<T>, x: T): seq<T> {
    if c.duplicates then [] else Matching(c.cmp, s, x)
  }

  /** The position of x among the elements that stay. */
  function Position<T>(c: Config<T>, s: seq<T>, index: int, x: T): int {
    if c.sorted then
      if c.duplicates then Upper(c.cmp, x, s) else Lower(c.cmp, x, s)
    else
      if index < 0 || index > |Kept(c, s, x)| then |Kept(c, s, x)| else index
  }

  /** The callback agrees with itself, at equality, when its arguments are exchanged. */
  ghost predicate Symmetric<T>(cmp: Comparator<T>, x: T, s: seq<T>) {
    forall i :: 0 <= i < |s| ==> (cmp(x, s[i]) == 0 <==> cmp(s[i], x) == 0)
  }

  /** What an insertion may rely on; nothing if the list is not sorted. */
  ghost predicate Insertable<T>(c: Config<T>, s: seq<T>, x: T) {
    c.sorted ==>
      && Splits(c.cmp, x, s)
      && (!c.duplicates ==> Symmetric(c.cmp, x, s) && Upper(c.cmp, x, s) <= Lower(c.cmp, x, s) + 1)
  }

  lemma {:induction false} WithoutNone<T>(cmp: Comparator<T>, s: seq<T>, x: T)
    requires forall i :: 0 <= i < |s| ==> cmp(s[i], x) != 0
    ensures Without(cmp, s, x) == s && Matching(cmp, s, x) == []
  {
    if s != [] {
      WithoutNone(cmp, s[1..], x);
    }
  }

  lemma {:induction false} WithoutBlock<T>(cmp: Comparator<T>, s: seq<T>, x: T, lo: nat, hi: nat)
    requires lo <= hi <= |s|
    requires forall i :: 0 <= i < |s| ==> (cmp(s[i], x) == 0 <==> lo <= i < hi)
    ensures Without(cmp, s, x) == s[..lo] + s[hi..] && Matching(cmp, s, x) == s[lo..hi]
  {
    if hi == 0 {
      WithoutNone(cmp, s, x);
    } else {
      var l: nat := if lo == 0 then 0 else lo - 1;
      WithoutBlock(cmp, s[1..], x, l, hi - 1);
      assert cmp(s[0], x) == 0 <==> lo == 0;
      BlockStep(s, lo, hi);
    }
  }

  /** A block of a list and what is around it, without the first element. */
  lemma BlockStep<T>(s: seq<T>, lo: nat, hi: nat)
    requires lo <= hi <= |s| && hi > 0
    ensures var t := s[1..];
      if lo == 0 then s[..0] + s[hi..] == t[..0] + t[hi - 1..] && s[0..hi] == [s[0]] + t[0..hi - 1]
      else s[..lo] + s[hi..] == [s[0]] + (t[..lo - 1] + t[hi - 1..]) && s[lo..hi] == t[lo - 1..hi - 1]
  {
    var t := s[1..];
    TailSlice(s, hi, |s|);
    assert s[hi..] == s[hi..|s|] && t[hi - 1..] == t[hi - 1..|s| - 1];
    if lo == 0 {
      HeadSlice(s, hi);
      assert s[..0] + s[hi..] == s[hi..] && t[..0] + t[hi - 1..] == t[hi - 1..];
    } else {
      TailSlice(s, lo, hi);
      HeadSlice(s, lo);
      assert s[..lo] == s[0..lo] && t[..lo - 1] == t[0..lo - 1];
      var head, front, back := [s[0]], t[..lo - 1], t[hi - 1..];
      assert head + front + back == head + (front + back);
    }
  }

  lemma HeadSlice<T>(s: seq<T>, j: nat)
    requires 1 <= j <= |s|
    ensures s[0..j] == [s[0]] + s[1..][0..j - 1]
  {
    var a, b := s[0..j], [s[0]] + s[1..][0..j - 1];
    forall k | 0 <= k < j ensures a[k] == b[k] {
      assert a[k] == s[k];
    }
  }

  lemma TailSlice<T>(s: seq<T>, i: nat, j: nat)
    requires 1 <= i <= j <= |s|
    ensures s[i..j] == s[1..][i - 1..j - 1]
  {
    var a, b := s[i..j], s[1..][i - 1..j - 1];
    forall k | 0 <= k < j - i ensures a[k] == b[k] {
      assert a[k] == s[i + k] && b[k] == s[1..][i - 1 + k];
    }
  }

  /** In a list that x splits, the elements equal to x are one block. */
  lemma EqualsAreABlock<T>(cmp: Comparator<T>, s: seq<T>, x: T)
    requires Splits(cmp, x, s) && Symmetric(cmp, x, s)
    ensures Lower(cmp, x, s) <= Upper(cmp, x, s)
    ensures Without(cmp, s, x) == s[..Lower(cmp, x, s)] + s[Upper(cmp, x, s)..]
    ensures Matching(cmp, s, x) == s[Lower(cmp, x, s)..Upper(cmp, x, s)]
  {
    ScansBracketEquals(cmp, x, s);
    WithoutBlock(cmp, s, x, Lower(cmp, x, s), Upper(cmp, x, s));
  }

  lemma PositionFits<T>(c: Config<T>, s: seq<T>, index: int, x: T)
    requires Insertable(c, s, x)
    ensures 0 <= Position(c, s, index, x) <= |Kept(c, s, x)|
  {
    if c.sorted && !c.duplicates {
      EqualsAreABlock(c.cmp, s, x);
    }
  }

  /** The list after x has been inserted: whatever compares equal and may not
      stay is dropped, then x is put in its place. */
  function Inserted<T>(c: Config<T>, s: seq<T>, index: int, x: T): seq<T>
    requires 0 <= Position(c, s, index, x) <= |Kept(c, s, x)|
  {
    Placed(Kept(c, s, x), Position(c, s, index, x), x)
  }

  lemma {:induction false} NothingLost<T>(cmp: Comparator<T>, s: seq<T>, x: T)
    ensures multiset(Without(cmp, s, x)) + multiset(Matching(cmp, s, x)) == multiset(s)
  {
    if s != [] {
      NothingLost(cmp, s[1..], x);
      assert s == [s[0]] + s[1..];
    }
  }
}
