/** Comparison callbacks, the linear scans that a sorted insertion is measured
    against, and stable sorting by insertion. */
module Ordering {

  /** A comparison callback: negative, zero or positive, as strcmp. */
  type Comparator<!T> = (T, T) -> int

  /** Linear scan: the number of leading elements smaller than x. */
  function Lower<T>(cmp: Comparator<T>, x: T, s: seq<T>): (k: nat)
    ensures k <= |s|
    ensures forall i :: 0 <= i < k ==> cmp(x, s[i]) > 0
    ensures k < |s| ==> cmp(x, s[k]) <= 0
  {
    if s == [] || cmp(x, s[0]) <= 0 then 0 else 1 + Lower(cmp, x, s[1..])
  }

  /** Linear scan: the number of leading elements smaller than x or equal to it. */
  function Upper<T>(cmp: Comparator<T>, x: T, s: seq<T>): (k: nat)
    ensures k <= |s|
    ensures forall i :: 0 <= i < k ==> cmp(x, s[i]) >= 0
    ensures k < |s| ==> cmp(x, s[k]) < 0
  {
    if s == [] || cmp(x, s[0]) < 0 then 0 else 1 + Upper(cmp, x, s[1..])
  }

  /** Along s, the answer to "is x after this element?" only ever goes from yes
      to no: the one thing a binary search needs from its comparator. */
  ghost predicate Splits<T>(cmp: Comparator<T>, x: T, s: seq<T>) {
    forall i, j :: 0 <= i < j < |s| ==>
      && (cmp(x, s[j]) > 0 ==> cmp(x, s[i]) > 0)
      && (cmp(x, s[j]) >= 0 ==> cmp(x, s[i]) >= 0)
  }

  lemma SplitsAt<T>(cmp: Comparator<T>, x: T, s: seq<T>, i: nat, j: nat)
    requires Splits(cmp, x, s) && i < j < |s|
    ensures cmp(x, s[j]) > 0 ==> cmp(x, s[i]) > 0
    ensures cmp(x, s[j]) >= 0 ==> cmp(x, s[i]) >= 0
  {
  }

  /** In a list that x splits, the elements equal to x are exactly those between
      the two scans. */
  lemma ScansBracketEquals<T>(cmp: Comparator<T>, x: T, s: seq<T>)
    requires Splits(cmp, x, s)
    ensures Lower(cmp, x, s) <= Upper(cmp, x, s)
    ensures forall i :: 0 <= i < |s| ==>
      && (cmp(x, s[i]) > 0 <==> i < Lower(cmp, x, s))
      && (cmp(x, s[i]) == 0 <==> Lower(cmp, x, s) <= i < Upper(cmp, x, s))
      && (cmp(x, s[i]) < 0 <==> Upper(cmp, x, s) <= i)
  {
    var lo, hi := Lower(cmp, x, s), Upper(cmp, x, s);
    assert lo <= hi;
    forall i | 0 <= i < |s|
      ensures lo <= i ==> cmp(x, s[i]) <= 0
      ensures hi <= i ==> cmp(x, s[i]) < 0
    {
      if lo < i { SplitsAt(cmp, x, s, lo, i); }
      if hi < i { SplitsAt(cmp, x, s, hi, i); }
    }
  }

  /** A comparator that orders values the way a library user expects: a total
      preorder, with the sign changing when the arguments are exchanged. */
  ghost predicate TotalPreorder<T(!new)>(cmp: Comparator<T>) {
    && (forall x, y :: cmp(x, y) > 0 <==> cmp(y, x) < 0)
    && (forall x, y, z :: cmp(x, y) <= 0 && cmp(y, z) <= 0 ==> cmp(x, z) <= 0)
  }

  ghost predicate Ordered<T>(cmp: Comparator<T>, s: seq<T>) {
    forall i, j :: 0 <= i < j < |s| ==> cmp(s[i], s[j]) <= 0
  }

  lemma OrderedSplits<T(!new)>(cmp: Comparator<T>, x: T, s: seq<T>)
    requires TotalPreorder(cmp) && Ordered(cmp, s)
    ensures Splits(cmp, x, s)
  {
    forall i, j | 0 <= i < j < |s|
      ensures cmp(x, s[j]) > 0 ==> cmp(x, s[i]) > 0
      ensures cmp(x, s[j]) >= 0 ==> cmp(x, s[i]) >= 0
    {
      assert cmp(s[i], s[j]) <= 0;
      if cmp(x, s[i]) <= 0 {
        assert cmp(x, s[j]) <= 0;
      }
      if cmp(x, s[j]) >= 0 {
        assert cmp(s[j], x) <= 0;
        assert cmp(s[i], x) <= 0;
      }
    }
  }

  // ----- sorted insertion and insertion sort

  /** Insertion behind every element that is not greater. */
  function InsertSorted<T>(cmp: Comparator<T>, s: seq<T>, x: T): seq<T> {
    var k := Upper(cmp, x, s);
    s[..k] + [x] + s[k..]
  }

  /** Insertion of the elements of xs one by one, in order, into the empty list. */
  function InsertAll<T>(cmp: Comparator<T>, xs: seq<T>): seq<T> {
    if xs == [] then []
    else InsertSorted(cmp, InsertAll(cmp, xs[..|xs| - 1]), xs[|xs| - 1])
  }

  /** The elements that compare equal to x, in their order. */
  function Class<T>(cmp: Comparator<T>, x: T, s: seq<T>): seq<T> {
    if s == [] then []
    else if cmp(x, s[|s| - 1]) == 0 then Class(cmp, x, s[..|s| - 1]) + [s[|s| - 1]]
    else Class(cmp, x, s[..|s| - 1])
  }

  /** r is the stable sort of s: ordered, the same elements, and every class of
      equal elements in the order it had in s. */
  ghost predicate IsStableSort<T(!new)>(cmp: Comparator<T>, r: seq<T>, s: seq<T>) {
    && Ordered(cmp, r)
    && multiset(r) == multiset(s)
    && SameClasses(cmp, r, s)
  }

  ghost predicate SameClasses<T(!new)>(cmp: Comparator<T>, r: seq<T>, s: seq<T>) {
    forall x :: Class(cmp, x, r) == Class(cmp, x, s)
  }

  lemma {:induction false} ClassConcat<T>(cmp: Comparator<T>, x: T, a: seq<T>, b: seq<T>)
    ensures Class(cmp, x, a + b) == Class(cmp, x, a) + Class(cmp, x, b)
  {
    if b == [] {
      assert a + b == a;
    } else {
      var b' := b[..|b| - 1];
      ClassConcat(cmp, x, a, b');
      assert (a + b)[..|a + b| - 1] == a + b';
    }
  }

  lemma {:induction false} ClassOfOthers<T>(cmp: Comparator<T>, x: T, s: seq<T>)
    requires forall i :: 0 <= i < |s| ==> cmp(x, s[i]) != 0
    ensures Class(cmp, x, s) == []
  {
    if s != [] {
      ClassOfOthers(cmp, x, s[..|s| - 1]);
    }
  }

  lemma PlacedInOrder<T>(cmp: Comparator<T>, s: seq<T>, k: nat, x: T)
    requires Ordered(cmp, s) && k <= |s|
    requires forall i :: 0 <= i < k ==> cmp(s[i], x) <= 0
    requires forall i :: k <= i < |s| ==> cmp(x, s[i]) <= 0
    ensures Ordered(cmp, s[..k] + [x] + s[k..])
  {
    var r := s[..k] + [x] + s[k..];
    assert forall i :: 0 <= i < |r| ==> r[i] == if i < k then s[i] else if i == k then x else s[i - 1];
  }

  lemma InsertKeepsOrder<T(!new)>(cmp: Comparator<T>, s: seq<T>, x: T)
    requires TotalPreorder(cmp) && Ordered(cmp, s)
    ensures Ordered(cmp, InsertSorted(cmp, s, x))
  {
    OrderedSplits(cmp, x, s);
    ScansBracketEquals(cmp, x, s);
    PlacedInOrder(cmp, s, Upper(cmp, x, s), x);
  }

  lemma SnocInjective<T>(c: seq<T>, d: seq<T>, a: T, b: T)
    requires c + [a] == d + [b]
    ensures c == d && a == b
  {
    var e, f := c + [a], d + [b];
    assert |e| == |f| && c == e[..|e| - 1] && d == f[..|f| - 1];
    assert a == e[|e| - 1] && b == f[|f| - 1];
  }

  lemma EqualThenSmaller<T(!new)>(cmp: Comparator<T>, y: T, x: T, e: T)
    requires TotalPreorder(cmp)
    requires cmp(y, x) == 0 && cmp(x, e) < 0
    ensures cmp(y, e) < 0
  {
    assert cmp(e, y) <= 0 ==> cmp(e, x) <= 0;
  }

  /** Nothing behind the place of insertion belongs to the class of x. */
  lemma ClassBehind<T(!new)>(cmp: Comparator<T>, s: seq<T>, x: T, y: T)
    requires TotalPreorder(cmp) && Ordered(cmp, s)
    requires cmp(y, x) == 0
    ensures Class(cmp, y, s[Upper(cmp, x, s)..]) == []
  {
    var k := Upper(cmp, x, s);
    OrderedSplits(cmp, x, s);
    ScansBracketEquals(cmp, x, s);
    forall i | 0 <= i < |s[k..]| ensures cmp(y, s[k..][i]) != 0 {
      EqualThenSmaller(cmp, y, x, s[k + i]);
    }
    ClassOfOthers(cmp, y, s[k..]);
  }

  lemma ClassOfThree<T>(cmp: Comparator<T>, y: T, a: seq<T>, b: seq<T>, c: seq<T>)
    ensures Class(cmp, y, a + b + c) == Class(cmp, y, a) + Class(cmp, y, b) + Class(cmp, y, c)
  {
    ClassConcat(cmp, y, a + b, c);
    ClassConcat(cmp, y, a, b);
  }

  lemma ClassInsertion<T>(cmp: Comparator<T>, y: T, a: seq<T>, x: T, b: seq<T>)
    requires cmp(y, x) == 0 ==> Class(cmp, y, b) == []
    ensures Class(cmp, y, a + [x] + b) == Class(cmp, y, a + b + [x])
  {
    ClassOfThree(cmp, y, a, [x], b);
    ClassOfThree(cmp, y, a, b, [x]);
    var c, d, e := Class(cmp, y, a), Class(cmp, y, [x]), Class(cmp, y, b);
    if cmp(y, x) == 0 {
      assert c + d + [] == c + [] + d;
    } else {
      ClassOfOthers(cmp, y, [x]);
      assert c + [] + e == c + e + [];
    }
  }

  lemma ClassInsertionAt<T>(cmp: Comparator<T>, y: T, s: seq<T>, k: nat, x: T)
    requires k <= |s|
    requires cmp(y, x) == 0 ==> Class(cmp, y, s[k..]) == []
    ensures Class(cmp, y, s[..k] + [x] + s[k..]) == Class(cmp, y, s + [x])
  {
    ClassInsertion(cmp, y, s[..k], x, s[k..]);
    Rejoined(s, k, x);
  }

  lemma Rejoined<T>(s: seq<T>, k: nat, x: T)
    requires k <= |s|
    ensures s[..k] + s[k..] + [x] == s + [x]
  {
  }

  /** The new element goes to the end of its class; no other class changes. */
  lemma InsertExtendsClass<T(!new)>(cmp: Comparator<T>, s: seq<T>, x: T, y: T)
    requires TotalPreorder(cmp) && Ordered(cmp, s)
    ensures Class(cmp, y, InsertSorted(cmp, s, x)) == Class(cmp, y, s + [x])
  {
    if cmp(y, x) == 0 {
      ClassBehind(cmp, s, x, y);
    }
    ClassInsertionAt(cmp, y, s, Upper(cmp, x, s), x);
  }

  /** Inserting one by one into an empty sorted list is a stable sort. */
  lemma {:induction false} InsertAllIsStableSort<T(!new)>(cmp: Comparator<T>, xs: seq<T>)
    requires TotalPreorder(cmp)
    ensures IsStableSort(cmp, InsertAll(cmp, xs), xs)
  {
    if xs != [] {
      var ys, x := xs[..|xs| - 1], xs[|xs| - 1];
      var s := InsertAll(cmp, ys);
      InsertAllIsStableSort(cmp, ys);
      InsertKeepsOrder(cmp, s, x);
      assert xs == ys + [x];
      var k := Upper(cmp, x, s);
      assert s == s[..k] + s[k..];
      forall y ensures Class(cmp, y, InsertAll(cmp, xs)) == Class(cmp, y, xs) {
        InsertExtendsClass(cmp, s, x, y);
        ClassConcat(cmp, y, s, [x]);
        ClassConcat(cmp, y, ys, [x]);
      }
    }
  }

  lemma {:induction false} ClassMembers<T>(cmp: Comparator<T>, x: T, s: seq<T>)
    ensures forall e :: e in Class(cmp, x, s) <==> e in s && cmp(x, e) == 0
  {
    if s != [] {
      ClassMembers(cmp, x, s[..|s| - 1]);
      assert s == s[..|s| - 1] + [s[|s| - 1]];
    }
  }

  /** Two orderings of the same elements end in elements that compare equal. */
  lemma LastsAreEqual<T(!new)>(cmp: Comparator<T>, r: seq<T>, t: seq<T>)
    requires TotalPreorder(cmp)
    requires Ordered(cmp, r) && Ordered(cmp, t)
    requires multiset(r) == multiset(t) && r != [] && t != []
    ensures cmp(r[|r| - 1], t[|t| - 1]) == 0
  {
    var a, b := r[|r| - 1], t[|t| - 1];
    assert a in multiset(t) && b in multiset(r);
    var i :| 0 <= i < |t| && t[i] == a;
    var j :| 0 <= j < |r| && r[j] == b;
    assert cmp(a, a) == 0 && cmp(b, b) == 0;
    assert cmp(a, b) <= 0;
    assert cmp(b, a) <= 0;
  }

  /** Removing the common last element keeps the classes equal. */
  lemma ClassOfFront<T>(cmp: Comparator<T>, x: T, r: seq<T>, t: seq<T>)
    requires r != [] && t != [] && r[|r| - 1] == t[|t| - 1]
    requires Class(cmp, x, r) == Class(cmp, x, t)
    ensures Class(cmp, x, r[..|r| - 1]) == Class(cmp, x, t[..|t| - 1])
  {
    var a := r[|r| - 1];
    if cmp(x, a) == 0 {
      SnocInjective(Class(cmp, x, r[..|r| - 1]), Class(cmp, x, t[..|t| - 1]), a, a);
    }
  }

  lemma SameLast<T(!new)>(cmp: Comparator<T>, r: seq<T>, t: seq<T>)
    requires TotalPreorder(cmp)
    requires Ordered(cmp, r) && Ordered(cmp, t)
    requires multiset(r) == multiset(t) && r != [] && t != []
    requires SameClasses(cmp, r, t)
    ensures r[|r| - 1] == t[|t| - 1]
  {
    var a, b := r[|r| - 1], t[|t| - 1];
    LastsAreEqual(cmp, r, t);
    assert cmp(a, a) == 0;
    assert Class(cmp, a, r) == Class(cmp, a, t);
    SnocInjective(Class(cmp, a, r[..|r| - 1]), Class(cmp, a, t[..|t| - 1]), a, b);
  }

  lemma FrontMultiset<T>(s: seq<T>)
    requires s != []
    ensures multiset(s[..|s| - 1]) == multiset(s) - multiset{s[|s| - 1]}
  {
    assert s == s[..|s| - 1] + [s[|s| - 1]];
  }

  lemma FrontsAgree<T(!new)>(cmp: Comparator<T>, r: seq<T>, t: seq<T>)
    requires r != [] && t != [] && r[|r| - 1] == t[|t| - 1]
    requires multiset(r) == multiset(t) && SameClasses(cmp, r, t)
    ensures multiset(r[..|r| - 1]) == multiset(t[..|t| - 1])
    ensures SameClasses(cmp, r[..|r| - 1], t[..|t| - 1])
  {
    FrontMultiset(r);
    FrontMultiset(t);
    var r', t' := r[..|r| - 1], t[..|t| - 1];
    forall x ensures Class(cmp, x, r') == Class(cmp, x, t') {
      ClassOfFront(cmp, x, r, t);
    }
  }

  lemma {:induction false} OrderedSameClasses<T(!new)>(cmp: Comparator<T>, r: seq<T>, t: seq<T>)
    requires TotalPreorder(cmp)
    requires Ordered(cmp, r) && Ordered(cmp, t)
    requires multiset(r) == multiset(t) && SameClasses(cmp, r, t)
    ensures r == t
  {
    assert |r| == |multiset(r)| && |t| == |multiset(t)|;
    if r != [] {
      SameLast(cmp, r, t);
      FrontsAgree(cmp, r, t);
      OrderedSameClasses(cmp, r[..|r| - 1], t[..|t| - 1]);
      assert r == r[..|r| - 1] + [r[|r| - 1]];
    }
  }

  /** The three conditions of a stable sort leave no freedom: only one sequence
      meets them, so insertion gives the stable sort and not merely one order. */
  lemma StableSortUnique<T(!new)>(cmp: Comparator<T>, r: seq<T>, t: seq<T>, s: seq<T>)
    requires TotalPreorder(cmp)
    requires IsStableSort(cmp, r, s) && IsStableSort(cmp, t, s)
    ensures r == t
  {
    forall x ensures Class(cmp, x, r) == Class(cmp, x, t) {
      assert Class(cmp, x, r) == Class(cmp, x, s);
    }
    OrderedSameClasses(cmp, r, t);
  }
}
