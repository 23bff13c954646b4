/** Whole runs of an arraylist: what holds in every reachable state, whatever
    the order of insertions, removals and clears. */
module ListHistory {
  import Capacity
  import opened ListSpec
  import opened Ordering

  /** One element put at a position, one taken away, or all of them dropped. */
  datatype Event<T> = Put(k: nat, x: T) | Take(k: nat) | Clear

  datatype State<T> = State(items: seq<T>, alloc: nat)

  function Apply<T>(e: Event<T>, s: State<T>, allocMin: nat): State<T> {
    match e
    case Put(k, x) =>
      if k <= |s.items| then State(Placed(s.items, k, x), Capacity.Grown(|s.items|, s.alloc)) else s
    case Take(k) =>
      if k < |s.items| then State(s.items[..k] + s.items[k + 1..], Capacity.Shrunk(|s.items|, s.alloc, allocMin)) else s
    case Clear => State([], allocMin)
  }

  /** The state after a run that starts in s. */
  function After<T>(log: seq<Event<T>>, s: State<T>, allocMin: nat): State<T> {
    if log == [] then s else After(log[1..], Apply(log[0], s, allocMin), allocMin)
  }

  /** The elements that an event makes leave the list, in the order in which the
      free callback gets them, and those that it adds. */
  function Leaving<T>(e: Event<T>, s: State<T>): seq<T> {
    match e
    case Put(_, _) => []
    case Take(k) => if k < |s.items| then [s.items[k]] else []
    case Clear => s.items
  }

  function Entering<T>(e: Event<T>, s: State<T>): seq<T> {
    if e.Put? && e.k <= |s.items| then [e.x] else []
  }

  function LeavingAll<T>(log: seq<Event<T>>, s: State<T>, allocMin: nat): seq<T> {
    if log == [] then [] else Leaving(log[0], s) + LeavingAll(log[1..], Apply(log[0], s, allocMin), allocMin)
  }

  function EnteringAll<T>(log: seq<Event<T>>, s: State<T>, allocMin: nat): seq<T> {
    if log == [] then [] else Entering(log[0], s) + EnteringAll(log[1..], Apply(log[0], s, allocMin), allocMin)
  }

  /** Slots copied by realloc during an event, and during a run. A clear
      allocates a new array and copies nothing. */
  function EventCopies<T>(e: Event<T>, s: State<T>, allocMin: nat): nat {
    if e.Clear? then 0 else Capacity.Copied(s.alloc, Apply(e, s, allocMin).alloc)
  }

  function CopiesAll<T>(log: seq<Event<T>>, s: State<T>, allocMin: nat): nat {
    if log == [] then 0
    else EventCopies(log[0], s, allocMin) + CopiesAll(log[1..], Apply(log[0], s, allocMin), allocMin)
  }

  function Clears<T>(log: seq<Event<T>>): nat {
    if log == [] then 0 else (if log[0].Clear? then 1 else 0) + Clears(log[1..])
  }

  // ----- runs of a new list

  function New<T>(allocMin: nat): State<T> {
    State([], allocMin)
  }

  function Play<T>(log: seq<Event<T>>, allocMin: nat): State<T> {
    After(log, New(allocMin), allocMin)
  }

  function Dropped<T>(log: seq<Event<T>>, allocMin: nat): seq<T> {
    LeavingAll(log, New(allocMin), allocMin)
  }

  function Added<T>(log: seq<Event<T>>, allocMin: nat): seq<T> {
    EnteringAll(log, New(allocMin), allocMin)
  }

  function Copies<T>(log: seq<Event<T>>, allocMin: nat): nat {
    CopiesAll(log, New(allocMin), allocMin)
  }

  lemma {:induction false} AfterConcat<T>(a: seq<Event<T>>, b: seq<Event<T>>, s: State<T>, allocMin: nat)
    ensures After(a + b, s, allocMin) == After(b, After(a, s, allocMin), allocMin)
    decreases a
  {
    if a == [] {
      assert a + b == b;
    } else {
      assert (a + b)[1..] == a[1..] + b;
      AfterConcat(a[1..], b, Apply(a[0], s, allocMin), allocMin);
    }
  }

  lemma {:induction false} LeavingConcat<T>(a: seq<Event<T>>, b: seq<Event<T>>, s: State<T>, allocMin: nat)
    ensures LeavingAll(a + b, s, allocMin)
         == LeavingAll(a, s, allocMin) + LeavingAll(b, After(a, s, allocMin), allocMin)
    decreases a
  {
    if a == [] {
      assert a + b == b;
    } else {
      assert (a + b)[1..] == a[1..] + b;
      LeavingConcat(a[1..], b, Apply(a[0], s, allocMin), allocMin);
    }
  }

  lemma {:induction false} EnteringConcat<T>(a: seq<Event<T>>, b: seq<Event<T>>, s: State<T>, allocMin: nat)
    ensures EnteringAll(a + b, s, allocMin)
         == EnteringAll(a, s, allocMin) + EnteringAll(b, After(a, s, allocMin), allocMin)
    decreases a
  {
    if a == [] {
      assert a + b == b;
    } else {
      assert (a + b)[1..] == a[1..] + b;
      EnteringConcat(a[1..], b, Apply(a[0], s, allocMin), allocMin);
    }
  }

  /** What one more event adds. */
  lemma SnocAdded<T>(log: seq<Event<T>>, e: Event<T>, allocMin: nat)
    ensures Added(log + [e], allocMin) == Added(log, allocMin) + Entering(e, Play(log, allocMin))
  {
    EnteringConcat(log, [e], New(allocMin), allocMin);
  }

  lemma Snoc<T>(log: seq<Event<T>>, e: Event<T>, allocMin: nat)
    ensures Play(log + [e], allocMin) == Apply(e, Play(log, allocMin), allocMin)
    ensures Dropped(log + [e], allocMin) == Dropped(log, allocMin) + Leaving(e, Play(log, allocMin))
  {
    AfterConcat(log, [e], New(allocMin), allocMin);
    LeavingConcat(log, [e], New(allocMin), allocMin);
  }

  /** What the free callback gets: the element taken, all elements from the front
      when the list is cleared, nothing when one is put. */
  lemma LeavesInOrder<T>(log: seq<Event<T>>, k: nat, x: T, allocMin: nat)
    ensures var items := Play(log, allocMin).items;
      && (k < |items| ==> Dropped(log + [Take(k)], allocMin) == Dropped(log, allocMin) + [items[k]])
      && Dropped(log + [Clear], allocMin) == Dropped(log, allocMin) + items
      && Dropped(log + [Put(k, x)], allocMin) == Dropped(log, allocMin)
  {
    Snoc(log, Take(k), allocMin);
    Snoc(log, Clear, allocMin);
    Snoc(log, Put(k, x), allocMin);
  }

  // ----- ownership

  lemma EventConserves<T>(e: Event<T>, s: State<T>, allocMin: nat)
    ensures multiset(s.items) + multiset(Entering(e, s))
         == multiset(Apply(e, s, allocMin).items) + multiset(Leaving(e, s))
  {
    match e {
      case Put(k, x) =>
        if k <= |s.items| {
          assert s.items == s.items[..k] + s.items[k..];
        }
      case Take(k) =>
        if k < |s.items| {
          assert s.items == s.items[..k] + [s.items[k]] + s.items[k + 1..];
        }
      case Clear =>
    }
  }

  lemma Balance<T>(i: seq<T>, e: seq<T>, l: seq<T>, j: seq<T>, es: seq<T>, ls: seq<T>, k: seq<T>)
    requires multiset(i) + multiset(e) == multiset(j) + multiset(l)
    requires multiset(j) + multiset(es) == multiset(k) + multiset(ls)
    ensures multiset(i) + multiset(e + es) == multiset(k) + multiset(l + ls)
  {
    calc {
      multiset(i) + multiset(e + es);
      multiset(i) + multiset(e) + multiset(es);
      multiset(j) + multiset(es) + multiset(l);
      multiset(k) + multiset(ls) + multiset(l);
      multiset(k) + multiset(l + ls);
    }
  }

  lemma {:induction false} Conservation<T>(log: seq<Event<T>>, s: State<T>, allocMin: nat)
    ensures multiset(s.items) + multiset(EnteringAll(log, s, allocMin))
         == multiset(After(log, s, allocMin).items) + multiset(LeavingAll(log, s, allocMin))
    decreases log
  {
    if log != [] {
      var e, t := log[0], Apply(log[0], s, allocMin);
      EventConserves(e, s, allocMin);
      Conservation(log[1..], t, allocMin);
      Balance(s.items, Entering(e, s), Leaving(e, s), t.items, EnteringAll(log[1..], t, allocMin),
              LeavingAll(log[1..], t, allocMin), After(log, s, allocMin).items);
    }
  }

  /** Over every run, the elements added are those still in the list and those
      dropped, each counted once. */
  lemma Ownership<T>(log: seq<Event<T>>, allocMin: nat)
    ensures multiset(Added(log, allocMin))
         == multiset(Play(log, allocMin).items) + multiset(Dropped(log, allocMin))
  {
    Conservation(log, New(allocMin), allocMin);
  }

  // ----- capacity and cost

  ghost predicate Fits<T>(s: State<T>, allocMin: nat) {
    |s.items| <= s.alloc <= Capacity.Bound(|s.items|, allocMin)
  }

  ghost function Savings<T>(s: State<T>): int {
    Capacity.Potential(|s.items|, s.alloc)
  }

  lemma EventPays<T>(e: Event<T>, s: State<T>, allocMin: nat)
    requires Fits(s, allocMin)
    ensures var t := Apply(e, s, allocMin);
      && Fits(t, allocMin)
      && EventCopies(e, s, allocMin) + Savings(t) <= Savings(s) + (if e.Clear? then 4 * allocMin else 6)
  {
    match e {
      case Put(k, x) => PutPays(k, x, s, allocMin);
      case Take(k) => TakePays(k, s, allocMin);
      case Clear => Capacity.PotentialNonNegative(|s.items|, s.alloc);
    }
  }

  lemma PutPays<T>(k: nat, x: T, s: State<T>, allocMin: nat)
    requires Fits(s, allocMin)
    ensures var t := Apply(Put(k, x), s, allocMin);
      && Fits(t, allocMin)
      && Capacity.Copied(s.alloc, t.alloc) + Savings(t) <= Savings(s) + 6
  {
    Capacity.GrownFits(|s.items|, s.alloc, allocMin);
    Capacity.InsertPays(|s.items|, s.alloc);
  }

  lemma TakePays<T>(k: nat, s: State<T>, allocMin: nat)
    requires Fits(s, allocMin)
    ensures var t := Apply(Event<T>.Take(k), s, allocMin);
      && Fits(t, allocMin)
      && Capacity.Copied(s.alloc, t.alloc) + Savings(t) <= Savings(s) + 6
  {
    if k < |s.items| {
      Capacity.ShrunkFits(|s.items|, s.alloc, allocMin);
      Capacity.RemovePays(|s.items|, s.alloc, allocMin);
    }
  }

  /** What the events of a run may copy: 6 slots for an event on one element,
      as much as a new list can save up for a clear. */
  function Budget<T>(log: seq<Event<T>>, allocMin: nat): nat {
    if log == [] then 0 else (if log[0].Clear? then 4 * allocMin else 6) + Budget(log[1..], allocMin)
  }

  lemma {:induction false} BudgetIsLinear<T>(log: seq<Event<T>>, allocMin: nat)
    ensures 4 * allocMin + Budget(log, allocMin) == 6 * (|log| - Clears(log)) + 4 * allocMin * (1 + Clears(log))
  {
    if log != [] {
      BudgetIsLinear(log[1..], allocMin);
      var c := Clears(log[1..]);
      assert 4 * allocMin * (1 + (1 + c)) == 4 * allocMin * (1 + c) + 4 * allocMin;
    }
  }

  lemma {:induction false} RunPays<T>(log: seq<Event<T>>, s: State<T>, allocMin: nat)
    requires Fits(s, allocMin)
    ensures Fits(After(log, s, allocMin), allocMin)
    ensures CopiesAll(log, s, allocMin) + Savings(After(log, s, allocMin)) <= Savings(s) + Budget(log, allocMin)
    decreases log
  {
    if log != [] {
      EventPays(log[0], s, allocMin);
      RunPays(log[1..], Apply(log[0], s, allocMin), allocMin);
    }
  }

  /** In every reachable state the allocation fits the size, neither too small
      nor more than the larger of the initial allocation and twice the size. */
  lemma CapacityBound<T>(log: seq<Event<T>>, allocMin: nat)
    ensures Fits(Play(log, allocMin), allocMin)
  {
    RunPays(log, New(allocMin), allocMin);
  }

  /** Amortised cost: over every run the copies made by realloc are linear in
      the number of events, however they are mixed. */
  lemma AmortizedCost<T>(log: seq<Event<T>>, allocMin: nat)
    ensures Copies(log, allocMin) <= 6 * (|log| - Clears(log)) + 4 * allocMin * (1 + Clears(log))
  {
    RunPays(log, New(allocMin), allocMin);
    var s := Play(log, allocMin);
    Capacity.PotentialNonNegative(|s.items|, s.alloc);
    assert Copies(log, allocMin) <= 4 * allocMin + Budget(log, allocMin);
    BudgetIsLinear(log, allocMin);
  }

  /** A run that ends with the end of the list has dropped everything. */
  lemma EverythingDropped<T>(log: seq<Event<T>>, allocMin: nat)
    ensures multiset(Dropped(log, allocMin) + Play(log, allocMin).items) == multiset(Added(log, allocMin))
  {
    Ownership(log, allocMin);
  }

  // ----- the removals that make room for an element without duplicates

  /** The first index from k on whose element does not compare equal to x. */
  function EndOfRun<T>(cmp: Comparator<T>, s: seq<T>, k: nat, x: T): (end: nat)
    requires k <= |s|
    ensures k <= end <= |s|
    ensures forall i :: k <= i < end ==> cmp(s[i], x) == 0
    ensures end < |s| ==> cmp(s[end], x) != 0
    decreases |s| - k
  {
    if k < |s| && cmp(s[k], x) == 0 then EndOfRun(cmp, s, k + 1, x) else k
  }

  /** Removals at one index, as long as the element there compares equal. */
  function TakeRun<T>(cmp: Comparator<T>, s: seq<T>, k: nat, x: T): seq<Event<T>>
    decreases |s|
  {
    if k < |s| && cmp(s[k], x) == 0 then [Take(k)] + TakeRun(cmp, s[..k] + s[k + 1..], k, x) else []
  }

  /** Removals at every index whose element compares equal, from the front. */
  function TakeAll<T>(cmp: Comparator<T>, s: seq<T>, k: nat, x: T): seq<Event<T>>
    decreases |s|, |s| - k
  {
    if k >= |s| then []
    else if cmp(s[k], x) == 0 then [Take(k)] + TakeAll(cmp, s[..k] + s[k + 1..], k, x)
    else TakeAll(cmp, s, k + 1, x)
  }

  lemma TakeRunStep<T>(log: seq<Event<T>>, cmp: Comparator<T>, s: seq<T>, k: nat, x: T)
    requires k < |s| && cmp(s[k], x) == 0
    ensures log + TakeRun(cmp, s, k, x) == log + [Take(k)] + TakeRun(cmp, s[..k] + s[k + 1..], k, x)
  {
  }

  lemma TakeAllStep<T>(log: seq<Event<T>>, cmp: Comparator<T>, s: seq<T>, k: nat, x: T)
    requires k < |s| && cmp(s[k], x) == 0
    ensures log + TakeAll(cmp, s, k, x) == log + [Take(k)] + TakeAll(cmp, s[..k] + s[k + 1..], k, x)
  {
  }

  /** What a removal at k leaves when the elements up to end go after it. */
  lemma OneLess<T>(s: seq<T>, k: nat, end: nat)
    requires k < end <= |s|
    ensures var t := s[..k] + s[k + 1..];
      t[..k] + t[end - 1..] == s[..k] + s[end..] && [s[k]] + t[k..end - 1] == s[k..end]
  {
  }

  lemma {:induction false} EndOfRunShift<T>(cmp: Comparator<T>, s: seq<T>, k: nat, m: nat, x: T)
    requires k < m <= |s|
    ensures EndOfRun(cmp, s[..k] + s[k + 1..], m - 1, x) == EndOfRun(cmp, s, m, x) - 1
    decreases |s| - m
  {
    if m < |s| {
      assert (s[..k] + s[k + 1..])[m - 1] == s[m];
      if cmp(s[m], x) == 0 {
        EndOfRunShift(cmp, s, k, m + 1, x);
      }
    }
  }

  /** A run without its first element ends one earlier. */
  lemma ShorterRun<T>(cmp: Comparator<T>, s: seq<T>, k: nat, x: T)
    requires k < |s| && cmp(s[k], x) == 0
    ensures EndOfRun(cmp, s, k, x) > k
    ensures EndOfRun(cmp, s[..k] + s[k + 1..], k, x) == EndOfRun(cmp, s, k, x) - 1
  {
    EndOfRunShift(cmp, s, k, k + 1, x);
  }

  /** The first of some removals. */
  lemma TakeFirst<T>(k: nat, es: seq<Event<T>>, s: State<T>, allocMin: nat)
    requires k < |s.items|
    ensures var t := Apply(Take(k), s, allocMin);
      && t.items == s.items[..k] + s.items[k + 1..]
      && After([Take(k)] + es, s, allocMin) == After(es, t, allocMin)
      && LeavingAll([Take(k)] + es, s, allocMin) == [s.items[k]] + LeavingAll(es, t, allocMin)
  {
    assert ([Take(k)] + es)[1..] == es;
  }

  lemma NothingOut<T>(i: seq<T>, k: nat)
    requires k <= |i|
    ensures i == i[..k] + i[k..] && i[k..k] == []
  {
  }

  lemma OneMoreOfRun<T>(k: nat, end: nat, es: seq<Event<T>>, s: State<T>, allocMin: nat)
    requires k < end <= |s.items|
    requires var t := Apply(Take(k), s, allocMin);
      && |t.items| == |s.items| - 1
      && After(es, t, allocMin).items == t.items[..k] + t.items[end - 1..]
      && LeavingAll(es, t, allocMin) == t.items[k..end - 1]
    ensures After([Take(k)] + es, s, allocMin).items == s.items[..k] + s.items[end..]
    ensures LeavingAll([Take(k)] + es, s, allocMin) == s.items[k..end]
  {
    TakeFirst(k, es, s, allocMin);
    OneLess(s.items, k, end);
  }

  lemma {:induction false} TakeRunEffect<T>(cmp: Comparator<T>, s: State<T>, k: nat, x: T, allocMin: nat)
    requires k <= |s.items|
    ensures var es, end := TakeRun(cmp, s.items, k, x), EndOfRun(cmp, s.items, k, x);
      && After(es, s, allocMin).items == s.items[..k] + s.items[end..]
      && LeavingAll(es, s, allocMin) == s.items[k..end]
      && |es| == end - k
    decreases |s.items|
  {
    var i := s.items;
    if k < |i| && cmp(i[k], x) == 0 {
      var t := Apply(Take(k), s, allocMin);
      var end := EndOfRun(cmp, i, k, x);
      assert t.items == i[..k] + i[k + 1..];
      ShorterRun(cmp, i, k, x);
      TakeRunEffect(cmp, t, k, x, allocMin);
      OneMoreOfRun(k, end, TakeRun(cmp, t.items, k, x), s, allocMin);
    } else {
      NothingOut(i, k);
    }
  }

  lemma OneOut<T>(i: seq<T>, k: nat)
    requires k < |i|
    ensures var t := i[..k] + i[k + 1..]; t[..k] == i[..k] && t[k..] == i[k + 1..] == i[k..][1..]
    ensures i[..k + 1] == i[..k] + [i[k]]
  {
  }

  lemma {:induction false} TakeAllEffect<T>(cmp: Comparator<T>, s: State<T>, k: nat, x: T, allocMin: nat)
    requires k <= |s.items|
    ensures var es := TakeAll(cmp, s.items, k, x);
      && After(es, s, allocMin).items == s.items[..k] + Without(cmp, s.items[k..], x)
      && LeavingAll(es, s, allocMin) == Matching(cmp, s.items[k..], x)
    decreases |s.items|, |s.items| - k
  {
    var i := s.items;
    if k < |i| {
      OneOut(i, k);
      if cmp(i[k], x) == 0 {
        var t := Apply(Take(k), s, allocMin);
        TakeAllEffect(cmp, t, k, x, allocMin);
        TakeFirst(k, TakeAll(cmp, t.items, k, x), s, allocMin);
      } else {
        TakeAllEffect(cmp, s, k + 1, x, allocMin);
      }
    }
  }

  lemma {:induction false} TakeAllLength<T>(cmp: Comparator<T>, s: seq<T>, k: nat, x: T)
    requires k <= |s|
    ensures |TakeAll(cmp, s, k, x)| == |s[k..]| - |Without(cmp, s[k..], x)|
    decreases |s|, |s| - k
  {
    if k < |s| {
      assert s[k..][1..] == s[k + 1..];
      if cmp(s[k], x) == 0 {
        TakeAllLength(cmp, s[..k] + s[k + 1..], k, x);
        assert (s[..k] + s[k + 1..])[k..] == s[k + 1..];
      } else {
        TakeAllLength(cmp, s, k + 1, x);
      }
    }
  }

  /** The removals that come before x is put into a list with settings c. */
  function MakeRoom<T>(c: Config<T>, s: seq<T>, x: T): seq<Event<T>> {
    if c.duplicates then []
    else if c.sorted then TakeRun(c.cmp, s, Lower(c.cmp, x, s), x)
    else TakeAll(c.cmp, s, 0, x)
  }

  lemma {:induction false} EndOfRunIs<T>(cmp: Comparator<T>, s: seq<T>, k: nat, end: nat, x: T)
    requires k <= end <= |s|
    requires forall i :: k <= i < end ==> cmp(s[i], x) == 0
    requires end < |s| ==> cmp(s[end], x) != 0
    ensures EndOfRun(cmp, s, k, x) == end
    decreases end - k
  {
    if k < end {
      EndOfRunIs(cmp, s, k + 1, end, x);
    }
  }

  lemma RunOfEquals<T>(cmp: Comparator<T>, s: seq<T>, x: T)
    requires Splits(cmp, x, s) && Symmetric(cmp, x, s)
    ensures EndOfRun(cmp, s, Lower(cmp, x, s), x) == Upper(cmp, x, s)
  {
    ScansBracketEquals(cmp, x, s);
    EndOfRunIs(cmp, s, Lower(cmp, x, s), Upper(cmp, x, s), x);
  }

  /** Making room drops exactly the elements that compare equal, in their order. */
  lemma MakeRoomEffect<T>(c: Config<T>, s: State<T>, x: T, allocMin: nat)
    requires Insertable(c, s.items, x)
    ensures After(MakeRoom(c, s.items, x), s, allocMin).items == Kept(c, s.items, x)
    ensures LeavingAll(MakeRoom(c, s.items, x), s, allocMin) == Gone(c, s.items, x)
  {
    if !c.duplicates {
      if c.sorted {
        RunOfEquals(c.cmp, s.items, x);
        EqualsAreABlock(c.cmp, s.items, x);
        TakeRunEffect(c.cmp, s, Lower(c.cmp, x, s.items), x, allocMin);
      } else {
        TakeAllEffect(c.cmp, s, 0, x, allocMin);
        assert s.items[0..] == s.items;
      }
    }
  }

  /** The events of one insertion, and what they amount to. */
  function InsertEvents<T>(c: Config<T>, s: seq<T>, index: int, x: T): seq<Event<T>>
    requires 0 <= Position(c, s, index, x)
  {
    MakeRoom(c, s, x) + [Put(Position(c, s, index, x), x)]
  }

  lemma InsertEffect<T>(c: Config<T>, log: seq<Event<T>>, index: int, x: T, allocMin: nat)
    requires Insertable(c, Play(log, allocMin).items, x)
    ensures var s := Play(log, allocMin).items;
      && 0 <= Position(c, s, index, x) <= |Kept(c, s, x)|
      && Play(log + MakeRoom(c, s, x), allocMin).items == Kept(c, s, x)
      && Play(log + InsertEvents(c, s, index, x), allocMin).items == Inserted(c, s, index, x)
      && Dropped(log + InsertEvents(c, s, index, x), allocMin) == Dropped(log, allocMin) + Gone(c, s, x)
  {
    var s := Play(log, allocMin).items;
    PositionFits(c, s, index, x);
    AfterConcat(log, MakeRoom(c, s, x), New(allocMin), allocMin);
    LeavingConcat(log, MakeRoom(c, s, x), New(allocMin), allocMin);
    MakeRoomEffect(c, Play(log, allocMin), x, allocMin);
    var put := Put(Position(c, s, index, x), x);
    Snoc(log + MakeRoom(c, s, x), put, allocMin);
    assert log + InsertEvents(c, s, index, x) == log + MakeRoom(c, s, x) + [put];
  }
  // ----- the initial allocation is no floor

  function Puts<T>(n: nat, x: T): (log: seq<Event<T>>) {
    if n == 0 then [] else Puts(n - 1, x) + [Put(0, x)]
  }

  /** A log, and then elements taken from the front. */
  function Drained<T>(log: seq<Event<T>>, n: nat): seq<Event<T>> {
    if n == 0 then log else Drained(log, n - 1) + [Take(0)]
  }

  lemma {:induction false} PutsFill<T>(n: nat, x: T, allocMin: nat)
    requires 2 <= allocMin && n <= allocMin + 1
    ensures var s := Play(Puts(n, x), allocMin);
      |s.items| == n && s.alloc == if n <= allocMin then allocMin else allocMin + allocMin / 2
  {
    if n > 0 {
      PutsFill(n - 1, x, allocMin);
      Snoc(Puts(n - 1, x), Put(0, x), allocMin);
    }
  }

  /** Nothing is released as long as more than half of the slots stay in use. */
  lemma {:induction false} TakesKeep<T>(log: seq<Event<T>>, n: nat, allocMin: nat)
    requires var s := Play(log, allocMin);
      n <= |s.items| && s.alloc >= 2 && |s.items| - n >= s.alloc - s.alloc / 2
    ensures var s, r := Play(log, allocMin), Play(Drained(log, n), allocMin);
      |r.items| == |s.items| - n && r.alloc == s.alloc
  {
    if n > 0 {
      TakesKeep(log, n - 1, allocMin);
      Snoc(Drained(log, n - 1), Take(0), allocMin);
    }
  }

  /** A list that has grown beyond its initial allocation, by one element, and then
      lost elements until half of the slots were free. */
  function GrownAndDrained<T>(allocMin: nat, x: T): seq<Event<T>>
    requires allocMin >= 3
  {
    var alloc := allocMin + allocMin / 2;
    Drained(Puts(allocMin + 1, x), allocMin + 2 - (alloc - alloc / 2))
  }

  lemma HalfIsLeft<T>(allocMin: nat, x: T)
    requires allocMin >= 3
    ensures var alloc := allocMin + allocMin / 2;
      Play(GrownAndDrained(allocMin, x), allocMin).alloc == alloc - alloc / 2 < allocMin
  {
    var alloc := allocMin + allocMin / 2;
    var half := alloc - alloc / 2;
    var log, n := Puts(allocMin + 1, x), allocMin + 1 - half;
    PutsFill(allocMin + 1, x, allocMin);
    TakesKeep(log, n, allocMin);
    Snoc(Drained(log, n), Take(0), allocMin);
  }

  lemma SmallStays(size: nat, alloc: nat, allocMin: nat)
    requires allocMin <= 2 && allocMin <= alloc && 1 <= size
    ensures allocMin <= Capacity.Shrunk(size, alloc, allocMin)
  {
  }

  lemma {:induction false} SmallIsFloor<T>(log: seq<Event<T>>, allocMin: nat)
    requires allocMin <= 2
    ensures Play(log, allocMin).alloc >= allocMin
    decreases |log|
  {
    if log != [] {
      var front, e := log[..|log| - 1], log[|log| - 1];
      assert log == front + [e];
      SmallIsFloor(front, allocMin);
      Snoc(front, e, allocMin);
      if e.Take? && e.k < |Play(front, allocMin).items| {
        SmallStays(|Play(front, allocMin).items|, Play(front, allocMin).alloc, allocMin);
      }
    }
  }

  /** The initial allocation is the least one a list can come to, whatever happens
      to it, if and only if it is at most 2. */
  lemma NoFloorExactly<T>(allocMin: nat, x: T)
    ensures (forall log: seq<Event<T>> :: Play(log, allocMin).alloc >= allocMin) <==> allocMin <= 2
  {
    if allocMin <= 2 {
      forall log: seq<Event<T>> ensures Play(log, allocMin).alloc >= allocMin {
        SmallIsFloor(log, allocMin);
      }
    } else {
      HalfIsLeft(allocMin, x);
    }
  }

  /** A list that starts with 32 slots, gets 33 elements and loses 10 of them has
      24 slots. */
  lemma ThirtyTwoBecome24<T>(x: T)
    ensures Play(Drained(Puts(33, x), 10), 32).alloc == 24
  {
    HalfIsLeft(32, x);
  }
}
