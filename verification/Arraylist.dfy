/** The dynamic array of src/core/core-arraylist.c. */
module Arraylist {
  import opened Wrappers
  import opened Ordering
  import opened ListSpec
  import opened ListHistory
  import opened ListMeaning
  import Capacity

  class Arraylist<T> {
    /** The slots; None stands for a NULL slot. Its length is size_alloc. */
    var data: array<Option<T>>
    var size: nat
    const allocMin: nat
    const sorted: bool
    const duplicates: bool
    const cmp: Comparator<T>
    /** Whether there is a free callback, and the calls made to it, in order. */
    const hasFree: bool
    var freed: seq<T>

    /** Everything that happened to the list since it was created. */
    ghost var log: seq<Event<T>>

    ghost function Settings(): Config<T> {
      Config(sorted, duplicates, cmp)
    }

    /** The first n slots hold elements, the others are NULL. */
    ghost predicate Filled(n: nat)
      reads this`data, data
    {
      && n <= data.Length
      && (forall i :: 0 <= i < n ==> data[i].Some?)
      && (forall i :: n <= i < data.Length ==> data[i].None?)
    }

    static ghost function Values(slots: seq<Option<T>>): seq<T>
      requires forall i :: 0 <= i < |slots| ==> slots[i].Some?
    {
      seq(|slots|, i requires 0 <= i < |slots| => slots[i].value)
    }

    /** The first n elements. */
    ghost function Elements(n: nat): (s: seq<T>)
      requires Filled(n)
      reads this`data, data
      ensures |s| == n
      ensures forall i :: 0 <= i < n ==> data[i] == Some(s[i])
    {
      Values(data[..n])
    }

    ghost function Contents(): (s: seq<T>)
      requires Filled(size)
      reads this`size, this`data, data
      ensures |s| == size
      ensures forall i :: 0 <= i < size ==> data[i] == Some(s[i])
    {
      Elements(size)
    }

    ghost predicate Valid()
      reads this, data
    {
      && Filled(size)
      && Play(log, allocMin) == State(Contents(), data.Length)
      && freed == (if hasFree then Dropped(log, allocMin) else [])
    }

    constructor (initialSize: nat, sorted: bool, duplicates: bool, cmp: Comparator<T>, hasFree: bool)
      ensures Valid() && fresh(data)
      ensures Contents() == [] && data.Length == initialSize == allocMin
      ensures this.sorted == sorted && this.duplicates == duplicates && this.cmp == cmp
      ensures this.hasFree == hasFree && freed == []
      ensures log == []
    {
      data := new Option<T>[initialSize](_ => None);
      size := 0;
      allocMin := initialSize;
      this.sorted, this.duplicates, this.cmp, this.hasFree := sorted, duplicates, cmp, hasFree;
      freed, log := [], [];
    }

    method Get(index: int) returns (r: Option<T>)
      requires Valid()
      ensures r == if 0 <= index < size then Some(Contents()[index]) else None
    {
      if index < 0 || index >= size {
        return None;
      }
      return data[index];
    }

    method Realloc(newAlloc: nat)
      modifies this`data
      ensures fresh(data) && data.Length == newAlloc
      ensures forall i :: 0 <= i < newAlloc ==>
        data[i] == if i < old(data.Length) then old(data[i]) else None
    {
      var previous := data;
      data := new Option<T>[newAlloc](i reads previous => if 0 <= i < previous.Length then previous[i] else None);
    }

    method Grow()
      requires Filled(size)
      modifies this`data
      ensures data == old(data) || fresh(data)
      ensures Filled(size) && Contents() == old(Contents())
      ensures data.Length == Capacity.Grown(size, old(data.Length))
    {
      if size + 1 <= data.Length {
        return;
      }
      var newAlloc := if data.Length < 2 then 2 else data.Length + data.Length / 2;
      Realloc(newAlloc);
    }

    /** Called while an element is being removed: size still counts it. */
    method Shrink()
      requires 1 <= size <= data.Length && Filled(size - 1)
      modifies this`data
      ensures data == old(data) || fresh(data)
      ensures data.Length == Capacity.Shrunk(size, old(data.Length), allocMin)
      ensures Filled(size - 1) && Elements(size - 1) == old(Elements(size - 1))
    {
      if data.Length == 0 || data.Length <= allocMin {
        return;
      }
      if data.Length == 1 {
        data := new Option<T>[0](_ => None);
        return;
      }
      var newAlloc := data.Length - data.Length / 2;
      if size - 1 >= newAlloc {
        return;
      }
      Realloc(newAlloc);
    }

    /** The free callback, memmove and memset of a removal: the element leaves
        its slot and the last slot in use becomes NULL. */
    method Vacate(index: nat)
      requires index < size && Filled(size)
      modifies this`freed, data
      ensures Filled(size - 1)
      ensures Elements(size - 1) == old(Contents())[..index] + old(Contents())[index + 1..]
      ensures freed == old(freed) + (if hasFree then [old(Contents())[index]] else [])
    {
      if hasFree {
        freed := freed + [data[index].value];
      }
      CloseGap(index);
    }

    /** The memmove and memset of a removal. */
    method CloseGap(index: nat)
      requires index < size && Filled(size)
      modifies data
      ensures Filled(size - 1)
      ensures Elements(size - 1) == old(Contents())[..index] + old(Contents())[index + 1..]
    {
      forall i | index <= i < size - 1 {
        data[i] := data[i + 1];
      }
      data[size - 1] := None;
    }

    method Remove(index: int) returns (r: int)
      requires Valid()
      modifies this, data
      ensures Valid() && (data == old(data) || fresh(data))
      ensures Added(log, allocMin) == old(Added(log, allocMin))
      ensures r == if 0 <= index < old(size) then index else -1
      ensures r < 0 ==> Contents() == old(Contents()) && log == old(log)
      ensures r >= 0 ==> Contents() == old(Contents())[..index] + old(Contents())[index + 1..]
      ensures r >= 0 ==> log == old(log) + [Take(index)]
    {
      if index < 0 || index >= size {
        return -1;
      }
      TakeOut(index);
      return index;
    }

    method TakeOut(index: nat)
      requires Valid() && index < size
      modifies this, data
      ensures Valid() && (data == old(data) || fresh(data))
      ensures Added(log, allocMin) == old(Added(log, allocMin))
      ensures Contents() == old(Contents())[..index] + old(Contents())[index + 1..]
      ensures log == old(log) + [Take(index)]
    {
      Snoc(log, Take(index), allocMin);
      SnocAdded(log, Take(index), allocMin);
      Vacate(index);
      Shrink();
      size := size - 1;
      log := log + [Take(index)];
    }

    method Clear()
      requires Valid()
      modifies this, data
      ensures Valid() && (data == old(data) || fresh(data))
      ensures Added(log, allocMin) == old(Added(log, allocMin))
      ensures Contents() == [] && data.Length == allocMin && log == old(log) + [Event.Clear]
      ensures freed == old(freed) + if hasFree then old(Contents()) else []
    {
      Snoc(log, Event.Clear, allocMin);
      SnocAdded(log, Event.Clear, allocMin);
      FreeAll();
      ResetSlots();
      size := 0;
      log := log + [Event.Clear];
    }

    method ResetSlots()
      modifies this`data, data
      ensures data == old(data) || fresh(data)
      ensures data.Length == allocMin && Filled(0)
    {
      if data.Length != allocMin {
        data := new Option<T>[allocMin](_ => None);
      } else {
        forall i | 0 <= i < data.Length {
          data[i] := None;
        }
      }
    }

    /** Calls the free callback on every element, in order. */
    method FreeAll()
      requires Filled(size)
      modifies this`freed
      ensures freed == old(freed) + (if hasFree then Contents() else [])
    {
      if hasFree {
        var i := 0;
        while i < size
          invariant 0 <= i <= size
          invariant freed == old(freed) + Contents()[..i]
        {
          freed := freed + [data[i].value];
          i := i + 1;
        }
      }
    }

    /** The end of a list: after it every element ever added has been given to
        the free callback exactly once, if there is one. Every insertion adds the
        element inserted to Added, whatever the comparator does, and nothing else
        changes it. */
    method Free()
      requires Valid()
      modifies this`freed
      ensures hasFree ==> multiset(freed) == multiset(Added(log, allocMin))
      ensures freed == old(freed) + if hasFree then Contents() else []
      ensures !hasFree ==> freed == []
    {
      EverythingDropped(log, allocMin);
      FreeAll();
    }

    // ----- searching

    /** The fast paths and the binary search proper: some element that compares
        equal to pointer and the index behind it, or -1 and the index at which
        pointer would be inserted (-1 again for the end of the list). */
    method Locate(pointer: T) returns (index: int, indexInsert: int)
      requires Valid() && size > 0
      ensures -1 <= index < size && -1 <= indexInsert <= size
      ensures index >= 0 ==> cmp(pointer, Contents()[index]) == 0 && indexInsert == index + 1
      ensures index < 0 && Splits(cmp, pointer, Contents()) ==>
        && Lower(cmp, pointer, Contents()) == Upper(cmp, pointer, Contents())
        && indexInsert == (if Lower(cmp, pointer, Contents()) == size then -1 else Lower(cmp, pointer, Contents()))
    {
      ghost var s := Contents();
      var start, end := 0, size - 1;
      var rc := cmp(pointer, data[end].value);
      if rc == 0 {
        return end, end + 1;
      }
      if rc > 0 {
        Absent(cmp, pointer, s, size);
        return -1, -1;
      }
      if size == 1 {
        Absent(cmp, pointer, s, 0);
        return -1, 0;
      }
      rc := cmp(pointer, data[start].value);
      if rc == 0 {
        return start, start + 1;
      }
      if rc < 0 {
        Absent(cmp, pointer, s, 0);
        return -1, start;
      }
      if size == 2 {
        Absent(cmp, pointer, s, 1);
        return -1, end;
      }
      index, indexInsert := Bisect(pointer, start + 1, end - 1);
    }

    /** The loop of the binary search between two elements that enclose pointer. */
    method Bisect(pointer: T, first: int, last: int) returns (index: int, indexInsert: int)
      requires Valid() && 1 <= first <= last + 1 < size
      requires cmp(pointer, Contents()[first - 1]) > 0 && cmp(pointer, Contents()[last + 1]) < 0
      requires first <= last
      ensures -1 <= index < size && -1 <= indexInsert <= size
      ensures index >= 0 ==> cmp(pointer, Contents()[index]) == 0 && indexInsert == index + 1
      ensures index < 0 && Splits(cmp, pointer, Contents()) ==>
        && Lower(cmp, pointer, Contents()) == Upper(cmp, pointer, Contents())
        && indexInsert == (if Lower(cmp, pointer, Contents()) == size then -1 else Lower(cmp, pointer, Contents()))
    {
      ghost var s := Contents();
      var start, end := first, last;
      index, indexInsert := -1, -1;
      while start <= end
        invariant 1 <= start <= end + 1 < size
        invariant cmp(pointer, s[start - 1]) > 0
        invariant cmp(pointer, s[end + 1]) < 0
        invariant index == -1
        invariant indexInsert == if start > end then start else -1
      {
        var middle := (start + end) / 2;
        var rc := cmp(pointer, data[middle].value);
        if rc == 0 {
          return middle, middle + 1;
        }
        if rc < 0 {
          end := middle - 1;
        } else {
          start := middle + 1;
        }
        if start > end {
          index := -1;
          indexInsert := if rc < 0 then middle else middle + 1;
        }
      }
      Absent(cmp, pointer, s, start);
    }

    /** From one equal element to the first and the last of the run around it. */
    method Widen(pointer: T, index: nat) returns (start: nat, end: nat)
      requires Valid() && index < size && cmp(pointer, Contents()[index]) == 0
      ensures start <= index < end <= size
      ensures forall i :: start <= i < end ==> cmp(pointer, Contents()[i]) == 0
      ensures start > 0 ==> cmp(pointer, Contents()[start - 1]) != 0
      ensures end < size ==> cmp(pointer, Contents()[end]) != 0
    {
      ghost var s := Contents();
      var i: int := index - 1;
      while i >= 0 && cmp(pointer, data[i].value) == 0
        invariant -1 <= i < index
        invariant forall j :: i < j <= index ==> cmp(pointer, s[j]) == 0
      {
        i := i - 1;
      }
      start := i + 1;
      end := index + 1;
      while end < size && cmp(pointer, data[end].value) == 0
        invariant index < end <= size
        invariant forall j :: index <= j < end ==> cmp(pointer, s[j]) == 0
      {
        end := end + 1;
      }
    }

    method BinarySearch(pointer: T) returns (found: Option<T>, index: int, indexInsert: int)
      requires Valid() && size > 0
      ensures FoundAt(found, index, indexInsert, pointer)
      ensures Splits(cmp, pointer, Contents()) ==> SortedResult(index, indexInsert, pointer)
    {
      index, indexInsert := Locate(pointer);
      ghost var s := Contents();
      if index >= 0 {
        Present(cmp, pointer, s, index);
        if duplicates {
          var start, end := Widen(pointer, index);
          assert Contents() == s;
          RunIsBlock(cmp, pointer, s, start, end);
          index, indexInsert := start, end;
        }
      }
      found := if index >= 0 then data[index] else None;
    }

    method StandardSearch(pointer: T) returns (found: Option<T>, index: int, indexInsert: int)
      requires Valid()
      ensures indexInsert == -1 && -1 <= index < size
      ensures index < 0 ==> found == None && forall i :: 0 <= i < size ==> cmp(Contents()[i], pointer) != 0
      ensures index >= 0 ==>
        && found == Some(Contents()[index]) && cmp(Contents()[index], pointer) == 0
        && forall i :: 0 <= i < index ==> cmp(Contents()[i], pointer) != 0
    {
      var i := 0;
      while i < size
        invariant 0 <= i <= size
        invariant forall j :: 0 <= j < i ==> cmp(Contents()[j], pointer) != 0
      {
        if cmp(data[i].value, pointer) == 0 {
          return data[i], i, -1;
        }
        i := i + 1;
      }
      return None, -1, -1;
    }

    /** What a search of a sorted list always gives. */
    ghost predicate FoundAt(found: Option<T>, index: int, indexInsert: int, pointer: T)
      requires Filled(size)
      reads this`size, this`data, data
    {
      && -1 <= index < size && -1 <= indexInsert <= size
      && found == (if index >= 0 then Some(Contents()[index]) else None)
      && (index >= 0 ==> cmp(pointer, Contents()[index]) == 0)
    }

    /** What it gives when the list is indeed sorted, measured against the two
        linear scans: with duplicates the first equal element and the place
        behind the last one; an absent element's place, -1 being the end. */
    ghost predicate SortedResult(index: int, indexInsert: int, pointer: T)
      requires Filled(size)
      reads this`size, this`data, data
    {
      var lo, hi := Lower(cmp, pointer, Contents()), Upper(cmp, pointer, Contents());
      if lo >= hi then lo == hi && index == -1 && indexInsert == (if lo == size then -1 else lo)
      else if duplicates then index == lo && indexInsert == hi
      else lo <= index < hi && indexInsert == index + 1
    }

    method Search(pointer: T) returns (found: Option<T>, index: int, indexInsert: int)
      requires Valid()
      ensures sorted ==> FoundAt(found, index, indexInsert, pointer)
      ensures sorted && Splits(cmp, pointer, Contents()) ==> SortedResult(index, indexInsert, pointer)
      ensures !sorted ==> indexInsert == -1 && -1 <= index < size
      ensures !sorted && index < 0 ==> found == None && forall i :: 0 <= i < size ==> cmp(Contents()[i], pointer) != 0
      ensures !sorted && index >= 0 ==>
        && found == Some(Contents()[index]) && cmp(Contents()[index], pointer) == 0
        && forall i :: 0 <= i < index ==> cmp(Contents()[i], pointer) != 0
    {
      if size == 0 {
        return None, -1, -1;
      }
      if sorted {
        found, index, indexInsert := BinarySearch(pointer);
      } else {
        found, index, indexInsert := StandardSearch(pointer);
      }
    }

    // ----- inserting

    /** memmove and storing the element, when a slot is free. */
    method OpenSlot(index: nat, pointer: T)
      requires Filled(size) && index <= size < data.Length
      modifies data
      ensures Filled(size + 1)
      ensures Elements(size + 1) == Placed(old(Contents()), index, pointer)
    {
      forall i | index <= i < size {
        data[i + 1] := data[i];
      }
      data[index] := Some(pointer);
    }

    method PutIn(index: nat, pointer: T)
      requires Valid() && index <= size
      modifies this, data
      ensures Valid() && (data == old(data) || fresh(data))
      ensures Added(log, allocMin) == old(Added(log, allocMin)) + [pointer]
      ensures Contents() == Placed(old(Contents()), index, pointer)
      ensures log == old(log) + [Put(index, pointer)]
    {
      Snoc(log, Put(index, pointer), allocMin);
      SnocAdded(log, Put(index, pointer), allocMin);
      CapacityBound(log, allocMin);
      Grow();
      OpenSlot(index, pointer);
      size := size + 1;
      log := log + [Put(index, pointer)];
    }

    /** Removes elements at index as long as the one there compares equal. */
    method DropRun(index: nat, pointer: T)
      requires Valid() && index < size
      modifies this, data
      ensures Valid() && (data == old(data) || fresh(data))
      ensures Added(log, allocMin) == old(Added(log, allocMin))
      ensures log == old(log) + TakeRun(cmp, old(Contents()), index, pointer)
    {
      ghost var s := Contents();
      while index < size && cmp(data[index].value, pointer) == 0
        invariant Valid() && (data == old(data) || fresh(data))
        invariant Added(log, allocMin) == old(Added(log, allocMin))
        invariant log + TakeRun(cmp, Contents(), index, pointer) == old(log) + TakeRun(cmp, s, index, pointer)
        decreases size
      {
        TakeRunStep(log, cmp, Contents(), index, pointer);
        var _ := Remove(index);
      }
    }

    /** Removes every element that compares equal, from the front. */
    method DropAll(pointer: T)
      requires Valid()
      modifies this, data
      ensures Valid() && (data == old(data) || fresh(data))
      ensures Added(log, allocMin) == old(Added(log, allocMin))
      ensures log == old(log) + TakeAll(cmp, old(Contents()), 0, pointer)
    {
      ghost var s := Contents();
      var i := 0;
      while i < size
        invariant Valid() && (data == old(data) || fresh(data))
        invariant Added(log, allocMin) == old(Added(log, allocMin))
        invariant 0 <= i <= size
        invariant log + TakeAll(cmp, Contents(), i, pointer) == old(log) + TakeAll(cmp, s, 0, pointer)
        decreases size, size - i
      {
        if cmp(data[i].value, pointer) == 0 {
          TakeAllStep(log, cmp, Contents(), i, pointer);
          var _ := Remove(i);
        } else {
          i := i + 1;
        }
      }
    }

    /** Inserts an element; with duplicates off, whatever compares equal is
        removed first. A sorted list ignores the index given, another list ignores
        one outside of it. */
    method Insert(index: int, pointer: T) returns (r: int)
      requires Valid()
      modifies this, data
      ensures Valid() && (data == old(data) || fresh(data))
      ensures Added(log, allocMin) == old(Added(log, allocMin)) + [pointer]
      ensures 0 <= r < size && Contents()[r] == pointer
      ensures !sorted && duplicates && 0 <= index <= old(size) ==>
        r == index && Contents() == old(Contents())[..index] + [pointer] + old(Contents())[index..]
      ensures !sorted && duplicates && !(0 <= index <= old(size)) ==>
        r == old(size) && Contents() == old(Contents()) + [pointer]
      ensures Insertable(Settings(), old(Contents()), pointer) ==>
        && r == Position(Settings(), old(Contents()), index, pointer)
        && log == old(log) + InsertEvents(Settings(), old(Contents()), index, pointer)
        && 0 <= r <= |Kept(Settings(), old(Contents()), pointer)|
        && Contents() == Inserted(Settings(), old(Contents()), index, pointer)
        && Dropped(log, allocMin) == old(Dropped(log, allocMin)) + Gone(Settings(), old(Contents()), pointer)
    {
      ghost var s, l := Contents(), log;
      r := InsertElement(index, pointer);
      if Insertable(Settings(), s, pointer) {
        InsertEffect(Settings(), l, index, pointer, allocMin);
      }
      if !sorted && duplicates {
        Unsorted(Settings(), s, index, pointer);
      }
    }

    method InsertElement(index: int, pointer: T) returns (r: int)
      requires Valid()
      modifies this, data
      ensures Valid() && (data == old(data) || fresh(data))
      ensures Added(log, allocMin) == old(Added(log, allocMin)) + [pointer]
      ensures 0 <= r < size && Contents()[r] == pointer
      ensures Insertable(Settings(), old(Contents()), pointer) ==>
        && r == Position(Settings(), old(Contents()), index, pointer)
        && log == old(log) + InsertEvents(Settings(), old(Contents()), index, pointer)
    {
      var at := RoomFor(index, pointer);
      PutIn(at, pointer);
      return at;
    }

    /** What comes before the placement: removes an equal element if it may not
        stay, and returns the index to insert at. */
    method RoomFor(index: int, pointer: T) returns (at: int)
      requires Valid()
      modifies this, data
      ensures Valid() && (data == old(data) || fresh(data))
      ensures Added(log, allocMin) == old(Added(log, allocMin))
      ensures 0 <= at <= size
      ensures Insertable(Settings(), old(Contents()), pointer) ==>
        && log == old(log) + MakeRoom(Settings(), old(Contents()), pointer)
        && at == Position(Settings(), old(Contents()), index, pointer)
    {
      ghost var s := Contents();
      if Insertable(Settings(), s, pointer) {
        InsertEffect(Settings(), log, index, pointer, allocMin);
      }
      at := index;
      if sorted {
        at := MakeSortedRoom(pointer);
      } else if !duplicates {
        DropAll(pointer);
      }
      if at < 0 || at > size {
        at := size;
      }
    }

    /** The sorted half of an insertion: searches the place, removes an equal
        element if it may not stay, and returns the index to insert at. */
    method MakeSortedRoom(pointer: T) returns (at: int)
      requires Valid() && sorted
      modifies this, data
      ensures Valid() && (data == old(data) || fresh(data))
      ensures Added(log, allocMin) == old(Added(log, allocMin))
      ensures Insertable(Settings(), old(Contents()), pointer) ==>
        && log == old(log) + MakeRoom(Settings(), old(Contents()), pointer)
        && (if at < 0 || at > size then size else at) == Position(Settings(), old(Contents()), 0, pointer)
    {
      ghost var s := Contents();
      var _, index, indexInsert := Search(pointer);
      if Insertable(Settings(), s, pointer) {
        SortedRoom(Settings(), s, log, pointer, allocMin);
      }
      if index >= 0 && !duplicates {
        DropRun(index, pointer);
        return index;
      }
      return indexInsert;
    }

    method Add(pointer: T) returns (r: int)
      requires Valid()
      modifies this, data
      ensures Valid() && (data == old(data) || fresh(data))
      ensures Added(log, allocMin) == old(Added(log, allocMin)) + [pointer]
      ensures 0 <= r < size && Contents()[r] == pointer
      ensures Insertable(Settings(), old(Contents()), pointer) ==>
        && r == Position(Settings(), old(Contents()), -1, pointer)
        && log == old(log) + InsertEvents(Settings(), old(Contents()), -1, pointer)
        && 0 <= r <= |Kept(Settings(), old(Contents()), pointer)|
        && Contents() == Inserted(Settings(), old(Contents()), -1, pointer)
        && Dropped(log, allocMin) == old(Dropped(log, allocMin)) + Gone(Settings(), old(Contents()), pointer)
    {
      r := Insert(-1, pointer);
    }
  }

  /** In a sorted list without duplicates, a missing element has nothing to
      remove, and room is made by a run of removals. */
  lemma SortedRoom<T>(c: Config<T>, s: seq<T>, log: seq<Event<T>>, x: T, allocMin: nat)
    requires c.sorted && Insertable(c, s, x) && s == Play(log, allocMin).items
    ensures log + [] == log
    ensures Lower(c.cmp, x, s) <= Upper(c.cmp, x, s)
    ensures Lower(c.cmp, x, s) == Upper(c.cmp, x, s) ==> MakeRoom(c, s, x) == []
    ensures Play(log + MakeRoom(c, s, x), allocMin).items == Kept(c, s, x)
    ensures |Kept(c, s, x)| == |s| - (if c.duplicates then 0 else Upper(c.cmp, x, s) - Lower(c.cmp, x, s))
  {
    InsertEffect(c, log, 0, x, allocMin);
    ScansBracketEquals(c.cmp, x, s);
    if !c.duplicates {
      EqualsAreABlock(c.cmp, s, x);
    }
  }

  lemma Present<T>(cmp: Comparator<T>, x: T, s: seq<T>, k: nat)
    requires k < |s| && cmp(x, s[k]) == 0
    ensures Splits(cmp, x, s) ==> Lower(cmp, x, s) <= k < Upper(cmp, x, s)
  {
    if Splits(cmp, x, s) {
      ScansBracketEquals(cmp, x, s);
    }
  }

  /** A run of equal elements that cannot be extended holds all of them. */
  lemma RunIsBlock<T>(cmp: Comparator<T>, x: T, s: seq<T>, start: nat, end: nat)
    requires start < end <= |s|
    requires forall i :: start <= i < end ==> cmp(x, s[i]) == 0
    requires start > 0 ==> cmp(x, s[start - 1]) != 0
    requires end < |s| ==> cmp(x, s[end]) != 0
    ensures Splits(cmp, x, s) ==> Lower(cmp, x, s) == start && Upper(cmp, x, s) == end
  {
    if Splits(cmp, x, s) {
      ScansBracketEquals(cmp, x, s);
      assert cmp(x, s[start]) == 0 && cmp(x, s[end - 1]) == 0;
    }
  }

  /** Neighbours on either side of k leave no room for an equal element. */
  lemma Absent<T>(cmp: Comparator<T>, x: T, s: seq<T>, k: nat)
    requires k <= |s|
    requires k > 0 ==> cmp(x, s[k - 1]) > 0
    requires k < |s| ==> cmp(x, s[k]) < 0
    ensures Splits(cmp, x, s) ==> Lower(cmp, x, s) == k && Upper(cmp, x, s) == k
  {
    if Splits(cmp, x, s) {
      ScansBracketEquals(cmp, x, s);
    }
  }
}
