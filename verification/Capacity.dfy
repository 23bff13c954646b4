/** Growing and shrinking of an arraylist's allocated size, and what the copies
    made by realloc cost step by step. */
module Capacity {

  /** Allocated size after arraylist_grow on a list of the given size. */
  function Grown(size: nat, alloc: nat): nat {
    if size + 1 <= alloc then alloc
    else if alloc < 2 then 2
    else alloc + alloc / 2
  }

  /** Allocated size after arraylist_shrink; size still counts the element that
      is being removed. */
  function Shrunk(size: nat, alloc: nat, allocMin: nat): nat {
    if alloc == 0 || alloc <= allocMin then alloc
    else if alloc == 1 then 0
    else
      var half := alloc - alloc / 2;
      if size - 1 >= half then alloc else half
  }

  /** Slots that realloc has to copy when the allocated size changes; releasing
      the whole array copies nothing. */
  function Copied(alloc: nat, newAlloc: nat): nat {
    if alloc == newAlloc then 0 else if alloc <= newAlloc then alloc else newAlloc
  }

  function Max(a: int, b: int): int {
    if a >= b then a else b
  }

  /** Upper bound of the allocated size of a list. */
  function Bound(size: nat, allocMin: nat): nat {
    Max(allocMin, Max(2 * size, 1))
  }

  lemma GrownFits(size: nat, alloc: nat, allocMin: nat)
    requires size <= alloc <= Bound(size, allocMin)
    ensures size + 1 <= Grown(size, alloc) <= Bound(size + 1, allocMin)
  {
  }

  lemma ShrunkFits(size: nat, alloc: nat, allocMin: nat)
    requires 1 <= size <= alloc <= Bound(size, allocMin)
    ensures size - 1 <= Shrunk(size, alloc, allocMin) <= Bound(size - 1, allocMin)
  {
  }

  // ----- amortised cost

  /** The savings of a list: what earlier steps have paid in advance. */
  function Potential(size: nat, alloc: nat): int {
    Max(3 * size - 2 * alloc, 4 * alloc - 6 * size)
  }

  lemma PotentialNonNegative(size: nat, alloc: nat)
    requires size <= alloc
    ensures Potential(size, alloc) >= 0
  {
  }

  lemma InsertPays(size: nat, alloc: nat)
    requires size <= alloc
    ensures Copied(alloc, Grown(size, alloc)) + Potential(size + 1, Grown(size, alloc))
         <= Potential(size, alloc) + 6
  {
  }

  lemma RemovePays(size: nat, alloc: nat, allocMin: nat)
    requires 1 <= size <= alloc
    ensures Copied(alloc, Shrunk(size, alloc, allocMin)) + Potential(size - 1, Shrunk(size, alloc, allocMin))
         <= Potential(size, alloc) + 6
  {
  }
}
