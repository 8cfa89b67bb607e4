/** The page allocator of kalloc.c: a stack of free frames linked through their
    own first word.  A frame is named by its number; 0 is the null pointer. */
module Kalloc {
  import opened Params
  import opened Sets

  /** r->next of each free frame leads to the next one, the last to null. */
  ghost predicate Linked(next: map<nat, nat>, head: nat, free: seq<nat>) {
    && head == (if free == [] then 0 else free[0])
    && (forall i :: 0 <= i < |free| ==> free[i] in next && free[i] > 0)
    && (forall i, j :: 0 <= i && j == i + 1 && j < |free| ==> next[free[i]] == free[j])
    && (free != [] ==> next[free[|free| - 1]] == 0)
  }

  class Kmem {
    /** The frames from `end` up to PHYSTOP. */
    const first: nat
    const limit: nat
    var freelist: nat
    var next: map<nat, nat>
    ghost var free: seq<nat>

    ghost predicate Valid()
      reads this
    {
      && first > 0 && Linked(next, freelist, free) && Distinct(free)
      && (forall f :: f in free ==> first <= f < limit)
    }

    ghost function FreeSet(): set<nat>
      reads this
    {
      set f | f in free
    }

    constructor (lo: nat, hi: nat)
      requires lo > 0
      ensures Valid() && free == [] && first == lo && limit == hi
    {
      first, limit, freelist, next, free := lo, hi, 0, map[], [];
    }

    method Kfree(v: nat)
      requires Valid() && first <= v < limit && v !in FreeSet()
      modifies this
      ensures Valid() && free == [v] + old(free) && FreeSet() == old(FreeSet()) + {v}
    {
      assert v !in free;
      next := next[v := freelist];
      freelist := v;
      free := [v] + free;
      assert forall f :: f in free <==> f == v || f in old(free);
    }

    method Kalloc() returns (r: nat)
      requires Valid()
      modifies this
      ensures Valid()
      ensures old(free) == [] ==> r == 0 && free == []
      ensures old(free) != [] ==> r == old(free)[0] && free == old(free)[1..]
      ensures old(free) != [] ==> first <= r < limit && r !in FreeSet() && old(FreeSet()) == FreeSet() + {r}
    {
      r := freelist;
      assert free != [] ==> free[0] > 0 && free[0] in free;
      if r != 0 {
        freelist := next[r];
        free := free[1..];
        assert old(free) == [r] + free;
        assert forall f :: f in old(free) <==> f == r || f in free;
      }
    }

    /** freerange: every whole page of [vstart, vend), lowest first. */
    method Freerange(vstart: nat, vend: nat)
      requires Valid() && first * PGSIZE <= vstart && vend <= limit * PGSIZE
      requires forall f :: (vstart + PGSIZE - 1) / PGSIZE <= f && (f + 1) * PGSIZE <= vend ==> f !in free
      modifies this
      ensures Valid()
      ensures forall f :: f in FreeSet() <==>
                f in old(FreeSet()) || ((vstart + PGSIZE - 1) / PGSIZE <= f && (f + 1) * PGSIZE <= vend)
    {
      var p := (vstart + PGSIZE - 1) / PGSIZE;
      ghost var p0 := p;
      while (p + 1) * PGSIZE <= vend
        invariant Valid() && p0 <= p
        invariant forall f :: f in FreeSet() <==> f in old(FreeSet()) || (p0 <= f < p && (f + 1) * PGSIZE <= vend)
        decreases vend - p * PGSIZE
      {
        assert p !in old(free) && p !in FreeSet();
        Kfree(p);
        p := p + 1;
      }
    }
  }
}
