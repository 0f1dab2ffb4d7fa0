/**
kalloc.c: the free pages form a list threaded through the pages themselves.  A page is
named by its physical page number, 0 standing for the null pointer; the links in memory
are kernel virtual addresses.
*/
module PageAlloc {
  import opened Paging

  const PHYSPAGES: nat := 0xE000

  /* P2V of a page. */
  function Kva(p: nat): (w: word)
    requires p < USERPAGES
  {
    KERNBASE + PGSIZE * p
  }

  function PageOf(w: word): nat
    requires w >= KERNBASE
  {
    (w - KERNBASE) / PGSIZE
  }

  /* What page list[i] holds as its next pointer. */
  function After(list: seq<nat>, i: int): word
    requires -1 <= i < |list|
  {
    if i + 1 < |list| && list[i + 1] < USERPAGES then Kva(list[i + 1]) else 0
  }

  ghost predicate Linked(mem: Memory, head: word, list: seq<nat>) {
    && (forall i :: 0 <= i < |list| ==> list[i] in mem && list[i] < USERPAGES)
    && (forall i, j :: 0 <= i < j < |list| ==> list[i] != list[j])
    && head == After(list, -1)
    && (forall i {:trigger After(list, i)} :: 0 <= i < |list| ==> mem[list[i]][0] == After(list, i))
  }

  ghost function Elems(list: seq<nat>): set<nat> {
    set p | p in list
  }

  lemma Pop(mem: Memory, head: word, list: seq<nat>)
    requires Linked(mem, head, list) && list != []
    ensures Linked(mem, mem[list[0]][0], list[1..])
    ensures Elems(list[1..]) == Elems(list) - {list[0]} && list[0] in Elems(list)
  {
    assert After(list, 0) == After(list[1..], -1);
    forall i | 0 <= i < |list[1..]| ensures mem[list[1..][i]][0] == After(list[1..], i) {
      assert After(list, i + 1) == After(list[1..], i);
    }
  }

  lemma Push(mem: Memory, head: word, list: seq<nat>, p: nat, page: Page)
    requires Linked(mem, head, list) && p in mem && p !in list && p < USERPAGES && page[0] == head
    ensures Linked(mem[p := page], Kva(p), [p] + list) && Elems([p] + list) == Elems(list) + {p}
  {
    var list' := [p] + list;
    forall i | 0 <= i < |list'| ensures mem[p := page][list'[i]][0] == After(list', i) {
      if i > 0 {
        assert After(list', i) == After(list, i - 1);
      } else {
        assert After(list', 0) == After(list, -1);
      }
    }
  }

  /* Writing pages off the list leaves it alone. */
  lemma Unlinked(mem: Memory, mem': Memory, head: word, list: seq<nat>)
    requires Linked(mem, head, list) && mem'.Keys == mem.Keys && forall p :: p in list ==> mem'[p] == mem[p]
    ensures Linked(mem', head, list)
  {
  }

  predicate InManaged(first: nat, p: nat) {
    first <= p < PHYSPAGES
  }

  /* Page p lies entirely between vstart and vend. */
  predicate Whole(vstart: nat, vend: nat, p: nat) {
    vstart <= p * PGSIZE && (p + 1) * PGSIZE <= vend
  }

  class Kmem {
    const first: nat
    var mem: Memory
    var freelist: word
    ghost var free: seq<nat>

    /* Managed memory runs from the end of the kernel to PHYSTOP; nothing is free yet. */
    constructor (first: nat)
      requires 0 < first < PHYSPAGES
      ensures this.first == first && Valid() && free == []
    {
      this.first := first;
      mem := map p: nat | p < PHYSPAGES && InManaged(first, p) :: ZeroPage();
      freelist, free := 0, [];
    }

    ghost predicate Valid()
      reads this
    {
      && 0 < first < PHYSPAGES && (forall p: nat :: p in mem <==> InManaged(first, p))
      && Linked(mem, freelist, free)
    }

    ghost function Free(): set<nat>
      reads this
    {
      Elems(free)
    }

    method Kalloc() returns (p: nat)
      requires Valid()
      modifies this`freelist, this`free
      ensures Valid() && (p == 0 <==> old(free) == []) && (p == 0 ==> free == [])
      ensures p != 0 ==> p == old(free)[0] && free == old(free)[1..] && p in mem && p < PHYSPAGES
      ensures p != 0 ==> p in old(Free()) && Free() == old(Free()) - {p}
    {
      var r := freelist;
      if r == 0 {
        return 0;
      }
      assert free != [] && r == After(free, -1);
      p := PageOf(r);
      Pop(mem, freelist, free);
      freelist := mem[p][0];
      free := free[1..];
    }

    /* kfree; ok is false where it panics, for an address outside managed memory. */
    method Kfree(p: nat) returns (ok: bool)
      requires Valid() && p !in Free()
      modifies this
      ensures Valid() && (ok <==> first <= p < PHYSPAGES)
      ensures ok ==> free == [p] + old(free) && Free() == old(Free()) + {p} && freelist == Kva(p)
      ensures ok ==> p in mem && mem[p] == seq(NENTRIES, i => 0x0101_0101)[0 := old(freelist)]
      ensures ok ==> mem.Keys == old(mem.Keys) && forall q :: q in mem && q != p ==> mem[q] == old(mem)[q]
      ensures !ok ==> mem == old(mem) && free == old(free)
    {
      if p < first || p >= PHYSPAGES {
        return false;
      }
      var page: Page := seq(NENTRIES, i => 0x0101_0101);
      page := page[0 := freelist];
      Push(mem, freelist, free, p, page);
      mem := mem[p := page];
      freelist := Kva(p);
      free := [p] + free;
      return true;
    }

    /* kfree of a kernel virtual address; it also panics for one that is not a page's. */
    method KfreeAddress(v: word) returns (ok: bool)
      requires Valid() && (v >= KERNBASE && v % PGSIZE == 0 ==> PageOf(v) !in Free())
      modifies this
      ensures Valid() && (ok <==> v % PGSIZE == 0 && v >= KERNBASE && first <= PageOf(v) < PHYSPAGES)
      ensures ok ==> free == [PageOf(v)] + old(free) && v == Kva(PageOf(v)) && freelist == v
      ensures !ok ==> mem == old(mem) && free == old(free)
    {
      if v % PGSIZE != 0 || v < KERNBASE {
        return false;
      }
      ok := Kfree(PageOf(v));
    }

    predicate Managed(p: nat) {
      InManaged(first, p)
    }

    /* freerange on whole pages; together kinit1 and kinit2 call it on all of managed memory. */
    method Freerange(vstart: nat, vend: nat) returns (ok: bool)
      requires Valid() && forall p: nat :: Whole(vstart, vend, p) ==> p !in Free()
      modifies this
      ensures Valid()
      ensures ok <==> forall p: nat :: Whole(vstart, vend, p) ==> Managed(p)
      ensures ok ==> forall p: nat :: p in Free() <==> p in old(Free()) || Whole(vstart, vend, p)
    {
      var p0 := (vstart + PGSIZE - 1) / PGSIZE;
      var p := p0;
      while (p + 1) * PGSIZE <= vend
        invariant p0 <= p && Valid()
        invariant forall q: nat :: Whole(vstart, vend, q) && q < p ==> Managed(q)
        invariant forall q: nat :: q in Free() <==> q in old(Free()) || (Whole(vstart, vend, q) && q < p)
        decreases vend - p
      {
        assert Whole(vstart, vend, p);
        ok := Kfree(p);
        if !ok {
          return false;
        }
        p := p + 1;
      }
      assert forall q: nat :: Whole(vstart, vend, q) ==> q < p;
      return true;
    }
  }
}
