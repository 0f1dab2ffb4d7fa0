/**
vm.c: allocuvm, with every path on which memory runs out, and freevm.
*/
module UserMemory {
  import opened Paging
  import opened PageAlloc
  import opened PageTable

  // ----- ownership under the steps of these functions

  /* Pages may move between free and others, and others may be written, under a directory
     that is left alone. */
  lemma OwnShift(mem: Memory, mem': Memory, dir: nat, free: set<nat>, others: set<nat>, free': set<nat>,
                 others': set<nat>)
    requires Own(mem, dir, free, others) && mem'.Keys == mem.Keys
    requires forall p :: p in mem && (p == dir || p in Tables(mem, dir)) ==> mem'[p] == mem[p]
    requires free' + others' == free + others && free' !! others'
    ensures Own(mem', dir, free', others') && Ptes(mem', dir) == Ptes(mem, dir)
  {
    hide Pte;
    SameTable(mem, mem', dir);
  }

  /* Free pages became tables, and the mapping is the same. */
  lemma OwnExtends(mem: Memory, mem': Memory, dir: nat, free: set<nat>, free': set<nat>, others: set<nat>)
    requires Own(mem, dir, free, others) && Extends(mem, dir, free, mem', free') && Ptes(mem', dir) == Ptes(mem, dir)
    ensures Own(mem', dir, free', others) && SameOn(mem, mem', others)
  {
    hide DirOk;
    hide Ptes;
    hide Tables;
    hide UserFrames;
  }

  ghost predicate KeepsFrame(mem: Memory, mem': Memory, f: nat) {
    f in mem && f in mem' && mem'[f] == mem[f]
  }

  /* A page in hand, f, was mapped at the user page v. */
  lemma OwnMapped(mem: Memory, mem': Memory, dir: nat, free: set<nat>, free': set<nat>, others: set<nat>, v: nat,
                  f: nat, perm: nat)
    requires Own(mem, dir, free, others + {f}) && f !in others && f < NPAGES && perm < PGSIZE && v < USERPAGES
    requires Extends(mem, dir, free, mem', free') && !Present(Ptes(mem, dir)[v])
    requires Ptes(mem', dir) == Ptes(mem, dir)[v := Entry(f, perm)]
    ensures Own(mem', dir, free', others) && SameOn(mem, mem', others + {f})
    ensures forall u :: 0 <= u < USERPAGES && Present(Ptes(mem, dir)[u]) ==>
              KeepsFrame(mem, mem', Frame(Ptes(mem, dir)[u]))
  {
    hide DirOk;
    hide Ptes;
    hide Tables;
    var m := Ptes(mem, dir);
    MapUser(m, v, Entry(f, perm));
    assert forall u :: 0 <= u < USERPAGES && Present(m[u]) ==> Frame(m[u]) in UserFrames(m);
  }

  /* The mapping m0 with pages lo, ..., v - 1 added, each to a zeroed user page. */
  ghost predicate Filled(m0: seq<word>, m: seq<word>, mem: Memory, lo: nat, v: nat) {
    && |m0| == |m| == NPAGES
    && forall u :: 0 <= u < NPAGES ==>
         if lo <= u < v then Present(m[u]) && Flags(m[u]) == 7 && Frame(m[u]) in mem && mem[Frame(m[u])] == ZeroPage()
         else m[u] == m0[u]
  }

  lemma FilledOneMore(m0: seq<word>, m: seq<word>, m': seq<word>, mem: Memory, mem': Memory, lo: nat, v: nat, f: nat)
    requires Filled(m0, m, mem, lo, v) && lo <= v < USERPAGES && f < NPAGES && m' == m[v := Entry(f, PTE_W + PTE_U)]
    requires f in mem' && mem'[f] == ZeroPage()
    requires forall u :: 0 <= u < USERPAGES && Present(m[u]) ==> KeepsFrame(mem, mem', Frame(m[u]))
    ensures Filled(m0, m', mem', lo, v + 1)
  {
  }

  /* The new pages can be read and written by the user. */
  lemma FilledAllows(m0: seq<word>, mem: Memory, dir: nat, lo: nat, v: nat)
    requires DirOk(mem, dir) && Filled(m0, Ptes(mem, dir), mem, lo, v)
    ensures Allows(mem, dir, lo, v, PTE_W + PTE_U)
  {
    hide DirOk;
    hide Ptes;
    hide AccessAt;
    forall u | lo <= u < v && u < NPAGES ensures AccessAt(mem, dir, u) == Access(true, true, true) {
      TableDecides(mem, dir, u);
      Bits(Ptes(mem, dir)[u]);
    }
  }

  datatype AllocResult = Mapped | NoPage | NoTable(page: nat)

  lemma OneEntry(v: nat, pd: Page)
    ensures |DirsOf(v, v + 1) - Dirs(pd)| == if v / NENTRIES in Dirs(pd) then 0 else 1
  {
    assert DirsOf(v, v + 1) == {v / NENTRIES};
    if v / NENTRIES in Dirs(pd) {
      assert DirsOf(v, v + 1) - Dirs(pd) == {};
    } else {
      assert DirsOf(v, v + 1) - Dirs(pd) == {v / NENTRIES};
    }
  }

  lemma OnePage(m: seq<word>, m': seq<word>, v: nat, f: nat, perm: nat)
    requires v < NPAGES && f < NPAGES && perm < PGSIZE && |m| == |m'| == NPAGES
    ensures MapsRange(m, m', v, 1, f, perm) ==> m' == m[v := Entry(f, perm)]
    ensures MapsRange(m, m', v, 0, f, perm) ==> m' == m
  {
    hide Entry;
  }

  lemma PageBounds(v: nat)
    requires v < NPAGES
    ensures PagesIn(v * PGSIZE, PGSIZE) == 1 && v * PGSIZE / PGSIZE == v && v * PGSIZE + PGSIZE <= 0x1_0000_0000
  {
  }

  /* mappages for one user page and a page in hand. */
  method MapUserPage(k: Kmem, dir: nat, v: nat, p: nat, perm: nat, ghost others: set<nat>) returns (ok: bool)
    requires k.Valid() && Own(k.mem, dir, k.Free(), others + {p}) && p !in others && p < PHYSPAGES && perm < PGSIZE
    requires v < USERPAGES && !Present(Ptes(k.mem, dir)[v])
    modifies k
    ensures k.Valid() && SameOn(old(k.mem), k.mem, others + {p})
    ensures ok ==> Own(k.mem, dir, k.Free(), others) && Ptes(k.mem, dir) == old(Ptes(k.mem, dir))[v := Entry(p, perm)]
    ensures ok ==> Took(Pd(old(k.mem), dir), Pd(k.mem, dir), |old(k.free)|, |k.free|, v, v + 1)
    ensures ok ==> forall u :: 0 <= u < USERPAGES && Present(old(Ptes(k.mem, dir))[u]) ==>
                     KeepsFrame(old(k.mem), k.mem, Frame(old(Ptes(k.mem, dir))[u]))
    ensures !ok ==> Own(k.mem, dir, k.Free(), others + {p}) && Ptes(k.mem, dir) == old(Ptes(k.mem, dir))
    ensures !ok ==> old(k.free) == [] && v / NENTRIES !in Dirs(Pd(old(k.mem), dir))
  {
    hide DirOk;
    hide Ptes;
    hide Tables;
    hide Own;
    hide Extends;
    hide Base;
    hide MapsRange;
    hide Took;
    hide Dirs;
    hide DirsOf;
    hide PagesIn;
    hide Entry;
    ghost var mem, free, nfree := k.mem, k.Free(), |k.free|;
    OwnBase(mem, dir, free, others + {p});
    PageBounds(v);
    PageBounds(p);
    var res := Mappages(k, dir, v * PGSIZE, PGSIZE, p * PGSIZE, perm);
    assert !res.Remap?;
    OnePage(Ptes(mem, dir), Ptes(k.mem, dir), v, p, perm);
    if res.NoMemory? {
      OneEntry(v, Pd(mem, dir));
      OwnExtends(mem, k.mem, dir, free, k.Free(), others + {p});
      return false;
    }
    OwnMapped(mem, k.mem, dir, free, k.Free(), others, v, p, perm);
    return true;
  }

  /* kalloc a page, fill it and mappages it at v, as allocuvm and copyuvm do. */
  method PlacePage(k: Kmem, dir: nat, v: nat, data: Page, perm: nat, ghost others: set<nat>)
    returns (res: AllocResult, p: nat)
    requires k.Valid() && Own(k.mem, dir, k.Free(), others) && v < USERPAGES && perm < PGSIZE
    requires !Present(Ptes(k.mem, dir)[v])
    modifies k
    ensures k.Valid() && SameOn(old(k.mem), k.mem, others)
    ensures res.Mapped? ==> Own(k.mem, dir, k.Free(), others) && p < PHYSPAGES && p in k.mem && k.mem[p] == data
    ensures res.Mapped? ==> Ptes(k.mem, dir) == old(Ptes(k.mem, dir))[v := Entry(p, perm)]
    ensures res.Mapped? ==> forall u :: 0 <= u < USERPAGES && Present(old(Ptes(k.mem, dir))[u]) ==>
                              KeepsFrame(old(k.mem), k.mem, Frame(old(Ptes(k.mem, dir))[u]))
    ensures res.Mapped? ==>
              |old(k.free)| > 0 && Took(Pd(old(k.mem), dir), Pd(k.mem, dir), |old(k.free)| - 1, |k.free|, v, v + 1)
    ensures res.NoPage? ==> old(k.free) == [] && Own(k.mem, dir, k.Free(), others)
    ensures res.NoTable? ==> |old(k.free)| == 1 && v / NENTRIES !in Dirs(Pd(old(k.mem), dir))
    ensures res.NoTable? ==> res.page !in others && Own(k.mem, dir, k.Free(), others + {res.page}) && res.page in k.mem
    ensures !res.Mapped? ==> Ptes(k.mem, dir) == old(Ptes(k.mem, dir))
  {
    hide DirOk;
    hide Ptes;
    hide Tables;
    hide Apart;
    hide Took;
    hide Dirs;
    hide Entry;
    hide Owned;
    p := k.Kalloc();
    if p == 0 {
      return NoPage, p;
    }
    ghost var mem, free := k.mem, k.Free();
    assert free + (others + {p}) == old(k.Free()) + others;
    InHand(mem, dir, old(k.Free()), others, p);
    k.mem := k.mem[p := data];
    OwnShift(mem, k.mem, dir, old(k.Free()), others, free, others + {p});
    Unlinked(mem, k.mem, k.freelist, k.free);
    ghost var mem1 := k.mem;
    var ok := MapUserPage(k, dir, v, p, perm, others);
    if !ok {
      return NoTable(p), p;
    }
    FramesApart(mem, mem1, dir, old(k.Free()), others, p);
    return Mapped, p;
  }

  /* One round of the loop of allocuvm. */
  method AllocOne(k: Kmem, dir: nat, v: nat, ghost others: set<nat>, ghost m0: seq<word>, ghost lo: nat)
    returns (res: AllocResult)
    requires k.Valid() && Own(k.mem, dir, k.Free(), others) && lo <= v < USERPAGES
    requires !Present(Ptes(k.mem, dir)[v]) && Filled(m0, Ptes(k.mem, dir), k.mem, lo, v)
    modifies k
    ensures k.Valid() && SameOn(old(k.mem), k.mem, others)
    ensures res.Mapped? ==> Own(k.mem, dir, k.Free(), others) && Filled(m0, Ptes(k.mem, dir), k.mem, lo, v + 1)
    ensures res.Mapped? ==>
              |old(k.free)| > 0 && Took(Pd(old(k.mem), dir), Pd(k.mem, dir), |old(k.free)| - 1, |k.free|, v, v + 1)
    ensures res.NoPage? ==> old(k.free) == [] && Own(k.mem, dir, k.Free(), others)
    ensures res.NoTable? ==> |old(k.free)| == 1 && v / NENTRIES !in Dirs(Pd(old(k.mem), dir))
    ensures res.NoTable? ==> res.page !in others && Own(k.mem, dir, k.Free(), others + {res.page}) && res.page in k.mem
    ensures !res.Mapped? ==> Ptes(k.mem, dir) == old(Ptes(k.mem, dir))
  {
    hide Own;
    hide Ptes;
    hide Filled;
    hide Took;
    hide Dirs;
    hide Entry;
    hide SameOn;
    ghost var m, mem := Ptes(k.mem, dir), k.mem;
    var p;
    res, p := PlacePage(k, dir, v, ZeroPage(), PTE_W + PTE_U, others);
    if res.Mapped? {
      FilledOneMore(m0, m, Ptes(k.mem, dir), mem, k.mem, lo, v, p);
    }
  }

  lemma InHand(mem: Memory, dir: nat, free: set<nat>, others: set<nat>, p: nat)
    requires Own(mem, dir, free, others) && p in free
    ensures p !in others && p != dir && p !in Tables(mem, dir) && p in mem
  {
  }

  lemma FramesApart(mem: Memory, mem1: Memory, dir: nat, free: set<nat>, others: set<nat>, p: nat)
    requires Own(mem, dir, free, others) && p in free && p in mem && p in mem1 && mem1 == mem[p := mem1[p]]
    ensures forall u :: 0 <= u < USERPAGES && Present(Ptes(mem, dir)[u]) ==>
              KeepsFrame(mem, mem1, Frame(Ptes(mem, dir)[u]))
  {
    hide DirOk;
    hide Ptes;
    hide Tables;
    assert forall u :: 0 <= u < USERPAGES && Present(Ptes(mem, dir)[u]) ==>
             Frame(Ptes(mem, dir)[u]) in UserFrames(Ptes(mem, dir));
  }

  // ----- allocuvm

  /* The pages that mapping lo, ..., hi - 1 to fresh pages takes: those and the tables. */
  ghost function Cost(pd: Page, lo: nat, hi: nat): nat {
    if lo <= hi then hi - lo + |DirsOf(lo, hi) - Dirs(pd)| else 0
  }

  lemma SpentOneMore(pd: Page, pd1: Page, pd2: Page, n0: nat, n1: nat, n2: nat, lo: nat, v: nat)
    requires lo <= v && n1 > 0 && n0 >= v - lo && Took(pd, pd1, n0 - (v - lo), n1, lo, v)
             && Took(pd1, pd2, n1 - 1, n2, v, v + 1)
    ensures n0 >= v + 1 - lo && Took(pd, pd2, n0 - (v + 1 - lo), n2, lo, v + 1)
  {
    OneEntry(v, pd1);
    DirsOfNext(v, v);
    assert DirsOf(v, v) == {};
    TookOneMore(pd, pd1, pd2, n0 - (v - lo) - 1, n1 - 1, n2, lo, v);
  }

  lemma SpentAll(pd: Page, pd1: Page, n0: nat, n1: nat, lo: nat, v: nat, hi: nat)
    requires lo <= v < hi && n0 >= v - lo && Took(pd, pd1, n0 - (v - lo), n1, lo, v)
    requires n1 == 0 || (n1 == 1 && v / NENTRIES !in Dirs(pd1))
    ensures n0 < Cost(pd, lo, hi)
  {
    if n1 == 0 {
      assert forall i :: Spans(lo, v, i) ==> Spans(lo, hi, i);
      SubsetCount(DirsOf(lo, v) - Dirs(pd), DirsOf(lo, hi) - Dirs(pd));
    } else {
      TookAll(pd, pd1, n0 - (v - lo) - 1, lo, v, hi);
    }
  }

  lemma SpentExactly(pd: Page, pd1: Page, n0: nat, n1: nat, lo: nat, hi: nat)
    requires lo <= hi && n0 >= hi - lo && Took(pd, pd1, n0 - (hi - lo), n1, lo, hi)
    ensures n1 == n0 - Cost(pd, lo, hi)
  {
  }

  /* The same pages are mapped, in the same way. */
  ghost predicate SameMap(m: seq<word>, m': seq<word>) {
    |m| == |m'| == NPAGES && forall u :: 0 <= u < NPAGES && (Present(m[u]) || Present(m'[u])) ==> m'[u] == m[u]
  }

  lemma Restored(m0: seq<word>, m: seq<word>, m': seq<word>, mem: Memory, lo: nat, v: nat, hi: nat)
    requires Filled(m0, m, mem, lo, v) && lo <= v <= hi <= USERPAGES && Removed(m, m', lo, hi)
    requires forall u :: lo <= u < hi ==> !Present(m0[u])
    ensures SameMap(m0, m')
  {
  }

  lemma FilledNone(m: seq<word>, mem: Memory, lo: nat)
    requires |m| == NPAGES
    ensures Filled(m, m, mem, lo, lo)
  {
  }

  lemma StillAbsent(m0: seq<word>, m: seq<word>, mem: Memory, lo: nat, v: nat)
    requires Filled(m0, m, mem, lo, v) && v < NPAGES && !Present(m0[v])
    ensures !Present(m[v])
  {
  }

  /* allocuvm: either the process grows by zeroed pages of its own and nothing else changes,
     or the mapping is as before; either way every page is accounted for.  It fails exactly
     when fewer pages are free than it needs. */
  method Allocuvm(k: Kmem, dir: nat, oldsz: word, newsz: word, ghost others: set<nat>) returns (r: word)
    requires k.Valid() && Own(k.mem, dir, k.Free(), others)
    requires forall u :: PgRoundUp(oldsz) <= u < PgRoundUp(newsz) && u < USERPAGES ==> !Present(Ptes(k.mem, dir)[u])
    modifies k
    ensures k.Valid() && Own(k.mem, dir, k.Free(), others) && SameOn(old(k.mem), k.mem, others)
    ensures newsz >= KERNBASE ==> r == 0 && k.mem == old(k.mem) && k.free == old(k.free)
    ensures newsz < oldsz && newsz < KERNBASE ==> r == oldsz && k.mem == old(k.mem) && k.free == old(k.free)
    ensures oldsz <= newsz < KERNBASE ==>
              var lo, hi := PgRoundUp(oldsz), PgRoundUp(newsz);
              var need := Cost(Pd(old(k.mem), dir), lo, hi);
              if |old(k.free)| < need then r == 0 && SameMap(old(Ptes(k.mem, dir)), Ptes(k.mem, dir))
              else
                && r == newsz && |k.free| == |old(k.free)| - need
                && Filled(old(Ptes(k.mem, dir)), Ptes(k.mem, dir), k.mem, lo, hi)
                && Allows(k.mem, dir, lo, hi, PTE_W + PTE_U)
  {
    hide DirOk;
    hide Ptes;
    hide Tables;
    hide Apart;
    hide Filled;
    hide Took;
    hide Dirs;
    hide DirsOf;
    hide Owned;
    hide SameOn;
    hide Partition;
    hide Linked;
    SameOnSelf(k.mem, others);
    if newsz >= KERNBASE {
      return 0;
    }
    if newsz < oldsz {
      return oldsz;
    }
    var lo, hi := PgRoundUp(oldsz), PgRoundUp(newsz);
    ghost var m0, pd0, n0 := Ptes(k.mem, dir), Pd(k.mem, dir), |k.free|;
    FilledNone(m0, k.mem, lo);
    TookNone(pd0, n0, lo);
    var v := lo;
    while v * PGSIZE < newsz
      invariant lo <= v <= hi && k.Valid() && Own(k.mem, dir, k.Free(), others) && SameOn(old(k.mem), k.mem, others)
      invariant Filled(m0, Ptes(k.mem, dir), k.mem, lo, v)
      invariant n0 >= v - lo && Took(pd0, Pd(k.mem, dir), n0 - (v - lo), |k.free|, lo, v)
      decreases hi - v
    {
      ghost var mem, pd, n := k.mem, Pd(k.mem, dir), |k.free|;
      StillAbsent(m0, Ptes(k.mem, dir), k.mem, lo, v);
      var res := AllocOne(k, dir, v, others, m0, lo);
      SameOnTwice(old(k.mem), mem, k.mem, others);
      if !res.Mapped? {
        SpentAll(pd0, pd, n0, n, lo, v, hi);
        ghost var mem1 := k.mem;
        GiveBack(k, dir, oldsz, newsz, res, others, m0, v, mem);
        SameOnTwice(old(k.mem), mem1, k.mem, others);
        return 0;
      }
      SpentOneMore(pd0, pd, Pd(k.mem, dir), n0, n, |k.free|, lo, v);
      v := v + 1;
    }
    SpentExactly(pd0, Pd(k.mem, dir), n0, |k.free|, lo, hi);
    FilledAllows(m0, k.mem, dir, lo, hi);
    return newsz;
  }

  lemma SameOnSelf(mem: Memory, pages: set<nat>)
    ensures SameOn(mem, mem, pages)
  {
  }

  /* The two failure paths of allocuvm. */
  method GiveBack(k: Kmem, dir: nat, oldsz: word, newsz: word, res: AllocResult, ghost others: set<nat>,
                  ghost m0: seq<word>, ghost v: nat, ghost mem: Memory)
    requires k.Valid() && oldsz <= newsz < KERNBASE && !res.Mapped?
    requires res.NoPage? ==> Own(k.mem, dir, k.Free(), others)
    requires res.NoTable? ==> res.page !in others && Own(k.mem, dir, k.Free(), others + {res.page}) && res.page in k.mem
    requires PgRoundUp(oldsz) <= v <= PgRoundUp(newsz) && Filled(m0, Ptes(k.mem, dir), mem, PgRoundUp(oldsz), v)
    requires forall u :: PgRoundUp(oldsz) <= u < PgRoundUp(newsz) ==> !Present(m0[u])
    modifies k
    ensures k.Valid() && Own(k.mem, dir, k.Free(), others) && SameOn(old(k.mem), k.mem, others)
    ensures SameMap(m0, Ptes(k.mem, dir))
  {
    hide DirOk;
    hide Ptes;
    hide Tables;
    hide Apart;
    hide Filled;
    hide Owned;
    hide Removed;
    hide SameMap;
    ghost var m := Ptes(k.mem, dir);
    ghost var rest := if res.NoTable? then others + {res.page} else others;
    var n := Deallocuvm(k, dir, newsz, oldsz, rest);
    Restored(m0, m, Ptes(k.mem, dir), mem, PgRoundUp(oldsz), v, PgRoundUp(newsz));
    if res.NoTable? {
      ghost var mem1, free1 := k.mem, k.Free();
      NotTable(mem1, dir, free1, others, res.page);
      var ok := k.Kfree(res.page);
      OwnShift(mem1, k.mem, dir, free1, others + {res.page}, k.Free(), others);
    }
  }

  lemma NotTable(mem: Memory, dir: nat, free: set<nat>, others: set<nat>, p: nat)
    requires Own(mem, dir, free, others + {p}) && p !in others
    ensures p != dir && p !in Tables(mem, dir) && p !in free && free !! others
  {
  }

  // ----- freevm

  ghost function TablesBelow(pd: Page, n: nat): set<nat>
    requires n <= NENTRIES
  {
    set i | 0 <= i < n && Present(pd[i]) :: Frame(pd[i])
  }

  lemma TablesNext(pd: Page, n: nat)
    requires n < NENTRIES
    ensures TablesBelow(pd, n + 1) == TablesBelow(pd, n) + (if Present(pd[n]) then {Frame(pd[n])} else {})
  {
    var old0, new0 := TablesBelow(pd, n), TablesBelow(pd, n + 1);
    forall x | x in old0 ensures x in new0 {
      var i :| 0 <= i < n && Present(pd[i]) && Frame(pd[i]) == x;
    }
  }

  lemma NoUserPages(m: seq<word>, m': seq<word>)
    requires Removed(m, m', 0, USERPAGES)
    ensures UserFrames(m') == {}
  {
  }

  /* The loop of freevm over the directory. */
  method FreeTables(k: Kmem, dir: nat, ghost others: set<nat>)
    requires k.Valid() && Own(k.mem, dir, k.Free(), others) && UserFrames(Ptes(k.mem, dir)) == {}
    modifies k
    ensures k.Valid() && SameOn(old(k.mem), k.mem, others + {dir}) && dir !in k.Free() && dir in k.mem
    ensures k.Free() == old(k.Free()) + old(Tables(k.mem, dir))
  {
    hide Linked;
    hide Ptes;
    hide Elems;
    ghost var free0, pd := k.Free(), k.mem[dir];
    assert TablesBelow(pd, NENTRIES) == Tables(k.mem, dir);
    for i := 0 to NENTRIES
      invariant k.Valid() && SameOn(old(k.mem), k.mem, others + {dir}) && k.mem[dir] == pd
      invariant k.Free() == free0 + TablesBelow(pd, i)
    {
      TablesNext(pd, i);
      if Present(k.mem[dir][i]) {
        assert Frame(pd[i]) in old(Tables(k.mem, dir));
        var ok := k.Kfree(Frame(k.mem[dir][i]));
      }
    }
  }

  /* freevm: everything the directory owned is free again, and nothing else changed. */
  method Freevm(k: Kmem, dir: nat, ghost others: set<nat>)
    requires k.Valid() && Own(k.mem, dir, k.Free(), others)
    modifies k
    ensures k.Valid() && SameOn(old(k.mem), k.mem, others)
    ensures k.Free() == old(k.Free()) + old(Owned(k.mem, dir))
  {
    hide Linked;
    hide Ptes;
    hide Tables;
    hide DirOk;
    hide Elems;
    ghost var m0, all, free0 := Ptes(k.mem, dir), k.mem.Keys, k.Free();
    var sz := Deallocuvm(k, dir, KERNBASE, 0, others);
    NoUserPages(m0, Ptes(k.mem, dir));
    ghost var mem1, free1 := k.mem, k.Free();
    FreeTables(k, dir, others);
    ghost var mem2 := k.mem;
    var ok := k.Kfree(dir);
    assert k.Free() == free1 + Tables(mem1, dir) + {dir};
    assert k.Free() == all - others;
  }
}
