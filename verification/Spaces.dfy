/**
All the address spaces together: free pages, the pages of every address space and the
kernel's own pages are disjoint and add up to all of memory, and the operations of vm.c
on one space keep this and leave every other space as it is.
*/
module Spaces {
  import opened PageAlloc
  import opened Paging
  import opened PageTable
  import opened UserMemory
  import opened AddressSpace

  ghost predicate OwnedBySome(mem: Memory, dirs: set<nat>, p: nat) {
    exists d :: d in dirs && p in Owned(mem, d)
  }

  /* Page conservation: `kernel` holds stacks and other pages no directory owns. */
  ghost predicate Conserved(mem: Memory, dirs: set<nat>, free: set<nat>, kernel: set<nat>) {
    && (forall d :: d in dirs ==> DirOk(mem, d) && Apart(d, Tables(mem, d), Ptes(mem, d)))
    && (forall d, e :: d in dirs && e in dirs && d != e ==> Owned(mem, d) !! Owned(mem, e))
    && free !! kernel && free <= mem.Keys && kernel <= mem.Keys
    && (forall p :: p in mem <==> p in free || p in kernel || OwnedBySome(mem, dirs, p))
    && (forall p :: OwnedBySome(mem, dirs, p) ==> p !in free && p !in kernel)
  }

  /* Everything that is neither free nor owned by d. */
  ghost function Rest(mem: Memory, free: set<nat>, d: nat): set<nat> {
    mem.Keys - free - Owned(mem, d)
  }

  /* Conservation seen from one address space. */
  lemma OneSpace(mem: Memory, dirs: set<nat>, free: set<nat>, kernel: set<nat>, d: nat)
    requires Conserved(mem, dirs, free, kernel) && d in dirs
    ensures Own(mem, d, free, Rest(mem, free, d)) && kernel <= Rest(mem, free, d)
    ensures forall e :: e in dirs && e != d ==> Owned(mem, e) <= Rest(mem, free, d)
  {
    hide DirOk;
    hide Apart;
    hide Owned;
    forall p | p in Owned(mem, d) ensures p in mem && p !in free && p !in kernel {
      assert OwnedBySome(mem, dirs, p);
    }
    forall e, p | e in dirs && e != d && p in Owned(mem, e) ensures p in Rest(mem, free, d) {
      assert OwnedBySome(mem, dirs, p);
    }
  }

  /* The address space e maps what it mapped, and its pages hold what they held. */
  ghost predicate Untouched(mem: Memory, mem': Memory, e: nat) {
    Ptes(mem', e) == Ptes(mem, e) && SameOn(mem, mem', Owned(mem, e))
  }

  /* A space whose pages are left alone stays the same. */
  lemma Undisturbed(mem: Memory, mem': Memory, e: nat, pages: set<nat>)
    requires DirOk(mem, e) && Owned(mem, e) <= pages && SameOn(mem, mem', pages)
    ensures DirOk(mem', e) && Tables(mem', e) == Tables(mem, e) && Ptes(mem', e) == Ptes(mem, e)
    ensures Owned(mem', e) == Owned(mem, e) && Untouched(mem, mem', e)
  {
    hide Pte;
    hide UserFrames;
    SameTable(mem, mem', e);
  }

  /* An operation on one address space that keeps its own accounts keeps everyone's. */
  lemma SpaceStep(mem: Memory, mem': Memory, dirs: set<nat>, free: set<nat>, free': set<nat>, kernel: set<nat>, d: nat)
    requires Conserved(mem, dirs, free, kernel) && d in dirs
    requires Own(mem', d, free', Rest(mem, free, d)) && SameOn(mem, mem', Rest(mem, free, d))
    ensures Conserved(mem', dirs, free', kernel)
    ensures forall e :: e in dirs && e != d ==> Untouched(mem, mem', e)
  {
    hide DirOk;
    hide Apart;
    hide Owned;
    hide Tables;
    hide Ptes;
    hide Untouched;
    OneSpace(mem, dirs, free, kernel, d);
    forall e | e in dirs && e != d
      ensures DirOk(mem', e) && Tables(mem', e) == Tables(mem, e) && Ptes(mem', e) == Ptes(mem, e)
      ensures Owned(mem', e) == Owned(mem, e) && Untouched(mem, mem', e)
    {
      Undisturbed(mem, mem', e, Rest(mem, free, d));
    }
    Accounts(mem, mem', dirs, free, free', kernel, d);
  }

  lemma Accounts(mem: Memory, mem': Memory, dirs: set<nat>, free: set<nat>, free': set<nat>, kernel: set<nat>, d: nat)
    requires Conserved(mem, dirs, free, kernel) && d in dirs && mem'.Keys == mem.Keys
    requires Own(mem', d, free', Rest(mem, free, d))
    requires forall e :: e in dirs && e != d ==>
               DirOk(mem', e) && Apart(e, Tables(mem', e), Ptes(mem', e)) && Owned(mem', e) == Owned(mem, e)
    ensures Conserved(mem', dirs, free', kernel)
  {
    hide DirOk;
    hide Apart;
    hide Owned;
    OneSpace(mem, dirs, free, kernel, d);
    forall p | p in Rest(mem, free, d) && p !in kernel ensures OwnedBySome(mem', dirs, p) {
      assert OwnedBySome(mem, dirs, p);
      var e :| e in dirs && p in Owned(mem, e);
      assert e != d;
    }
    forall p | p in Owned(mem', d) ensures OwnedBySome(mem', dirs, p) {
    }
  }

  /* fork: copyuvm adds an address space. */
  lemma SpaceBorn(mem: Memory, mem': Memory, dirs: set<nat>, free: set<nat>, free': set<nat>, kernel: set<nat>, d: nat)
    requires Conserved(mem, dirs, free, kernel) && d !in dirs
    requires Own(mem', d, free', mem.Keys - free) && SameOn(mem, mem', mem.Keys - free)
    ensures Conserved(mem', dirs + {d}, free', kernel)
    ensures forall e :: e in dirs ==> Untouched(mem, mem', e)
  {
    hide DirOk;
    hide Apart;
    hide Owned;
    hide Tables;
    hide Ptes;
    hide Untouched;
    forall e, p | e in dirs && p in Owned(mem, e) ensures p in mem.Keys - free { assert OwnedBySome(mem, dirs, p); }
    forall e | e in dirs
      ensures DirOk(mem', e) && Tables(mem', e) == Tables(mem, e) && Ptes(mem', e) == Ptes(mem, e)
      ensures Owned(mem', e) == Owned(mem, e) && Untouched(mem, mem', e)
    {
      Undisturbed(mem, mem', e, mem.Keys - free);
    }
    forall p | p in Owned(mem', d) ensures OwnedBySome(mem', dirs + {d}, p) {
    }
    forall p | OwnedBySome(mem, dirs, p) ensures OwnedBySome(mem', dirs + {d}, p) {
      var e :| e in dirs && p in Owned(mem, e);
      assert e in dirs + {d} && p in Owned(mem', e);
    }
  }

  /* wait: freevm takes one away. */
  lemma SpaceGone(mem: Memory, mem': Memory, dirs: set<nat>, free: set<nat>, free': set<nat>, kernel: set<nat>, d: nat)
    requires Conserved(mem, dirs, free, kernel) && d in dirs
    requires free' == free + Owned(mem, d) && SameOn(mem, mem', Rest(mem, free, d))
    ensures Conserved(mem', dirs - {d}, free', kernel)
    ensures forall e :: e in dirs && e != d ==> Untouched(mem, mem', e)
  {
    hide DirOk;
    hide Apart;
    hide Owned;
    hide Tables;
    hide Ptes;
    hide Untouched;
    OneSpace(mem, dirs, free, kernel, d);
    forall e | e in dirs && e != d
      ensures DirOk(mem', e) && Tables(mem', e) == Tables(mem, e) && Ptes(mem', e) == Ptes(mem, e)
      ensures Owned(mem', e) == Owned(mem, e) && Untouched(mem, mem', e)
    {
      Undisturbed(mem, mem', e, Rest(mem, free, d));
    }
    forall p | p in Rest(mem, free, d) && p !in kernel ensures OwnedBySome(mem', dirs - {d}, p) {
      assert OwnedBySome(mem, dirs, p);
      var e :| e in dirs && p in Owned(mem, e);
      assert e != d && e in dirs - {d} && p in Owned(mem', e);
    }
  }

  // ----- the operations of vm.c on one of many address spaces

  /* exec and userinit make a space that maps only the kernel. */
  method NewSpace(k: Kmem, ghost dirs: set<nat>, ghost kernel: set<nat>, data: nat) returns (d: nat)
    requires k.Valid() && Conserved(k.mem, dirs, k.Free(), kernel) && DataOk(data)
    modifies k
    ensures k.Valid()
    ensures d == 0 <==> |old(k.free)| < 65
    ensures d == 0 ==> Conserved(k.mem, dirs, k.Free(), kernel) && k.Free() == old(k.Free())
    ensures d != 0 ==> d !in dirs && Conserved(k.mem, dirs + {d}, k.Free(), kernel)
    ensures d != 0 ==> KernelOnly(Ptes(k.mem, d), data, KMAPROWS) && KernelAccess(k.mem, d, data)
    ensures forall e :: e in dirs ==> Untouched(old(k.mem), k.mem, e)
  {
    hide Conserved;
    hide Own;
    hide Ptes;
    hide KernelOnly;
    hide Kmem.Valid;
    hide SameOn;
    hide Untouched;
    ghost var mem0, free0 := k.mem, k.Free();
    FreeListed(mem0, dirs, free0, kernel);
    d := Setupkvm(k, data, mem0.Keys - free0);
    if d == 0 {
      SameSpaces(mem0, k.mem, dirs, free0, kernel);
    } else {
      NotOld(mem0, k.mem, dirs, free0, k.Free(), kernel, d);
      SpaceBorn(mem0, k.mem, dirs, free0, k.Free(), kernel, d);
    }
  }

  lemma FreeListed(mem: Memory, dirs: set<nat>, free: set<nat>, kernel: set<nat>)
    requires Conserved(mem, dirs, free, kernel)
    ensures Partition(mem.Keys, {}, free, mem.Keys - free)
  {
  }

  /* growproc and exec enlarge a space: conserved whether or not the memory suffices. */
  method GrowSpace(k: Kmem, ghost dirs: set<nat>, ghost kernel: set<nat>, d: nat, oldsz: word, newsz: word)
    returns (r: word)
    requires k.Valid() && Conserved(k.mem, dirs, k.Free(), kernel) && d in dirs
    requires forall u :: PgRoundUp(oldsz) <= u < PgRoundUp(newsz) && u < USERPAGES ==> !Present(Ptes(k.mem, d)[u])
    modifies k
    ensures k.Valid() && Conserved(k.mem, dirs, k.Free(), kernel)
    ensures forall e :: e in dirs && e != d ==> Untouched(old(k.mem), k.mem, e)
    ensures newsz >= KERNBASE ==> r == 0 && k.mem == old(k.mem) && k.free == old(k.free)
    ensures newsz < oldsz && newsz < KERNBASE ==> r == oldsz && k.mem == old(k.mem) && k.free == old(k.free)
    ensures oldsz <= newsz < KERNBASE ==>
              var lo, hi := PgRoundUp(oldsz), PgRoundUp(newsz);
              if |old(k.free)| < Cost(Pd(old(k.mem), d), lo, hi) then r == 0
              && SameMap(old(Ptes(k.mem, d)), Ptes(k.mem, d))
              else r == newsz && Filled(old(Ptes(k.mem, d)), Ptes(k.mem, d), k.mem, lo, hi)
                   && Allows(k.mem, d, lo, hi, PTE_W + PTE_U)
  {
    hide Conserved;
    hide Own;
    hide Ptes;
    hide Kmem.Valid;
    hide Filled;
    hide SameMap;
    hide SameOn;
    hide Untouched;
    ghost var mem0, free0 := k.mem, k.Free();
    OneSpace(mem0, dirs, free0, kernel, d);
    r := Allocuvm(k, d, oldsz, newsz, Rest(mem0, free0, d));
    SpaceStep(mem0, k.mem, dirs, free0, k.Free(), kernel, d);
  }

  /* growproc shrinks one. */
  method ShrinkSpace(k: Kmem, ghost dirs: set<nat>, ghost kernel: set<nat>, d: nat, oldsz: nat, newsz: nat)
    returns (r: nat)
    requires k.Valid() && Conserved(k.mem, dirs, k.Free(), kernel) && d in dirs && oldsz <= KERNBASE
    modifies k
    ensures k.Valid() && Conserved(k.mem, dirs, k.Free(), kernel)
    ensures forall e :: e in dirs && e != d ==> Untouched(old(k.mem), k.mem, e)
    ensures r == if newsz >= oldsz then oldsz else newsz
    ensures Removed(old(Ptes(k.mem, d)), Ptes(k.mem, d), PgRoundUp(newsz), PgRoundUp(oldsz))
  {
    hide Conserved;
    hide Own;
    hide Ptes;
    hide Kmem.Valid;
    hide Removed;
    hide SameOn;
    hide Untouched;
    ghost var mem0, free0 := k.mem, k.Free();
    OneSpace(mem0, dirs, free0, kernel, d);
    r := Deallocuvm(k, d, oldsz, newsz, Rest(mem0, free0, d));
    SpaceStep(mem0, k.mem, dirs, free0, k.Free(), kernel, d);
  }

  /* fork copies one: the new space is the copy and the page accounts include it, or there
     is none and the accounts are the old ones.  ok is false where copyuvm panics. */
  method ForkSpace(k: Kmem, ghost dirs: set<nat>, ghost kernel: set<nat>, dir: nat, sz: nat, data: nat)
    returns (d: nat, ok: bool)
    requires k.Valid() && Conserved(k.mem, dirs, k.Free(), kernel) && dir in dirs && sz <= KERNBASE && DataOk(data)
    modifies k
    ensures k.Valid()
    ensures !ok || d != 0 ==> (!ok <==> Absent(old(Ptes(k.mem, dir)), PgRoundUp(sz)))
    ensures ok ==> (d == 0 <==> |old(k.free)| < 65 + PgRoundUp(sz) + (PgRoundUp(sz) + NENTRIES - 1) / NENTRIES)
    ensures ok && d == 0 ==> Conserved(k.mem, dirs, k.Free(), kernel) && k.Free() == old(k.Free())
    ensures ok && d != 0 ==> d !in dirs && Conserved(k.mem, dirs + {d}, k.Free(), kernel)
    ensures ok && d != 0 ==> Copied(old(Ptes(k.mem, dir)), old(k.mem), Ptes(k.mem, d), k.mem, PgRoundUp(sz), data)
    ensures ok && d != 0 ==> forall v :: 0 <= v < PgRoundUp(sz) && v < USERPAGES ==>
                               AccessAt(k.mem, d, v) == AccessAt(old(k.mem), dir, v)
    ensures ok ==> forall e :: e in dirs ==> Untouched(old(k.mem), k.mem, e)
  {
    hide Conserved;
    hide Own;
    hide Ptes;
    hide Kmem.Valid;
    hide Copied;
    hide SameOn;
    hide Untouched;
    ghost var mem0, free0 := k.mem, k.Free();
    ghost var rest := Rest(mem0, free0, dir);
    OneSpace(mem0, dirs, free0, kernel, dir);
    d, ok := Copyuvm(k, dir, sz, data, rest);
    if !ok {
      return d, false;
    }
    AllButFree(mem0, dir, free0, rest);
    if d == 0 {
      SameSpaces(mem0, k.mem, dirs, free0, kernel);
    } else {
      NotOld(mem0, k.mem, dirs, free0, k.Free(), kernel, d);
      SpaceBorn(mem0, k.mem, dirs, free0, k.Free(), kernel, d);
    }
  }

  lemma AllButFree(mem: Memory, d: nat, free: set<nat>, rest: set<nat>)
    requires Own(mem, d, free, rest)
    ensures Owned(mem, d) + rest == mem.Keys - free
  {
  }

  /* Nothing but free pages changed. */
  lemma SameSpaces(mem: Memory, mem': Memory, dirs: set<nat>, free: set<nat>, kernel: set<nat>)
    requires Conserved(mem, dirs, free, kernel) && SameOn(mem, mem', mem.Keys - free)
    ensures Conserved(mem', dirs, free, kernel) && forall e :: e in dirs ==> Untouched(mem, mem', e)
  {
    hide DirOk;
    hide Apart;
    hide Owned;
    hide Tables;
    hide Ptes;
    hide Untouched;
    forall e, p | e in dirs && p in Owned(mem, e) ensures p in mem.Keys - free { assert OwnedBySome(mem, dirs, p); }
    forall e | e in dirs
      ensures DirOk(mem', e) && Tables(mem', e) == Tables(mem, e) && Ptes(mem', e) == Ptes(mem, e)
      ensures Owned(mem', e) == Owned(mem, e) && Untouched(mem, mem', e)
    {
      Undisturbed(mem, mem', e, mem.Keys - free);
    }
    forall p ensures OwnedBySome(mem', dirs, p) <==> OwnedBySome(mem, dirs, p) {
    }
  }

  /* The new directory was a free page. */
  lemma NotOld(mem: Memory, mem': Memory, dirs: set<nat>, free: set<nat>, free': set<nat>, kernel: set<nat>, d: nat)
    requires Conserved(mem, dirs, free, kernel) && Own(mem', d, free', mem.Keys - free)
    ensures d !in dirs
  {
    assert d in Owned(mem', d);
    forall e | e in dirs ensures e != d {
      assert e in Owned(mem, e) && OwnedBySome(mem, dirs, e);
    }
  }

  /* wait and exec free one. */
  method FreeSpace(k: Kmem, ghost dirs: set<nat>, ghost kernel: set<nat>, d: nat)
    requires k.Valid() && Conserved(k.mem, dirs, k.Free(), kernel) && d in dirs
    modifies k
    ensures k.Valid() && Conserved(k.mem, dirs - {d}, k.Free(), kernel)
    ensures k.Free() == old(k.Free()) + old(Owned(k.mem, d))
    ensures forall e :: e in dirs && e != d ==> Untouched(old(k.mem), k.mem, e)
  {
    hide Conserved;
    hide Own;
    hide Owned;
    hide Kmem.Valid;
    hide SameOn;
    hide Untouched;
    ghost var mem0, free0 := k.mem, k.Free();
    OneSpace(mem0, dirs, free0, kernel, d);
    Freevm(k, d, Rest(mem0, free0, d));
    SpaceGone(mem0, k.mem, dirs, free0, k.Free(), kernel, d);
  }
}
