/**
vm.c: walkpgdir, mappages and deallocuvm.
*/
module PageTable {
  import opened Paging
  import opened PageAlloc

  // ----- page tables and free pages together

  /* The directory and its tables are not free. */
  ghost predicate Base(mem: Memory, dir: nat, free: set<nat>) {
    && DirOk(mem, dir) && free <= mem.Keys && dir !in free && Tables(mem, dir) !! free
  }

  /* Some free pages became tables; no other page but the directory changed. */
  ghost predicate Extends(mem: Memory, dir: nat, free: set<nat>, mem': Memory, free': set<nat>) {
    && DirOk(mem, dir) && DirOk(mem', dir) && mem'.Keys == mem.Keys && free' <= free
    && Tables(mem', dir) == Tables(mem, dir) + (free - free')
    && forall p :: p in mem && p != dir && p !in Tables(mem', dir) ==> mem'[p] == mem[p]
  }

  lemma ExtendsTwice(dir: nat, m0: Memory, f0: set<nat>, m1: Memory, f1: set<nat>, m2: Memory, f2: set<nat>)
    requires Extends(m0, dir, f0, m1, f1) && Extends(m1, dir, f1, m2, f2)
    ensures Extends(m0, dir, f0, m2, f2)
  {
    hide DirOk;
    hide Tables;
  }

  lemma ExtendsNone(mem: Memory, dir: nat, free: set<nat>)
    requires DirOk(mem, dir)
    ensures Extends(mem, dir, free, mem, free)
  {
  }

  /* m' is m with n pages from `first` mapped to consecutive frames from `frame`. */
  ghost predicate MapsRange(m: seq<word>, m': seq<word>, first: nat, n: nat, frame: nat, perm: nat) {
    && |m| == |m'| == NPAGES && first + n <= NPAGES && frame + n <= NPAGES && perm < PGSIZE
    && forall v :: 0 <= v < NPAGES ==>
         m'[v] == if first <= v < first + n then Entry(frame + (v - first), perm) else m[v]
  }

  lemma MapsOneMore(m: seq<word>, m1: seq<word>, first: nat, n: nat, frame: nat, perm: nat)
    requires MapsRange(m, m1, first, n, frame, perm) && first + n < NPAGES && frame + n < NPAGES
    ensures MapsRange(m, m1[first + n := Entry(frame + n, perm)], first, n + 1, frame, perm)
    ensures m1[first + n] == m[first + n]
  {
    hide Entry;
  }

  // ----- how many pages a mapping takes

  /* The directory entries in use. */
  ghost function Dirs(pd: Page): set<nat> {
    set i | 0 <= i < NENTRIES && Present(pd[i])
  }

  predicate Spans(lo: nat, hi: nat, i: nat) {
    lo < hi && lo / NENTRIES <= i <= (hi - 1) / NENTRIES
  }

  /* The directory entries that virtual pages lo, ..., hi - 1 need. */
  ghost function DirsOf(lo: nat, hi: nat): set<nat> {
    set i | 0 <= i < hi && Spans(lo, hi, i)
  }

  lemma DirsOfNext(lo: nat, v: nat)
    requires lo <= v
    ensures DirsOf(lo, v + 1) == DirsOf(lo, v) + {v / NENTRIES}
  {
  }

  lemma {:induction false} SubsetCount(a: set<nat>, b: set<nat>)
    requires a <= b
    ensures |a| <= |b|
  {
    assert a + (b - a) == b;
  }

  /* Mapping lo, ..., hi - 1 has taken one free page for each directory entry it lacked. */
  ghost predicate Took(pd: Page, pd': Page, nfree: nat, nfree': nat, lo: nat, hi: nat) {
    Dirs(pd') == Dirs(pd) + DirsOf(lo, hi) && nfree' == nfree - |DirsOf(lo, hi) - Dirs(pd)|
  }

  lemma TookNone(pd: Page, nfree: nat, lo: nat)
    ensures Took(pd, pd, nfree, nfree, lo, lo)
  {
    assert DirsOf(lo, lo) == {};
    assert DirsOf(lo, lo) - Dirs(pd) == {};
  }

  lemma TookOneMore(pd: Page, pd1: Page, pd2: Page, n0: nat, n1: nat, n2: nat, lo: nat, v: nat)
    requires Took(pd, pd1, n0, n1, lo, v) && lo <= v && Dirs(pd2) == Dirs(pd1) + {v / NENTRIES}
    requires n2 == n1 - (if v / NENTRIES in Dirs(pd1) then 0 else 1)
    ensures Took(pd, pd2, n0, n2, lo, v + 1)
  {
    hide Dirs;
    hide DirsOf;
    DirsOfNext(lo, v);
    var fresh0, fresh1 := DirsOf(lo, v) - Dirs(pd), DirsOf(lo, v + 1) - Dirs(pd);
    if v / NENTRIES in Dirs(pd1) {
      assert fresh1 == fresh0;
    } else {
      assert fresh1 == fresh0 + {v / NENTRIES};
    }
  }

  lemma TookAll(pd: Page, pd1: Page, n0: nat, lo: nat, v: nat, hi: nat)
    requires Took(pd, pd1, n0, 0, lo, v) && lo <= v < hi && v / NENTRIES !in Dirs(pd1)
    ensures n0 < |DirsOf(lo, hi) - Dirs(pd)|
  {
    var fresh0 := DirsOf(lo, v) - Dirs(pd);
    assert Spans(lo, hi, v / NENTRIES);
    assert forall i :: Spans(lo, v, i) ==> Spans(lo, hi, i);
    SubsetCount(fresh0 + {v / NENTRIES}, DirsOf(lo, hi) - Dirs(pd));
  }

  /* A free page becomes the table of directory entry i. */
  lemma TableAdded(mem: Memory, dir: nat, free: set<nat>, i: nat, t: nat)
    requires Base(mem, dir, free) && i < NENTRIES && !Present(mem[dir][i]) && t in free && t < NPAGES
    ensures var mem' := mem[t := ZeroPage()][dir := mem[dir][i := Entry(t, PTE_W + PTE_U)]];
            && Base(mem', dir, free - {t}) && Extends(mem, dir, free, mem', free - {t})
            && Ptes(mem', dir) == Ptes(mem, dir) && Present(mem'[dir][i]) && Frame(mem'[dir][i]) == t
            && Dirs(Pd(mem', dir)) == Dirs(Pd(mem, dir)) + {i} && i !in Dirs(Pd(mem, dir))
  {
    hide DirOk;
    hide Ptes;
    hide Tables;
    InMemory(mem, dir);
    AddTable(mem, dir, i, t, PTE_W + PTE_U);
    var mem' := mem[t := ZeroPage()][dir := mem[dir][i := Entry(t, PTE_W + PTE_U)]];
    assert free - (free - {t}) == {t};
    assert mem'.Keys == mem.Keys;
  }

  lemma InMemory(mem: Memory, dir: nat)
    requires DirOk(mem, dir)
    ensures dir in mem && forall i :: 0 <= i < NENTRIES && Present(mem[dir][i]) ==> Frame(mem[dir][i]) in mem
  {
  }

  lemma EntryAt(mem: Memory, dir: nat, v: nat)
    requires DirOk(mem, dir) && v < NPAGES && Present(mem[dir][v / NENTRIES])
    ensures var t := Frame(mem[dir][v / NENTRIES]); t in mem && mem[t][v % NENTRIES] == Ptes(mem, dir)[v]
  {
  }

  /* walkpgdir: the table page holding the entry for virtual page v, 0 if there is none. */
  method Walkpgdir(k: Kmem, dir: nat, v: nat, alloc: bool) returns (t: nat)
    requires k.Valid() && Base(k.mem, dir, k.Free()) && v < NPAGES
    modifies k
    ensures k.Valid() && Base(k.mem, dir, k.Free()) && Extends(old(k.mem), dir, old(k.Free()), k.mem, k.Free())
    ensures Ptes(k.mem, dir) == old(Ptes(k.mem, dir))
    ensures t != 0 ==> Present(k.mem[dir][v / NENTRIES]) && t == Frame(k.mem[dir][v / NENTRIES])
    ensures t == 0 ==> !Present(old(k.mem)[dir][v / NENTRIES]) && k.mem == old(k.mem) && k.free == old(k.free)
    ensures t == 0 && alloc ==> k.free == []
    ensures !alloc ==> k.mem == old(k.mem) && k.free == old(k.free)
    ensures t != 0 ==> Dirs(Pd(k.mem, dir)) == Dirs(Pd(old(k.mem), dir)) + {v / NENTRIES}
    ensures t != 0 ==> |k.free| == |old(k.free)| - (if v / NENTRIES in Dirs(Pd(old(k.mem), dir)) then 0 else 1)
  {
    hide Ptes;
    hide Tables;
    hide Extends;
    hide DirOk;
    InMemory(k.mem, dir);
    ExtendsNone(k.mem, dir, k.Free());
    var pde := k.mem[dir][v / NENTRIES];
    if Present(pde) {
      return Frame(pde);
    }
    if !alloc {
      return 0;
    }
    t := k.Kalloc();
    if t == 0 {
      return 0;
    }
    TableAdded(k.mem, dir, old(k.Free()), v / NENTRIES, t);
    ghost var mem := k.mem;
    k.mem := k.mem[t := ZeroPage()];
    k.mem := k.mem[dir := k.mem[dir][v / NENTRIES := Entry(t, PTE_W + PTE_U)]];
    Unlinked(mem, k.mem, k.freelist, k.free);
  }

  datatype MapResult = Done | NoMemory | Remap

  /* What both results of mapping keep. */
  twostate predicate Grew(k: Kmem, dir: nat)
    reads k
  {
    && k.Valid() && Base(k.mem, dir, k.Free())
    && Extends(old(k.mem), dir, old(k.Free()), k.mem, k.Free())
  }

  lemma SetExtends(mem: Memory, dir: nat, free: set<nat>, v: nat, w: word)
    requires Base(mem, dir, free) && v < NPAGES && Present(mem[dir][v / NENTRIES])
    ensures var t := Frame(mem[dir][v / NENTRIES]);
            var mem' := mem[t := mem[t][v % NENTRIES := w]];
            Base(mem', dir, free) && Extends(mem, dir, free, mem', free) && t !in free
            && Ptes(mem', dir) == Ptes(mem, dir)[v := w]
  {
    hide Ptes;
    SetPte(mem, dir, v, w);
  }

  /* One round of the loop of mappages. */
  method MapOne(k: Kmem, dir: nat, v: nat, frame: nat, perm: nat) returns (res: MapResult)
    requires k.Valid() && Base(k.mem, dir, k.Free()) && v < NPAGES && frame < NPAGES && perm < PGSIZE
    modifies k
    ensures !res.Remap? ==> Grew(k, dir)
    ensures res.Done? ==> Ptes(k.mem, dir) == old(Ptes(k.mem, dir))[v := Entry(frame, perm)]
    ensures res.NoMemory? ==>
              Ptes(k.mem, dir) == old(Ptes(k.mem, dir)) && k.free == [] && !Present(old(Ptes(k.mem, dir))[v])
    ensures res.Remap? <==> Present(old(Ptes(k.mem, dir))[v])
    ensures res.Done? ==> Dirs(Pd(k.mem, dir)) == Dirs(Pd(old(k.mem), dir)) + {v / NENTRIES}
    ensures res.Done? ==> |k.free| == |old(k.free)| - (if v / NENTRIES in Dirs(Pd(old(k.mem), dir)) then 0 else 1)
    ensures res.NoMemory? ==> v / NENTRIES !in Dirs(Pd(k.mem, dir)) && k.mem == old(k.mem) && k.free == old(k.free)
  {
    hide Tables;
    var t := Walkpgdir(k, dir, v, true);
    if t == 0 {
      assert old(Ptes(k.mem, dir))[v] == 0;
      return NoMemory;
    }
    assert k.mem[t][v % NENTRIES] == Ptes(k.mem, dir)[v];
    if Present(k.mem[t][v % NENTRIES]) {
      return Remap;
    }
    ghost var mem := k.mem;
    SetExtends(k.mem, dir, k.Free(), v, Entry(frame, perm));
    k.mem := k.mem[t := k.mem[t][v % NENTRIES := Entry(frame, perm)]];
    ExtendsTwice(dir, old(k.mem), old(k.Free()), mem, k.Free(), k.mem, k.Free());
    Unlinked(mem, k.mem, k.freelist, k.free);
    return Done;
  }

  function PgRoundDown(a: word): (r: word)
    ensures r % PGSIZE == 0 && r <= a < r + PGSIZE
  {
    a / PGSIZE * PGSIZE
  }

  /* The number of pages that the bytes va, ..., va + size - 1 touch. */
  function PagesIn(va: nat, size: nat): int {
    (va + size - 1) / PGSIZE - va / PGSIZE + 1
  }

  lemma RangeOfPages(va: word, size: word)
    requires 0 < size && va + size <= 0x1_0000_0000
    ensures PgRoundDown(va) == va / PGSIZE * PGSIZE
    ensures 0 < PagesIn(va, size) && va / PGSIZE + PagesIn(va, size) <= NPAGES
    ensures PgRoundDown(va + size - 1) == (va / PGSIZE + PagesIn(va, size) - 1) * PGSIZE
  {
  }

  /* mappages: exactly the pages of the range get mapped, also when the range ends at the
     last page of the address space; on failure a prefix of them, and memory is full. */
  method Mappages(k: Kmem, dir: nat, va: word, size: word, pa: word, perm: nat) returns (res: MapResult)
    requires k.Valid() && Base(k.mem, dir, k.Free()) && perm < PGSIZE
    requires 0 < size && va + size <= 0x1_0000_0000 && pa % PGSIZE == 0 && pa / PGSIZE + PagesIn(va, size) <= NPAGES
    modifies k
    ensures !res.Remap? ==> Grew(k, dir)
    ensures res.Done? ==>
              MapsRange(old(Ptes(k.mem, dir)), Ptes(k.mem, dir), va / PGSIZE, PagesIn(va, size), pa / PGSIZE, perm)
    ensures res.Done? ==> Allows(k.mem, dir, va / PGSIZE, va / PGSIZE + PagesIn(va, size), perm)
    ensures res.Done? ==>
              forall v :: va / PGSIZE <= v < va / PGSIZE + PagesIn(va, size) ==> !Present(old(Ptes(k.mem, dir))[v])
    ensures res.Done? ==>
              Took(Pd(old(k.mem), dir), Pd(k.mem, dir), |old(k.free)|, |k.free|, va / PGSIZE,
                   va / PGSIZE + PagesIn(va, size))
    ensures res.NoMemory? ==> k.free == []
    ensures res.NoMemory? ==>
              |old(k.free)| < |DirsOf(va / PGSIZE, va / PGSIZE + PagesIn(va, size)) - Dirs(Pd(old(k.mem), dir))|
    ensures res.NoMemory? ==>
              exists n :: 0 <= n < PagesIn(va, size) &&
                          MapsRange(old(Ptes(k.mem, dir)), Ptes(k.mem, dir), va / PGSIZE, n, pa / PGSIZE, perm)
    ensures res.Remap? ==>
              exists v :: va / PGSIZE <= v < va / PGSIZE + PagesIn(va, size) && Present(old(Ptes(k.mem, dir))[v])
  {
    hide Tables;
    hide Ptes;
    hide Entry;
    hide Took;
    hide Dirs;
    hide DirsOf;
    hide PagesIn;
    hide PgRoundDown;
    hide DirOk;
    hide Extends;
    hide Base;
    hide MapsRange;
    hide Kmem.Valid;
    hide Elems;
    hide Present;
    ghost var m0, first, frame, count := Ptes(k.mem, dir), va / PGSIZE, pa / PGSIZE, PagesIn(va, size);
    RangeOfPages(va, size);
    ghost var n := 0;
    var a, last, pa' := PgRoundDown(va), PgRoundDown(va + size - 1), pa;
    NoneYet(m0, first, frame, perm);
    TookNone(Pd(k.mem, dir), |k.free|, first);
    GrewNone(k.mem, dir, k.Free());
    while true
      invariant k.Valid() && Base(k.mem, dir, k.Free()) && Extends(old(k.mem), dir, old(k.Free()), k.mem, k.Free())
      invariant n < count && a == (first + n) * PGSIZE && pa' == (frame + n) * PGSIZE
      invariant MapsRange(m0, Ptes(k.mem, dir), first, n, frame, perm)
      invariant forall v :: first <= v < first + n ==> !Present(m0[v])
      invariant Took(Pd(old(k.mem), dir), Pd(k.mem, dir), |old(k.free)|, |k.free|, first, first + n)
      decreases count - n
    {
      ghost var mem, free, nfree := k.mem, k.Free(), |k.free|;
      MapsOneMore(m0, Ptes(mem, dir), first, n, frame, perm);
      res := MapOne(k, dir, a / PGSIZE, pa' / PGSIZE, perm);
      if res.Remap? {
        return;
      }
      ExtendsTwice(dir, old(k.mem), old(k.Free()), mem, free, k.mem, k.Free());
      if res.NoMemory? {
        TookAll(Pd(old(k.mem), dir), Pd(mem, dir), |old(k.free)|, first, first + n, first + count);
        return;
      }
      TookOneMore(Pd(old(k.mem), dir), Pd(mem, dir), Pd(k.mem, dir), |old(k.free)|, nfree, |k.free|, first, first + n);
      n := n + 1;
      if a == last {
        RangeAllows(k.mem, dir, k.Free(), m0, first, n, frame, perm);
        return;
      }
      a := a + PGSIZE;
      pa' := pa' + PGSIZE;
    }
  }

  /* On pages lo, ..., hi - 1 exactly what perm says is allowed. */
  ghost predicate Allows(mem: Memory, dir: nat, lo: nat, hi: nat, perm: nat) {
    forall v :: lo <= v < hi && v < NPAGES ==>
      AccessAt(mem, dir, v) == Access(true, perm / PTE_W % 2 == 1, perm / PTE_U % 2 == 1)
  }

  lemma RangeAllows(mem: Memory, dir: nat, free: set<nat>, m: seq<word>, first: nat, n: nat, frame: nat, perm: nat)
    requires Base(mem, dir, free) && MapsRange(m, Ptes(mem, dir), first, n, frame, perm)
    ensures Allows(mem, dir, first, first + n, perm)
  {
    hide DirOk;
    hide Ptes;
    hide AccessAt;
    hide Entry;
    forall v | first <= v < first + n
      ensures AccessAt(mem, dir, v) == Access(true, perm / PTE_W % 2 == 1, perm / PTE_U % 2 == 1)
    {
      EntryAccess(mem, dir, v, frame + (v - first), perm);
    }
  }

  lemma NoneYet(m: seq<word>, first: nat, frame: nat, perm: nat)
    requires |m| == NPAGES && first <= NPAGES && frame <= NPAGES && perm < PGSIZE
    ensures MapsRange(m, m, first, 0, frame, perm)
  {
  }

  lemma GrewNone(mem: Memory, dir: nat, free: set<nat>)
    requires Base(mem, dir, free)
    ensures Extends(mem, dir, free, mem, free)
  {
  }

  // ----- deallocuvm

  /* Page-by-page removal of virtual pages lo, ..., hi - 1. */
  ghost predicate Removed(m: seq<word>, m': seq<word>, lo: nat, hi: nat) {
    && |m| == |m'| == NPAGES
    && forall v :: 0 <= v < NPAGES ==> m'[v] == if lo <= v < hi && Present(m[v]) then 0 else m[v]
  }

  ghost predicate SameOn(mem: Memory, mem': Memory, pages: set<nat>) {
    mem'.Keys == mem.Keys && forall p :: p in pages && p in mem ==> mem'[p] == mem[p]
  }

  lemma SameOnTwice(m0: Memory, m1: Memory, m2: Memory, pages: set<nat>)
    requires SameOn(m0, m1, pages) && SameOn(m1, m2, pages)
    ensures SameOn(m0, m2, pages)
  {
  }

  /* Freeing the frame of a user page and clearing its entry. */
  lemma OwnUnmap(mem: Memory, dir: nat, free: set<nat>, others: set<nat>, v: nat)
    requires Own(mem, dir, free, others) && v < USERPAGES && Present(Ptes(mem, dir)[v])
    ensures Present(mem[dir][v / NENTRIES])
    ensures var f, t := Frame(Ptes(mem, dir)[v]), Frame(mem[dir][v / NENTRIES]);
            && f in mem && f !in free && f != dir && f !in Tables(mem, dir)
            && t in mem && mem[t][v % NENTRIES] == Ptes(mem, dir)[v]
  {
    assert Frame(Ptes(mem, dir)[v]) in UserFrames(Ptes(mem, dir));
  }

  lemma OwnUnmapped(mem: Memory, dir: nat, free: set<nat>, others: set<nat>, v: nat, mem1: Memory)
    requires Own(mem, dir, free, others) && v < USERPAGES && Present(Ptes(mem, dir)[v])
    requires mem1.Keys == mem.Keys && forall p :: p in mem && p != Frame(Ptes(mem, dir)[v]) ==> mem1[p] == mem[p]
    ensures Present(mem[dir][v / NENTRIES])
    ensures var f, t := Frame(Ptes(mem, dir)[v]), Frame(mem[dir][v / NENTRIES]);
            t in mem1 && t !in free + {f} &&
            var mem2 := mem1[t := mem1[t][v % NENTRIES := 0]];
            && Own(mem2, dir, free + {f}, others) && Ptes(mem2, dir) == Ptes(mem, dir)[v := 0]
            && Tables(mem2, dir) == Tables(mem, dir) && SameOn(mem, mem2, others)
  {
    hide Pte;
    OwnUnmap(mem, dir, free, others, v);
    var m, f, t := Ptes(mem, dir), Frame(Ptes(mem, dir)[v]), Frame(mem[dir][v / NENTRIES]);
    SameTable(mem, mem1, dir);
    SetPte(mem1, dir, v, 0);
    UnmapUser(m, v);
    var mem2 := mem1[t := mem1[t][v % NENTRIES := 0]];
    assert Owned(mem2, dir) == Owned(mem, dir) - {f};
  }

  method UnmapOne(k: Kmem, dir: nat, v: nat, t: nat, ghost others: set<nat>) returns (ok: bool)
    requires k.Valid() && Own(k.mem, dir, k.Free(), others) && v < USERPAGES && Present(Ptes(k.mem, dir)[v])
    requires Present(k.mem[dir][v / NENTRIES]) && t == Frame(k.mem[dir][v / NENTRIES])
    modifies k
    ensures ok && k.Valid() && Own(k.mem, dir, k.Free(), others) && SameOn(old(k.mem), k.mem, others)
    ensures Ptes(k.mem, dir) == old(Ptes(k.mem, dir))[v := 0] && Tables(k.mem, dir) == old(Tables(k.mem, dir))
  {
    hide Own;
    hide Ptes;
    hide Tables;
    ghost var mem, free := k.mem, k.Free();
    OwnUnmap(k.mem, dir, k.Free(), others, v);
    var frame := Frame(k.mem[t][v % NENTRIES]);
    ok := k.Kfree(frame);
    OwnUnmapped(mem, dir, free, others, v, k.mem);
    ghost var mem1 := k.mem;
    k.mem := k.mem[t := k.mem[t][v % NENTRIES := 0]];
    Unlinked(mem1, k.mem, k.freelist, k.free);
  }

  /* The number of pages that hold a bytes. */
  function PgRoundUp(a: nat): (n: nat)
    ensures a <= n * PGSIZE < a + PGSIZE
  {
    (a + PGSIZE - 1) / PGSIZE
  }

  lemma RemovedNone(m: seq<word>, lo: nat, hi: nat)
    requires |m| == NPAGES && hi <= lo
    ensures Removed(m, m, lo, hi)
  {
  }

  /* Skipping to the next directory entry passes over absent pages only. */
  lemma RemovedSkip(mem: Memory, dir: nat, m0: seq<word>, lo: nat, v: nat, hi: nat)
    requires DirOk(mem, dir) && v < NPAGES && !Present(mem[dir][v / NENTRIES]) && Removed(m0, Ptes(mem, dir), lo, v)
    requires v < hi <= (v / NENTRIES + 1) * NENTRIES
    ensures Removed(m0, Ptes(mem, dir), lo, hi)
  {
    forall u | v <= u < hi && u < NPAGES ensures Ptes(mem, dir)[u] == 0 == m0[u] {
      assert u / NENTRIES == v / NENTRIES;
    }
  }

  lemma RemovedOne(m0: seq<word>, m: seq<word>, m': seq<word>, lo: nat, v: nat)
    requires Removed(m0, m, lo, v) && lo <= v < NPAGES
    requires m' == if Present(m[v]) then m[v := 0] else m
    ensures Removed(m0, m', lo, v + 1)
  {
  }

  /* Where the next page and the next directory entry begin. */
  lemma NextAddress(a: nat)
    requires a % PGSIZE == 0 && a / PGSIZE < USERPAGES
    ensures var v := a / PGSIZE;
            var w := (v / NENTRIES + 1) * NENTRIES;
            && v < w <= USERPAGES && w * PGSIZE - PGSIZE >= 0 && a < w * PGSIZE <= KERNBASE
            && w * PGSIZE % PGSIZE == 0 && w * PGSIZE / PGSIZE == w
            && a + PGSIZE <= KERNBASE && (a + PGSIZE) % PGSIZE == 0 && (a + PGSIZE) / PGSIZE == v + 1
  {
  }

  /* One round of the loop of deallocuvm at address a, and the next address. */
  method DeallocRound(k: Kmem, dir: nat, a: nat, ghost m0: seq<word>, ghost lo: nat, ghost hi: nat,
                      ghost others: set<nat>)
    returns (a': nat)
    requires k.Valid() && Own(k.mem, dir, k.Free(), others) && a % PGSIZE == 0 && lo <= a / PGSIZE < hi <= USERPAGES
    requires Removed(m0, Ptes(k.mem, dir), lo, a / PGSIZE)
    modifies k
    ensures k.Valid() && Own(k.mem, dir, k.Free(), others) && SameOn(old(k.mem), k.mem, others)
    ensures a < a' <= KERNBASE && a' % PGSIZE == 0
    ensures Removed(m0, Ptes(k.mem, dir), lo, if a' / PGSIZE < hi then a' / PGSIZE else hi)
    ensures Tables(k.mem, dir) == old(Tables(k.mem, dir))
  {
    hide Apart;
    hide Partition;
    hide Removed;
    hide Tables;
    hide Ptes;
    hide DirOk;
    a' := a;
    var v := a / PGSIZE;
    NextAddress(a);
    OwnBase(k.mem, dir, k.Free(), others);
    var t := Walkpgdir(k, dir, v, false);
    if t == 0 {
      var w := (v / NENTRIES + 1) * NENTRIES;
      a' := w * PGSIZE - PGSIZE;
      RemovedSkip(k.mem, dir, m0, lo, v, if w < hi then w else hi);
    } else {
      EntryAt(k.mem, dir, v);
      ghost var m := Ptes(k.mem, dir);
      if Present(k.mem[t][v % NENTRIES]) {
        var ok := UnmapOne(k, dir, v, t, others);
      }
      RemovedOne(m0, m, Ptes(k.mem, dir), lo, v);
    }
    a' := a' + PGSIZE;
  }

  lemma OwnBase(mem: Memory, dir: nat, free: set<nat>, others: set<nat>)
    requires Own(mem, dir, free, others)
    ensures Base(mem, dir, free)
  {
  }

  /* deallocuvm: its loop, which skips whole directory entries, removes exactly the pages
     of the range, and their frames become free. */
  method Deallocuvm(k: Kmem, dir: nat, oldsz: nat, newsz: nat, ghost others: set<nat>) returns (r: nat)
    requires k.Valid() && Own(k.mem, dir, k.Free(), others) && oldsz <= KERNBASE
    modifies k
    ensures k.Valid() && Own(k.mem, dir, k.Free(), others) && SameOn(old(k.mem), k.mem, others)
    ensures r == if newsz >= oldsz then oldsz else newsz
    ensures Removed(old(Ptes(k.mem, dir)), Ptes(k.mem, dir), PgRoundUp(newsz), PgRoundUp(oldsz))
    ensures Tables(k.mem, dir) == old(Tables(k.mem, dir))
  {
    hide Apart;
    hide Partition;
    hide Ptes;
    hide Tables;
    hide Removed;
    if newsz >= oldsz {
      RemovedNone(Ptes(k.mem, dir), PgRoundUp(newsz), PgRoundUp(oldsz));
      return oldsz;
    }
    var lo, hi := PgRoundUp(newsz), PgRoundUp(oldsz);
    ghost var m0, tables := Ptes(k.mem, dir), Tables(k.mem, dir);
    var a := lo * PGSIZE;
    RemovedNone(m0, lo, lo);
    while a < oldsz
      invariant k.Valid() && Own(k.mem, dir, k.Free(), others) && SameOn(old(k.mem), k.mem, others)
      invariant a % PGSIZE == 0 && lo <= a / PGSIZE
      invariant DirOk(k.mem, dir) && Removed(m0, Ptes(k.mem, dir), lo, if a / PGSIZE < hi then a / PGSIZE else hi)
      invariant Tables(k.mem, dir) == tables
      decreases KERNBASE - a
    {
      a := DeallocRound(k, dir, a, m0, lo, hi, others);
    }
    return newsz;
  }
}
